/**
 * The per-day best scores: the dictionary `daily_scores` from date to score,
 * the loader that fills it from `daily_scores.txt` in `__init__`, and
 * `save_daily_scores`, which writes one `date:score` line per entry.
 *
 * A Python dict keeps its keys in insertion order, and both the file and the
 * progress listing depend on that order, so the dictionary is a map together
 * with the sequence of its keys in insertion order: assigning to a present
 * key changes its value and keeps its place, assigning to a new key appends it.
 */
module DailyScores {
  import opened Wrappers
  import opened Chars
  import opened ScoreText

  /** A (date, score) pair, as `daily_scores.items()` yields them. */
  type Entry = (string, int)
  type Entries = seq<Entry>

  predicate DistinctKeys(es: Entries) {
    forall i, j :: 0 <= i < j < |es| ==> es[i].0 != es[j].0
  }

  datatype DictRep = DictRep(order: seq<string>, scores: map<string, int>)

  /** Every key appears once in the order, and the order lists exactly the keys of the map. */
  predicate WellFormed(d: DictRep) {
    && (forall i, j :: 0 <= i < j < |d.order| ==> d.order[i] != d.order[j])
    && (forall k :: k in d.order ==> k in d.scores)
    && (forall k :: k in d.scores ==> k in d.order)
  }

  /** A Python dict from date to score. */
  type Dict = d: DictRep | WellFormed(d) witness DictRep([], map[])

  const Empty: Dict := DictRep([], map[])

  /** `d.get(k)`. */
  function Get(d: Dict, k: string): (r: Option<int>)
    ensures r.Some? <==> k in d.order
    ensures r.Some? ==> r.value == d.scores[k]
  {
    if k in d.scores then Some(d.scores[k]) else None
  }

  /** `d[k] = v`. */
  function Put(d: Dict, k: string, v: int): (r: Dict)
    ensures Get(r, k) == Some(v)
    ensures forall k' :: k' != k ==> Get(r, k') == Get(d, k')
    ensures k in d.order ==> r.order == d.order
    ensures k !in d.order ==> r.order == d.order + [k]
  {
    if k in d.scores then DictRep(d.order, d.scores[k := v])
    else DictRep(d.order + [k], d.scores[k := v])
  }

  /** `d.items()`: the pairs in insertion order. */
  function Items(d: Dict): (es: Entries)
    ensures |es| == |d.order|
    ensures forall i :: 0 <= i < |es| ==> es[i].0 == d.order[i] && Get(d, es[i].0) == Some(es[i].1)
    ensures DistinctKeys(es)
  {
    seq(|d.order|, i requires 0 <= i < |d.order| => (d.order[i], d.scores[d.order[i]]))
  }

  /** Every date of the dictionary is a key the file format can carry. */
  predicate ValidKeys(d: Dict) {
    forall k :: k in d.scores ==> ValidKey(k)
  }

  // ---------------------------------------------------------------- one line

  /** A date the file format can carry: no ':' or line break, no leading whitespace. */
  predicate ValidKey(d: string) {
    ':' !in d && '\n' !in d && (d == [] || !IsSpace(d[0]))
  }

  /** A date as `strftime("%Y-%m-%d")` prints it. */
  predicate IsIsoDate(s: string)
    ensures IsIsoDate(s) ==> ValidKey(s)
  {
    && |s| == 10 && s[4] == '-' && s[7] == '-'
    && IsDigit(s[0]) && IsDigit(s[1]) && IsDigit(s[2]) && IsDigit(s[3])
    && IsDigit(s[5]) && IsDigit(s[6]) && IsDigit(s[8]) && IsDigit(s[9])
  }

  /**
   * One line of the loader loop: `date, score = line.strip().split(":")`
   * followed by `int(score)`; None stands for the ValueError that skips the
   * line (not exactly two parts, or a score `int()` rejects).
   */
  function ParseDailyLine(line: string): (r: Option<Entry>)
    ensures r.Some? ==>
      var t := Strip(line, StrSpaces);
      var n := |r.value.0|;
      && n < |t| && t == r.value.0 + ":" + t[n + 1..]
      && ':' !in r.value.0 && ':' !in t[n + 1..]
      && ParseInt(t[n + 1..]) == Some(r.value.1)
    ensures r.Some? && '\n' !in line ==> ValidKey(r.value.0)
  {
    var t := Strip(line, StrSpaces);
    var parts := SplitOn(t, ':');
    if |parts| == 2 then
      match ParseInt(parts[1])
      case None => None
      case Some(v) =>
        SplitInTwo(t, parts);
        StripKeepsOut(line, '\n', StrSpaces);
        Some((parts[0], v))
    else None
  }

  /** A text split at ':' into two pieces is the first piece, ':' and the second piece. */
  lemma SplitInTwo(t: string, parts: seq<string>)
    requires parts == SplitOn(t, ':') && |parts| == 2
    ensures t == parts[0] + ":" + t[|parts[0]| + 1..]
    ensures t[|parts[0]| + 1..] == parts[1]
    ensures parts[0] != [] ==> parts[0][0] == t[0]
    ensures ':' !in parts[0] && ':' !in parts[1]
    ensures '\n' !in t ==> '\n' !in parts[0]
  {
    JoinTwo(parts, ':');
    assert t[|parts[0]| + 1..] == parts[1];
    assert parts[0] == t[..|parts[0]|];
  }

  /**
   * Conversely, a line that strips to a date, one ':' and a score text
   * `int()` accepts, with no other ':', is kept.
   */
  lemma WellFormedLineKept(line: string, date: string, score: string)
    requires Strip(line, StrSpaces) == date + ":" + score
    requires ':' !in date && ':' !in score && ParseInt(score).Some?
    ensures ParseDailyLine(line) == Some((date, ParseInt(score).value))
  {
    SplitOnFirstPiece(date, ':', score);
    SplitOnNoSeparator(score, ':');
  }

  /** The line `save_daily_scores` writes for one entry, without its "\n". */
  function EntryLine(e: Entry): string {
    e.0 + ":" + IntToString(e.1)
  }

  /** The loader reads back every line the saver writes. */
  lemma LineRoundTrip(e: Entry)
    requires ValidKey(e.0)
    ensures ParseDailyLine(EntryLine(e)) == Some(e)
  {
    EntryLineUnpadded(e);
    EntryLineSplits(e);
    ParseIntToString(e.1);
  }

  /** A written line has no whitespace at either end, so `strip()` keeps it whole. */
  lemma EntryLineUnpadded(e: Entry)
    requires ValidKey(e.0)
    ensures Strip(EntryLine(e), StrSpaces) == EntryLine(e)
  {
    var line := EntryLine(e);
    var s := IntToString(e.1);
    assert line == e.0 + [':'] + s;
    assert line[|line| - 1] == s[|s| - 1];
    assert e.0 == [] ==> line[0] == ':';
    assert e.0 != [] ==> line[0] == e.0[0];
  }

  /** A written line splits at its one ':' into the date and the score text. */
  lemma EntryLineSplits(e: Entry)
    requires ValidKey(e.0)
    ensures SplitOn(EntryLine(e), ':') == [e.0, IntToString(e.1)]
  {
    var s := IntToString(e.1);
    assert EntryLine(e) == e.0 + [':'] + s;
    SplitOnFirstPiece(e.0, ':', s);
    SplitOnNoSeparator(s, ':');
  }

  // ---------------------------------------------------------------- the loader

  /** The dictionary after the loader loop has handled one more line. */
  function ApplyLine(d: Dict, line: string): (r: Dict)
    ensures ValidKeys(d) && '\n' !in line ==> ValidKeys(r)
  {
    match ParseDailyLine(line)
    case None => d
    case Some(e) => Put(d, e.0, e.1)
  }

  /** The dictionary the loader loop builds from `lines`, handled in order. */
  function DailyScoresOf(lines: seq<string>): (r: Dict)
    ensures (forall k :: 0 <= k < |lines| ==> '\n' !in lines[k]) ==> ValidKeys(r)
  {
    if lines == [] then Empty
    else ApplyLine(DailyScoresOf(lines[..|lines| - 1]), lines[|lines| - 1])
  }

  /** `daily_scores` after `__init__`: empty when the file is missing. */
  function LoadDailyScores(file: Option<string>): (r: Dict)
    ensures ValidKeys(r)
  {
    match file
    case None => Empty
    case Some(text) => DailyScoresOf(FileLines(text))
  }

  /** The loader loop of `__init__`, over the lines of the file. */
  method ReadDailyScores(file: Option<string>) returns (d: Dict)
    ensures d == LoadDailyScores(file)
  {
    d := Empty;
    if file.Some? {
      var lines := FileLines(file.value);
      var i := 0;
      while i < |lines|
        invariant 0 <= i <= |lines|
        invariant d == DailyScoresOf(lines[..i])
      {
        LoadOneMore(lines, i);
        var parsed := ParseDailyLine(lines[i]);
        if parsed.Some? {
          d := Put(d, parsed.value.0, parsed.value.1);
        }
        i := i + 1;
      }
      assert lines[..|lines|] == lines;
    }
  }

  lemma LoadOneMore(lines: seq<string>, i: nat)
    requires i < |lines|
    ensures DailyScoresOf(lines[..i + 1]) == ApplyLine(DailyScoresOf(lines[..i]), lines[i])
  {
    assert lines[..i + 1][..i] == lines[..i];
  }

  /** A line the loader rejects leaves the result of all other lines as it was. */
  lemma {:induction false} MalformedLineSkipped(before: seq<string>, bad: string, after: seq<string>)
    requires ParseDailyLine(bad).None?
    ensures DailyScoresOf(before + [bad] + after) == DailyScoresOf(before + after)
    decreases |after|
  {
    if after == [] {
      assert before + [bad] + after == before + [bad];
      assert (before + [bad])[..|before|] == before;
      assert before + after == before;
    } else {
      var init := after[..|after| - 1];
      MalformedLineSkipped(before, bad, init);
      LastLineSplit(before + [bad], after);
      LastLineSplit(before, after);
    }
  }

  /** Dropping the last line of a + b, when b is not empty, drops the last line of b. */
  lemma LastLineSplit(a: seq<string>, b: seq<string>)
    requires b != []
    ensures DailyScoresOf(a + b) == ApplyLine(DailyScoresOf(a + b[..|b| - 1]), b[|b| - 1])
  {
    SnocSplit(a, b);
    LoadOneLine(a + b, a + b[..|b| - 1], b[|b| - 1]);
  }

  /** a + b ends with the last element of b. */
  lemma SnocSplit<T>(a: seq<T>, b: seq<T>)
    requires b != []
    ensures a + b == (a + b[..|b| - 1]) + [b[|b| - 1]]
  {
    assert b == b[..|b| - 1] + [b[|b| - 1]];
  }

  /** Loading lines that end with `last` applies `last` to what the earlier lines give. */
  lemma LoadOneLine(lines: seq<string>, init: seq<string>, last: string)
    requires lines == init + [last]
    ensures DailyScoresOf(lines) == ApplyLine(DailyScoresOf(init), last)
  {
    assert lines[..|lines| - 1] == init;
  }

  /** The score of the last line for date k that parses, if any: later lines win. */
  function LastScoreFor(lines: seq<string>, k: string): Option<int> {
    if lines == [] then None
    else
      var p := ParseDailyLine(lines[|lines| - 1]);
      if p.Some? && p.value.0 == k then Some(p.value.1)
      else LastScoreFor(lines[..|lines| - 1], k)
  }

  /** Looking a date up in the loaded dictionary gives the last well-formed line for it. */
  lemma {:induction false} LoadedScoreIsLastLine(lines: seq<string>, k: string)
    ensures Get(DailyScoresOf(lines), k) == LastScoreFor(lines, k)
    decreases |lines|
  {
    if lines != [] {
      LoadedScoreIsLastLine(lines[..|lines| - 1], k);
    }
  }

  // ---------------------------------------------------------------- the saver

  function EntryLines(es: Entries): (lines: seq<string>)
    ensures |lines| == |es|
  {
    seq(|es|, i requires 0 <= i < |es| => EntryLine(es[i]))
  }

  /** The text written for a sequence of pairs, one terminated line each. */
  function ItemsText(es: Entries): string {
    Terminated(EntryLines(es))
  }

  /** The text of `daily_scores.txt` as `save_daily_scores` writes it. */
  function DailyScoresText(d: Dict): string {
    ItemsText(Items(d))
  }

  lemma ItemsTextSnoc(es: Entries, i: nat)
    requires i < |es|
    ensures ItemsText(es[..i + 1]) == ItemsText(es[..i]) + (EntryLine(es[i]) + "\n")
  {
    EntryLinesSnoc(es, i);
    TerminatedSnoc(EntryLines(es[..i]), EntryLine(es[i]));
    Reassociate(ItemsText(es[..i]), EntryLine(es[i]), "\n");
  }

  /** The lines of one more entry are the lines so far and its line. */
  lemma EntryLinesSnoc(es: Entries, i: nat)
    requires i < |es|
    ensures EntryLines(es[..i + 1]) == EntryLines(es[..i]) + [EntryLine(es[i])]
  {
    assert es[..i + 1] == es[..i] + [es[i]];
    EntryLinesAppend(es[..i], es[i]);
  }

  lemma EntryLinesAppend(es: Entries, e: Entry)
    ensures EntryLines(es + [e]) == EntryLines(es) + [EntryLine(e)]
  {
    var l := EntryLines(es + [e]);
    var r := EntryLines(es) + [EntryLine(e)];
    assert |l| == |r|;
    forall k | 0 <= k < |l|
      ensures l[k] == r[k]
    {
      if k < |es| {
        assert l[k] == EntryLine(es[k]) == r[k];
      }
    }
  }

  lemma Reassociate(a: string, b: string, c: string)
    ensures a + b + c == a + (b + c)
  {
  }

  /** The writing loop of `save_daily_scores`. */
  method WriteDailyScores(d: Dict) returns (text: string)
    ensures text == DailyScoresText(d)
  {
    var items := Items(d);
    text := "";
    var i := 0;
    while i < |items|
      invariant 0 <= i <= |items|
      invariant text == ItemsText(items[..i])
    {
      var (date, score) := items[i];
      var line := date + ":" + IntToString(score) + "\n";
      assert line == EntryLine(items[i]) + "\n";
      ItemsTextSnoc(items, i);
      text := text + line;
      i := i + 1;
    }
    ItemsTextWhole(items);
  }

  lemma ItemsTextWhole(es: Entries)
    ensures ItemsText(es[..|es|]) == ItemsText(es)
  {
    assert es[..|es|] == es;
  }

  /** The first n keys of a dictionary with their scores: what the loader has built after n lines. */
  function Prefix(d: Dict, n: nat): (r: Dict)
    requires n <= |d.order|
    ensures r.order == d.order[..n]
    ensures forall k :: k in r.scores ==> k in d.scores && r.scores[k] == d.scores[k]
  {
    DictRep(d.order[..n], map k | k in d.order[..n] :: d.scores[k])
  }

  /** Reading back the first n lines written for d gives the first n keys of d. */
  lemma {:induction false} ReadPrefix(d: Dict, n: nat)
    requires ValidKeys(d) && n <= |d.order|
    ensures DailyScoresOf(EntryLines(Items(d))[..n]) == Prefix(d, n)
    decreases n
  {
    var lines := EntryLines(Items(d));
    if n == 0 {
      PrefixZero(d, lines);
    } else {
      var m := n - 1;
      ReadPrefix(d, m);
      LoadOneMore(lines, m);
      LineRoundTrip(Items(d)[m]);
      AppendKey(d, m);
    }
  }

  lemma PrefixZero(d: Dict, lines: seq<string>)
    ensures DailyScoresOf(lines[..0]) == Prefix(d, 0)
  {
    assert lines[..0] == [];
    assert Prefix(d, 0).scores == map[];
  }

  /** The prefix of d as long as d is d itself. */
  lemma PrefixWhole(d: Dict)
    ensures Prefix(d, |d.order|) == d
  {
    var p := Prefix(d, |d.order|);
    assert p.order == d.order;
    assert p.scores == d.scores;
  }

  /** Reading back all the lines written for d gives d. */
  lemma ReadEntryLines(d: Dict)
    requires ValidKeys(d)
    ensures DailyScoresOf(EntryLines(Items(d))) == d
  {
    var lines := EntryLines(Items(d));
    ReadPrefix(d, |d.order|);
    PrefixWhole(d);
    assert lines[..|d.order|] == lines;
  }

  /** Appending the next key of d to its prefix of length m gives the prefix of length m + 1. */
  lemma AppendKey(d: Dict, m: nat)
    requires m < |d.order|
    ensures Put(Prefix(d, m), d.order[m], d.scores[d.order[m]]) == Prefix(d, m + 1)
  {
    var k := d.order[m];
    var p := Prefix(d, m);
    assert k !in p.order by {
      forall i | 0 <= i < m
        ensures p.order[i] != k
      {
        assert p.order[i] == d.order[i];
      }
    }
    assert d.order[..m + 1] == d.order[..m] + [k];
    var q := Prefix(d, m + 1);
    assert Put(p, k, d.scores[k]).scores == q.scores;
  }

  /**
   * Loading the text `save_daily_scores` wrote reproduces the dictionary,
   * insertion order included, whenever its dates are keys the format can carry.
   */
  lemma DailyScoresRoundTrip(d: Dict)
    requires ValidKeys(d)
    ensures LoadDailyScores(Some(DailyScoresText(d))) == d
  {
    var items := Items(d);
    var lines := EntryLines(items);
    forall k | 0 <= k < |lines|
      ensures '\n' !in lines[k]
    {
      assert lines[k] == items[k].0 + [':'] + IntToString(items[k].1);
    }
    FileLinesOfTerminated(lines);
    ReadEntryLines(d);
  }
}
