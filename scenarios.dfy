/**
 * Whole sessions: a sequence of key presses fed to `key_press` one after
 * another, and two concrete sessions worked out to their final state.
 */
module Scenarios {
  import opened Wrappers
  import opened PiDigits
  import opened ScoreText
  import opened DailyScores
  import opened GameRules

  /** The state after pressing `keys` in order on the day `today`. */
  function Run(g: Game, keys: seq<string>, today: string): Game
    decreases |keys|
  {
    if keys == [] then g else Run(KeyStep(g, keys[0], today).0, keys[1..], today)
  }

  /** No sequence of key presses breaks the invariant. */
  lemma {:induction false} RunKeepsInvariant(g: Game, keys: seq<string>, today: string)
    requires Invariant(g) && IsIsoDate(today)
    ensures Invariant(Run(g, keys, today))
    decreases |keys|
  {
    if keys != [] {
      KeyStepKeepsInvariant(g, keys[0], today);
      RunKeepsInvariant(KeyStep(g, keys[0], today).0, keys[1..], today);
    }
  }

  /** The high score never goes down over a session. */
  lemma {:induction false} RunHighScoreRises(g: Game, keys: seq<string>, today: string)
    ensures Run(g, keys, today).highScore >= g.highScore
    decreases |keys|
  {
    if keys != [] {
      var g1 := KeyStep(g, keys[0], today).0;
      if PassesKeyFilter(keys[0]) && g.mode != Menu {
        ScoresOnlyRise(g, keys[0], g.mode == Practice, today);
      }
      RunHighScoreRises(g1, keys[1..], today);
    }
  }

  lemma {:induction false} RunAppend(g: Game, a: seq<string>, b: seq<string>, today: string)
    ensures Run(g, a + b, today) == Run(Run(g, a, today), b, today)
    decreases |a|
  {
    if a == [] {
      assert a + b == b;
    } else {
      assert (a + b)[1..] == a[1..] + b;
      RunAppend(KeyStep(g, a[0], today).0, a[1..], b, today);
    }
  }

  lemma RunFirst(g: Game, keys: seq<string>, today: string)
    requires keys != []
    ensures Run(g, keys, today) == Run(Run(g, [keys[0]], today), keys[1..], today)
  {
  }

  /** The expected digit typed in an active Real game is appended and shown. */
  lemma TypeCorrect(g: Game, c: char, today: string)
    requires g.mode == Real && g.gameActive
    requires DigitsLeft(g) && '0' <= c <= '9' && NextDigit(g) == [c]
    ensures Run(g, [[c]], today) == g.(userInput := g.userInput + [c], display := Window("3." + g.userInput + [c]))
  {
    KeyFilterAccepts(c);
    StepOnNextDigit(g, false, today);
  }

  /** A wrong digit typed in an active Real game is a strike. */
  lemma TypeWrong(g: Game, c: char, today: string)
    requires g.mode == Real && g.gameActive
    requires DigitsLeft(g) && '0' <= c <= '9' && NextDigit(g) != [c]
    ensures Run(g, [[c]], today) == Strike(g, today).0
  {
    KeyFilterAccepts(c);
    StepOnWrongDigitReal(g, [c], today);
  }

  /** One key press per character of s. */
  function KeyPresses(s: string): (keys: seq<string>)
    ensures |keys| == |s|
    ensures forall i :: 0 <= i < |s| ==> keys[i] == [s[i]]
  {
    seq(|s|, i requires 0 <= i < |s| => [s[i]])
  }

  lemma KeyPressesAppend(a: string, b: string)
    ensures KeyPresses(a + b) == KeyPresses(a) + KeyPresses(b)
  {
  }

  /** The first character of s is the next digit after u, and u grows by it. */
  lemma NextOfPrefix(digits: string, u: string, s: string)
    requires s != [] && Offset + |u| + |s| <= |digits|
    requires u + s == digits[Offset..Offset + |u| + |s|]
    ensures digits[Offset + |u|] == s[0]
    ensures (u + [s[0]]) + s[1..] == u + s
    ensures (u + [s[0]]) + s[1..] == digits[Offset..Offset + |u + [s[0]]| + |s[1..]|]
  {
    assert (u + s)[|u|] == s[0];
    assert u + s == u + [s[0]] + s[1..];
  }

  /** s holds the next digits of pi after the input of an active Real game. */
  predicate Typable(g: Game, s: string) {
    && g.mode == Real && g.gameActive
    && |g.userInput| + |s| + Offset <= |g.piDigits|
    && g.userInput + s == g.piDigits[Offset..Offset + |g.userInput| + |s|]
    && forall i :: 0 <= i < |s| ==> '0' <= s[i] <= '9'
  }

  /** The state after typing the digits of s with `Typable(g, s)`. */
  function Typed(g: Game, s: string): Game {
    g.(userInput := g.userInput + s, display := if s == [] then g.display else Window("3." + g.userInput + s))
  }

  /** After the first digit of s is typed, the rest of s can be typed. */
  lemma TypableRest(g: Game, s: string)
    requires Typable(g, s) && s != []
    ensures DigitsLeft(g) && NextDigit(g) == [s[0]] && '0' <= s[0] <= '9'
    ensures Typable(g.(userInput := g.userInput + [s[0]], display := Window("3." + g.userInput + [s[0]])), s[1..])
  {
    NextOfPrefix(g.piDigits, g.userInput, s);
  }

  /** Typing the first digit of s and then the rest is typing s. */
  lemma TypedRest(g: Game, s: string)
    requires s != []
    ensures Typed(g.(userInput := g.userInput + [s[0]], display := Window("3." + g.userInput + [s[0]])), s[1..]) == Typed(g, s)
  {
    var u := g.userInput;
    var g1 := g.(userInput := u + [s[0]], display := Window("3." + u + [s[0]]));
    assert s == [s[0]] + s[1..];
    assert g1.userInput + s[1..] == u + s;
    if s[1..] == [] {
      assert s == [s[0]];
      assert Typed(g1, s[1..]) == g1;
    } else {
      assert "3." + g1.userInput + s[1..] == "3." + u + s;
    }
  }

  /**
   * Typing the next digits of pi in an active Real game appends them, shows
   * the end of the new input, and changes nothing else.
   */
  lemma {:induction false} TypeDigits(g: Game, s: string, today: string)
    requires Typable(g, s)
    ensures Run(g, KeyPresses(s), today) == Typed(g, s)
    decreases |s|
  {
    if s == [] {
      assert g.userInput + s == g.userInput;
      assert KeyPresses(s) == [];
    } else {
      TypableRest(g, s);
      var g1 := g.(userInput := g.userInput + [s[0]], display := Window("3." + g.userInput + [s[0]]));
      TypeDigits(g1, s[1..], today);
      TypeFirst(g, s, today);
      TypedRest(g, s);
    }
  }

  /** Typing s starts with typing its first digit. */
  lemma TypeFirst(g: Game, s: string, today: string)
    requires g.mode == Real && g.gameActive && s != [] && '0' <= s[0] <= '9'
    requires DigitsLeft(g) && NextDigit(g) == [s[0]]
    ensures Run(g, KeyPresses(s), today) ==
      Run(g.(userInput := g.userInput + [s[0]], display := Window("3." + g.userInput + [s[0]])), KeyPresses(s[1..]), today)
  {
    TypeCorrect(g, s[0], today);
    KeyPressesFirst(s);
    RunAppend(g, [[s[0]]], KeyPresses(s[1..]), today);
  }

  lemma KeyPressesFirst(s: string)
    requires s != []
    ensures KeyPresses(s) == [[s[0]]] + KeyPresses(s[1..])
  {
  }

  /**
   * Three wrong digits in a fresh Real game: two strikes that show the input
   * again, then the game is over and the score is recorded.
   */
  lemma ThreeStrikes(g: Game, u: string, c: char, today: string)
    requires g.mode == Real && g.gameActive && g.wrongGuesses == 0 && g.userInput == u
    requires DigitsLeft(g) && '0' <= c <= '9' && NextDigit(g) != [c]
    ensures Run(g, [[c], [c], [c]], today) ==
      RecordScore(g.(wrongGuesses := 3, gameActive := false, display := Window("3." + u)),
                  today, |u|)
  {
    TypeWrong(g, c, today);
    var g1 := g.(wrongGuesses := 1, display := Window("3." + g.userInput));
    TypeWrong(g1, c, today);
    var g2 := g1.(wrongGuesses := 2);
    TypeWrong(g2, c, today);
    RunAppend(g, [[c]], [[c], [c]], today);
    RunAppend(g1, [[c]], [[c]], today);
  }

  /** s can be typed in a game with no strike yet, and c is not the digit that follows. */
  predicate ReadyToMiss(g: Game, s: string, c: char) {
    && Typable(g, s) && g.wrongGuesses == 0
    && DigitsLeft(Typed(g, s)) && '0' <= c <= '9' && NextDigit(Typed(g, s)) != [c]
  }

  /**
   * A Real game that types the next digits s and then misses three times is
   * over, with the length of its input as the score, recorded by `RecordScore`.
   */
  lemma TypeThenMiss(g: Game, s: string, c: char, today: string)
    requires ReadyToMiss(g, s, c)
    ensures Run(g, KeyPresses(s + [c, c, c]), today) ==
      RecordScore(Typed(g, s).(wrongGuesses := 3, gameActive := false, display := Window("3." + (g.userInput + s))),
                  today, |g.userInput + s|)
  {
    TypeDigits(g, s, today);
    ThreeKeys(s, c);
    RunAppend(g, KeyPresses(s), [[c], [c], [c]], today);
    assert Run(g, KeyPresses(s + [c, c, c]), today) == Run(Typed(g, s), [[c], [c], [c]], today);
    ThreeStrikes(Typed(g, s), g.userInput + s, c, today);
  }

  /** Typing s and then c three times is the key presses of s followed by three c keys. */
  lemma ThreeKeys(s: string, c: char)
    ensures KeyPresses(s + [c, c, c]) == KeyPresses(s) + [[c], [c], [c]]
  {
    KeyPressesAppend(s, [c, c, c]);
    assert KeyPresses([c, c, c]) == [[c], [c], [c]];
  }

  /** The first recorded score with no score files: it is both the day's entry and the high score. */
  lemma FirstScoreRecorded(g: Game, today: string, score: int)
    requires g.highScore == 0 && g.dailyScores == Empty && score > 0
    ensures RecordScore(g, today, score) ==
      g.(highScore := score, highScoreFile := Some(IntToString(score)),
         dailyScores := Put(Empty, today, score), dailyScoresFile := Some(today + ":" + IntToString(score) + "\n"))
  {
    OneEntryText(today, score);
  }

  /** The file of a dictionary with one entry is that entry's line. */
  lemma OneEntryText(k: string, v: int)
    ensures DailyScoresText(Put(Empty, k, v)) == k + ":" + IntToString(v) + "\n"
  {
    assert Items(Put(Empty, k, v)) == [(k, v)];
    assert EntryLines([(k, v)]) == [k + ":" + IntToString(v)];
    assert Terminated([k + ":" + IntToString(v)]) == k + ":" + IntToString(v) + "\n";
  }

  /** A Real game just started on the digits of pi, with no score recorded and no score files. */
  predicate FreshRealGame(g: Game) {
    && g.mode == Real && g.gameActive && g.userInput == [] && g.wrongGuesses == 0
    && Offset + 8 <= |g.piDigits| && g.piDigits[Offset..Offset + 8] == "14159265"
    && g.highScore == 0 && g.dailyScores == Empty
  }

  /** A Real game started right after `__init__` found no score files is fresh. */
  lemma NewPlayerStartsFresh()
    ensures FreshRealGame(StartRealGame(Loaded(None, None)))
  {
    PiShape();
    PiStart();
  }

  /** The state after the first game of a new player who scored 7. */
  function FirstGameOver(g: Game, today: string): (r: Game)
    ensures r.userInput == "1415926" && r.wrongGuesses == 3 && !r.gameActive
    ensures r.highScore == 7 && r.highScoreFile == Some("7")
    ensures r.dailyScores.order == [today] && Get(r.dailyScores, today) == Some(7)
    ensures r.dailyScoresFile == Some(today + ":7\n")
  {
    g.(userInput := "1415926", wrongGuesses := 3, gameActive := false, display := Window("3.1415926"),
       highScore := 7, highScoreFile := Some("7"),
       dailyScores := Put(Empty, today, 7), dailyScoresFile := Some(today + ":7\n"))
  }

  /**
   * The bookkeeping at the end of a new player's first Real game: seven
   * correct digits, then three wrong ones, give score 7, which becomes both
   * today's entry and the high score, with both files written.
   */
  lemma FirstRealGame(g: Game, today: string)
    requires FreshRealGame(g)
    ensures RecordScore(Typed(g, "1415926").(wrongGuesses := 3, gameActive := false,
                                              display := Window("3." + (g.userInput + "1415926"))),
                        today, |g.userInput| + |"1415926"|) == FirstGameOver(g, today)
  {
    var over := g.(userInput := "1415926", wrongGuesses := 3, gameActive := false, display := Window("3.1415926"));
    GameOverAfterSeven(g);
    FirstScoreRecorded(over, today, 7);
    SevenText(today);
  }

  /**
   * The whole first game as key presses: in a fresh Real game, the keys
   * "1415926000" end in `FirstGameOver`.
   */
  lemma FirstGameKeys(g: Game, today: string)
    requires FreshRealGame(g)
    ensures Run(g, KeyPresses("1415926000"), today) == FirstGameOver(g, today)
  {
    var s := "1415926";
    var over := Typed(g, s).(wrongGuesses := 3, gameActive := false, display := Window("3." + (g.userInput + s)));
    SevenTypable(g);
    TypeThenMiss(g, s, '0', today);
    assert s + ['0', '0', '0'] == "1415926000";
    assert Run(g, KeyPresses("1415926000"), today) == RecordScore(over, today, |g.userInput + s|);
    assert |g.userInput + s| == |g.userInput| + |s|;
    FirstRealGame(g, today);
  }

  /** A new player, with no score files, who starts a Real game and types "1415926000". */
  lemma NewPlayerFirstGame(today: string)
    ensures Run(StartRealGame(Loaded(None, None)), KeyPresses("1415926000"), today) ==
      FirstGameOver(StartRealGame(Loaded(None, None)), today)
  {
    NewPlayerStartsFresh();
    FirstGameKeys(StartRealGame(Loaded(None, None)), today);
  }

  /** The game over state after typing seven digits and missing three times. */
  lemma GameOverAfterSeven(g: Game)
    requires g.userInput == []
    ensures Typed(g, "1415926").(wrongGuesses := 3, gameActive := false, display := Window("3." + (g.userInput + "1415926")))
      == g.(userInput := "1415926", wrongGuesses := 3, gameActive := false, display := Window("3.1415926"))
    ensures |g.userInput| + |"1415926"| == 7
  {
    assert g.userInput + "1415926" == "1415926";
    assert "3." + (g.userInput + "1415926") == "3.1415926";
  }

  lemma SevenText(today: string)
    ensures IntToString(7) == "7" && today + ":" + IntToString(7) + "\n" == today + ":7\n"
  {
    assert IntToString(7) == "7";
  }

  /** A Real game started on the digits of pi can take seven digits, after which 5 is next. */
  lemma SevenTypable(g: Game)
    requires FreshRealGame(g)
    ensures ReadyToMiss(g, "1415926", '0')
  {
    assert g.piDigits[Offset..Offset + 7] == g.piDigits[Offset..Offset + 8][..7];
    assert g.piDigits[Offset + 7] == g.piDigits[Offset..Offset + 8][7];
  }

  /**
   * Practice from the start: "1" is accepted, then the wrong "9" leaves the
   * input at "1", raises the hint flag, and names the expected 4 with the
   * five digits from it.
   */
  lemma PracticeHintAfterOne(g: Game, today: string)
    requires g.mode == Practice && g.userInput == []
    requires Offset + 8 <= |g.piDigits| && g.piDigits[Offset..Offset + 8] == "14159265"
    ensures var g1 := Step(g, "1", true, today).0;
      var (g2, out) := Step(g1, "9", true, today);
      && g2.userInput == "1" && g2.showHint
      && out == Hint('4', "41592")
  {
    HintAfterOne(g.piDigits);
    var g1 := Step(g, "1", true, today).0;
    FirstDigitAccepted(g, today);
    WrongDigitHints(g1, g.piDigits, today);
  }

  /** In Practice with no input, the digit 1 of pi is appended. */
  lemma FirstDigitAccepted(g: Game, today: string)
    requires g.mode == Practice && g.userInput == []
    requires Offset < |g.piDigits| && g.piDigits[Offset] == '1'
    ensures Step(g, "1", true, today).0.userInput == "1"
    ensures Step(g, "1", true, today).0.piDigits == g.piDigits
  {
    assert NextDigit(g) == "1";
    StepOnNextDigit(g, true, today);
  }

  /** In Practice after the input "1", the wrong 9 shows the hint for the 4 that follows. */
  lemma WrongDigitHints(g: Game, s: string, today: string)
    requires g.userInput == "1" && g.piDigits == s
    requires Offset + 8 <= |s| && s[3] == '4' && Slice(s, 3, 8) == "41592"
    ensures var (g2, out) := Step(g, "9", true, today);
      && g2.userInput == "1" && g2.showHint
      && out == Hint('4', "41592")
  {
    assert NextDigit(g) == "4";
    StepOnWrongDigitPractice(g, "9", today);
    assert ShowHint(g).1 == Hint(s[3], Slice(s, 3, 8));
  }

  /** In the digits of pi, the first digit is 1 and the hint at the second position is 41592. */
  lemma HintAfterOne(s: string)
    requires Offset + 8 <= |s| && s[Offset..Offset + 8] == "14159265"
    ensures s[Offset] == '1' && s[3] == '4' && Slice(s, 3, 8) == "41592"
  {
    var hint := Slice(s, 3, 8);
    assert s[Offset] == s[Offset..Offset + 8][0];
    forall k | 0 <= k < 5
      ensures hint[k] == "41592"[k]
    {
      assert hint[k] == s[Offset..Offset + 8][k + 1];
    }
  }

  /** A daily-scores file with a line the loader rejects, then the line of an entry, loads as that one entry. */
  lemma BadLineThenGoodLine(bad: string, e: Entry)
    requires '\n' !in bad && ParseDailyLine(bad).None? && ValidKey(e.0)
    ensures LoadDailyScores(Some(bad + "\n" + EntryLine(e) + "\n")) == Put(Empty, e.0, e.1)
  {
    LineRoundTrip(e);
    LoadTwoLines(bad, EntryLine(e));
    SkipThenOne(bad, EntryLine(e));
  }

  /** The file of two lines loads as the loader loop over those two lines. */
  lemma LoadTwoLines(a: string, b: string)
    requires '\n' !in a && '\n' !in b
    ensures LoadDailyScores(Some(a + "\n" + b + "\n")) == DailyScoresOf([a, b])
  {
    TwoLines(a, b);
    FileLinesOfTerminated([a, b]);
  }

  /** A rejected first line leaves the empty dictionary for the second line. */
  lemma SkipThenOne(bad: string, good: string)
    requires ParseDailyLine(bad).None?
    ensures DailyScoresOf([bad, good]) == ApplyLine(Empty, good)
  {
    assert [bad, good][..1] == [bad];
    assert [bad][..0] == [];
    assert DailyScoresOf([bad]) == ApplyLine(Empty, bad);
  }

  /** The file holding the two lines a and b. */
  lemma TwoLines(a: string, b: string)
    ensures Terminated([a, b]) == a + "\n" + b + "\n"
  {
    assert [a, b][1..] == [b];
    assert [b][1..] == [];
    assert Terminated([b]) == b + "\n";
    assert Terminated([a, b]) == a + "\n" + (b + "\n");
  }

  /** The line "2024-01-01:40" after a rejected line loads as {"2024-01-01": 40}. */
  lemma BadLineThenNewYear(bad: string)
    requires '\n' !in bad && ParseDailyLine(bad).None?
    ensures LoadDailyScores(Some(bad + "\n" + "2024-01-01:40" + "\n")) == Put(Empty, "2024-01-01", 40)
  {
    NewYearLine();
    BadLineThenGoodLine(bad, ("2024-01-01", 40));
  }

  /** The line written for ("2024-01-01", 40), a date the file format can carry. */
  lemma NewYearLine()
    ensures EntryLine(("2024-01-01", 40)) == "2024-01-01:40"
    ensures ValidKey("2024-01-01")
  {
    assert IsIsoDate("2024-01-01");
    assert NatToString(40) == NatToString(4) + [DigitChar(0)];
    assert IntToString(40) == "40";
  }
}
