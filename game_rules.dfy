/**
 * The rules of the game engine of `PiGame`, as transitions on a snapshot of
 * its fields: starting and restarting a mode, returning to the menu, one
 * keystroke (`enter_digit`), the keyboard filter (`key_press`), and the score
 * bookkeeping at game over, which rewrites the score files it changes.
 *
 * The score files are part of the snapshot as their text (None when the file
 * does not exist); "today" is a parameter.
 */
module GameRules {
  import opened Wrappers
  import opened PiDigits
  import opened ScoreText
  import opened DailyScores

  /** `current_mode`. */
  datatype Mode = Menu | Practice | Real

  /**
   * The engine fields of a `PiGame` (its reference digits `pi_digits`
   * included), the text of its pi label, and its two score files.
   */
  datatype Game = Game(
    piDigits: string,
    userInput: string,
    gameActive: bool,
    wrongGuesses: int,
    showHint: bool,
    mode: Mode,
    display: string,
    highScore: int,
    dailyScores: Dict,
    highScoreFile: Option<string>,
    dailyScoresFile: Option<string>)

  /** What a keystroke reports through the feedback label or a message box. */
  datatype Outcome =
    | Ignored
    | ReachedEnd
    | NiceOne
    | BackToNormal
    | CorrectGuessesLeft(left: int)
    | Hint(correct: char, nextFive: string)
    | WrongTryAgain(left: int)
    | GameOver(score: int, newHighScore: bool, nextTen: string)

  const MaxWrongGuesses: int := 3
  const DisplayWidth: nat := 6
  const EndBanner: string := "You reached the end!"

  /** The digits typed so far are the first fractional digits of the reference. */
  predicate IsFractionPrefix(g: Game) {
    |g.userInput| + Offset <= |g.piDigits| && g.userInput == g.piDigits[Offset..Offset + |g.userInput|]
  }

  /** There is a next digit to type. */
  predicate DigitsLeft(g: Game) {
    |g.userInput| + Offset < |g.piDigits|
  }

  /** The digit the player must type next, as a one-character string. */
  function NextDigit(g: Game): (r: string)
    requires DigitsLeft(g)
    ensures |r| == 1
  {
    [g.piDigits[|g.userInput| + Offset]]
  }

  /** The score files load back to exactly the scores held in memory. */
  predicate Persisted(g: Game) {
    && LoadHighScore(g.highScoreFile) == g.highScore
    && LoadDailyScores(g.dailyScoresFile) == g.dailyScores
  }

  /**
   * What holds between any two calls: the reference holds 500 fractional
   * digits and the input is a prefix of them, there are at most three
   * strikes, a Real game is over at the third, and the files agree with memory.
   */
  predicate Invariant(g: Game) {
    && |g.piDigits| == Offset + FractionDigits
    && IsFractionPrefix(g)
    && g.wrongGuesses >= 0
    && g.wrongGuesses <= MaxWrongGuesses
    && (g.mode == Real && g.wrongGuesses == MaxWrongGuesses ==> !g.gameActive)
    && Persisted(g)
  }

  // ---------------------------------------------------------------- states between games

  /** The state `__init__` leaves: scores loaded from the two files, main menu shown. */
  function Loaded(highScoreFile: Option<string>, dailyScoresFile: Option<string>): (g: Game)
    ensures Invariant(g)
  {
    PiShape();
    Game(Pi, "", true, 0, false, Menu, "",
         LoadHighScore(highScoreFile), LoadDailyScores(dailyScoresFile),
         highScoreFile, dailyScoresFile)
  }

  /** `start_practice`; it leaves `wrong_guesses` as it was. */
  function StartPractice(g: Game): Game {
    g.(userInput := "", gameActive := true, showHint := false, mode := Practice, display := "3.")
  }

  /** `start_real_game`; it leaves `show_hint` as it was. */
  function StartRealGame(g: Game): Game {
    g.(userInput := "", gameActive := true, wrongGuesses := 0, mode := Real, display := "3.")
  }

  /** `restart_practice`. */
  function RestartPractice(g: Game): Game {
    g.(userInput := "", gameActive := true, showHint := false, mode := Practice, display := "3.")
  }

  /** `create_main_menu`, `show_instructions` and `show_progress` all set the mode to "menu". */
  function ToMenu(g: Game): Game {
    g.(mode := Menu)
  }

  /** Every transition between games keeps the invariant. */
  lemma ModeChangesKeepInvariant(g: Game)
    requires Invariant(g)
    ensures Invariant(StartPractice(g)) && Invariant(StartRealGame(g))
    ensures Invariant(RestartPractice(g)) && Invariant(ToMenu(g))
  {
  }

  // ---------------------------------------------------------------- score bookkeeping

  /** The game-over test for the day's entry: no entry yet, or a strictly better score. */
  predicate DailyImproves(d: Dict, today: string, score: int) {
    Get(d, today).None? || score > Get(d, today).value
  }

  /** The day's best after a game: written only when `DailyImproves`. */
  function RecordDaily(d: Dict, today: string, score: int): (r: Dict)
    ensures Get(r, today).Some? && Get(r, today).value >= score
    ensures Get(d, today).None? ==> Get(r, today) == Some(score)
    ensures Get(d, today).Some? ==> Get(r, today).value >= Get(d, today).value
    ensures forall k :: k != today ==> Get(r, k) == Get(d, k)
    ensures r == d <==> !DailyImproves(d, today, score)
    ensures ValidKeys(d) && ValidKey(today) ==> ValidKeys(r)
  {
    if DailyImproves(d, today, score) then Put(d, today, score) else d
  }

  /** The all-time best after a game: the larger of the old best and the score. */
  function RecordHigh(high: int, score: int): (r: int)
    ensures r >= high && r >= score
    ensures r == high || r == score
  {
    if score > high then score else high
  }

  /** The day's entry after a game, and its file rewritten when the entry changed. */
  function RecordDayBest(g: Game, today: string, score: int): (r: Game)
    ensures r.dailyScores == RecordDaily(g.dailyScores, today, score)
    ensures r.dailyScoresFile != g.dailyScoresFile ==> DailyImproves(g.dailyScores, today, score)
    ensures DailyImproves(g.dailyScores, today, score) ==> r.dailyScoresFile == Some(DailyScoresText(r.dailyScores))
    ensures r.(dailyScores := g.dailyScores, dailyScoresFile := g.dailyScoresFile) == g
  {
    if DailyImproves(g.dailyScores, today, score)
    then
      var daily := Put(g.dailyScores, today, score);
      g.(dailyScores := daily, dailyScoresFile := Some(DailyScoresText(daily)))
    else g
  }

  /** The all-time best after a game, and its file rewritten when it changed. */
  function RecordAllTimeBest(g: Game, score: int): (r: Game)
    ensures r.highScore == RecordHigh(g.highScore, score)
    ensures r.highScoreFile != g.highScoreFile ==> score > g.highScore
    ensures score > g.highScore ==> r.highScoreFile == Some(HighScoreText(score))
    ensures r.(highScore := g.highScore, highScoreFile := g.highScoreFile) == g
  {
    if score > g.highScore
    then g.(highScore := score, highScoreFile := Some(HighScoreText(score)))
    else g
  }

  /**
   * The game-over bookkeeping: the day's entry and the high score are each
   * replaced only by a strictly greater score, and each file is rewritten
   * exactly when its score changed.
   */
  function RecordScore(g: Game, today: string, score: int): (r: Game)
    ensures r.highScore == RecordHigh(g.highScore, score)
    ensures r.dailyScores == RecordDaily(g.dailyScores, today, score)
    ensures r.highScoreFile != g.highScoreFile ==> score > g.highScore
    ensures r.dailyScoresFile != g.dailyScoresFile ==> DailyImproves(g.dailyScores, today, score)
    ensures r.(highScore := g.highScore, dailyScores := g.dailyScores,
               highScoreFile := g.highScoreFile, dailyScoresFile := g.dailyScoresFile) == g
  {
    RecordAllTimeBest(RecordDayBest(g, today, score), score)
  }

  /** Recording keeps the files in agreement with memory, for a date the file can carry. */
  lemma RecordScorePersists(g: Game, today: string, score: int)
    requires Persisted(g) && ValidKey(today)
    ensures Persisted(RecordScore(g, today, score))
  {
    DayBestPersists(g, today, score);
    AllTimeBestPersists(RecordDayBest(g, today, score), score);
  }

  /** The daily update keeps the files in agreement with memory. */
  lemma DayBestPersists(g: Game, today: string, score: int)
    requires Persisted(g) && ValidKey(today)
    ensures Persisted(RecordDayBest(g, today, score))
  {
    var r := RecordDayBest(g, today, score);
    assert r.highScore == g.highScore && r.highScoreFile == g.highScoreFile;
    if DailyImproves(g.dailyScores, today, score) {
      assert ValidKeys(g.dailyScores);
      DailyScoresRoundTrip(r.dailyScores);
    } else {
      assert r == g;
    }
  }

  /** The all-time update keeps the files in agreement with memory. */
  lemma AllTimeBestPersists(g: Game, score: int)
    requires Persisted(g)
    ensures Persisted(RecordAllTimeBest(g, score))
  {
    var r := RecordAllTimeBest(g, score);
    assert r.dailyScores == g.dailyScores && r.dailyScoresFile == g.dailyScoresFile;
    if score > g.highScore {
      HighScoreRoundTrip(score);
    } else {
      assert r == g;
    }
  }

  /** Playing again with a score that beats neither best changes nothing, files included. */
  lemma ReplayChangesNothing(g: Game, today: string, score: int)
    requires Get(g.dailyScores, today).Some? && score <= Get(g.dailyScores, today).value
    requires score <= g.highScore
    ensures RecordScore(g, today, score) == g
  {
  }

  // ---------------------------------------------------------------- one keystroke

  /** The label text: "3." and the input, cut to its last six characters (`s[-6:]`). */
  function Window(s: string): (r: string)
    ensures |r| == Min(DisplayWidth, |s|)
    ensures r == s[|s| - |r|..]
  {
    if |s| <= DisplayWidth then s else Tail(s, DisplayWidth)
  }

  /**
   * `enter_digit(digit, practice)`. In order: an inactive Real game ignores
   * input; at the end of the digits any input ends the game; a correct digit
   * is appended; a wrong one shows a hint (Practice) or is a strike (Real),
   * and the third strike ends the game and records the score.
   */
  function Step(g: Game, digit: string, practice: bool, today: string): (Game, Outcome) {
    if !g.gameActive && !practice then (g, Ignored)
    else if |g.userInput| + Offset >= |g.piDigits| then
      (g.(display := EndBanner, gameActive := false), ReachedEnd)
    else if digit == [g.piDigits[|g.userInput| + Offset]] then Accept(g, digit, practice)
    else if practice then ShowHint(g)
    else Strike(g, today)
  }

  /**
   * The label after a correct digit. The source tests the length of the
   * text before the digit was added against 5, which is the same as testing
   * the new text against 6.
   */
  function AcceptDisplay(u: string, digit: string): (r: string)
    requires |digit| == 1
    ensures r == Window("3." + u + digit)
  {
    var full := "3." + u;
    var next := "3." + (u + digit);
    assert next == "3." + u + digit;
    if |full| <= 5 then next else Tail(next, DisplayWidth)
  }

  /** A correct digit: appended in both modes; in Practice it also clears the hint. */
  function Accept(g: Game, digit: string, practice: bool): (r: (Game, Outcome))
    requires |digit| == 1
    ensures r.0.userInput == g.userInput + digit
    ensures r.0.display == Window("3." + r.0.userInput)
    ensures r.0.gameActive == g.gameActive && r.0.wrongGuesses == g.wrongGuesses && r.0.mode == g.mode
    ensures r.0.showHint == (g.showHint && !practice)
    ensures r.0.(userInput := g.userInput, display := g.display, showHint := g.showHint) == g
    ensures !practice ==> r.1 == CorrectGuessesLeft(MaxWrongGuesses - g.wrongGuesses)
    ensures practice ==> r.1 == (if g.showHint then BackToNormal else NiceOne)
  {
    var g1 := g.(userInput := g.userInput + digit, display := AcceptDisplay(g.userInput, digit));
    if !practice then (g1, CorrectGuessesLeft(MaxWrongGuesses - g.wrongGuesses))
    else if g.showHint then (g1.(showHint := false), BackToNormal)
    else (g1, NiceOne)
  }

  /** A wrong digit in Practice: the hint names the expected digit and the next (up to) five. */
  function ShowHint(g: Game): (r: (Game, Outcome))
    requires DigitsLeft(g)
    ensures r.0 == g.(display := Window("3." + g.userInput), showHint := true)
    ensures r.1.Hint? && r.1.correct == g.piDigits[|g.userInput| + Offset]
    ensures 1 <= |r.1.nextFive| <= 5 && r.1.nextFive[0] == r.1.correct
    ensures r.1.nextFive == g.piDigits[|g.userInput| + Offset..Min(|g.userInput| + Offset + 5, |g.piDigits|)]
  {
    var nextIndex := |g.userInput| + Offset;
    (g.(display := Window("3." + g.userInput), showHint := true),
     Hint(g.piDigits[nextIndex], Slice(g.piDigits, nextIndex, nextIndex + 5)))
  }

  /** A wrong digit in a Real game: one more strike; the third ends the game. */
  function Strike(g: Game, today: string): (r: (Game, Outcome))
    requires DigitsLeft(g)
    ensures r.0.wrongGuesses == g.wrongGuesses + 1
    ensures r.0.userInput == g.userInput && r.0.showHint == g.showHint && r.0.mode == g.mode
    ensures r.0.gameActive == (g.gameActive && r.0.wrongGuesses < MaxWrongGuesses)
    ensures r.0.wrongGuesses < MaxWrongGuesses ==>
      r == (g.(wrongGuesses := r.0.wrongGuesses, display := Window("3." + g.userInput)),
            WrongTryAgain(MaxWrongGuesses - r.0.wrongGuesses))
    ensures r.0.wrongGuesses >= MaxWrongGuesses ==> r == EndOfGame(g.(wrongGuesses := r.0.wrongGuesses), today)
  {
    var wrong := g.wrongGuesses + 1;
    if wrong < MaxWrongGuesses then
      (g.(wrongGuesses := wrong, display := Window("3." + g.userInput)), WrongTryAgain(MaxWrongGuesses - wrong))
    else
      EndOfGame(g.(wrongGuesses := wrong), today)
  }

  /** The two outcomes of a strike, each as the state it leaves. */
  lemma StrikeCases(g: Game, today: string)
    requires DigitsLeft(g)
    ensures g.wrongGuesses + 1 < MaxWrongGuesses ==>
      Strike(g, today) == (g.(wrongGuesses := g.wrongGuesses + 1, display := Window("3." + g.userInput)),
                           WrongTryAgain(MaxWrongGuesses - (g.wrongGuesses + 1)))
    ensures g.wrongGuesses + 1 >= MaxWrongGuesses ==>
      Strike(g, today) == EndOfGame(g.(wrongGuesses := g.wrongGuesses + 1), today)
  {
  }

  /** The third strike: the game stops, the score is recorded, and the next ten digits are shown. */
  function EndOfGame(g: Game, today: string): (r: (Game, Outcome))
    requires DigitsLeft(g)
    ensures r.0 == RecordScore(g.(gameActive := false), today, |g.userInput|)
    ensures r.1.GameOver? && r.1.score == |g.userInput| && r.1.newHighScore == (r.1.score > g.highScore)
    ensures 1 <= |r.1.nextTen| <= 10 && r.1.nextTen[0] == g.piDigits[|g.userInput| + Offset]
    ensures r.1.nextTen == g.piDigits[|g.userInput| + Offset..Min(|g.userInput| + Offset + 10, |g.piDigits|)]
  {
    var nextIndex := |g.userInput| + Offset;
    var score := |g.userInput|;
    (RecordScore(g.(gameActive := false), today, score),
     GameOver(score, score > g.highScore, Slice(g.piDigits, nextIndex, nextIndex + 10)))
  }

  lemma AcceptKeepsInvariant(g: Game, practice: bool)
    requires Invariant(g) && DigitsLeft(g)
    ensures Invariant(Accept(g, NextDigit(g), practice).0)
  {
    PrefixGrows(g.piDigits, Offset, g.userInput);
  }

  /** A slice of s that starts at o grows by the next element of s. */
  lemma PrefixGrows(s: string, o: nat, u: string)
    requires o + |u| < |s| && u == s[o..o + |u|]
    ensures u + [s[o + |u|]] == s[o..o + |u| + 1]
  {
  }

  lemma ShowHintKeepsInvariant(g: Game)
    requires Invariant(g) && DigitsLeft(g)
    ensures Invariant(ShowHint(g).0)
  {
  }

  lemma StrikeKeepsInvariant(g: Game, today: string)
    requires Invariant(g) && DigitsLeft(g) && IsIsoDate(today)
    requires g.gameActive && g.mode == Real
    ensures Invariant(Strike(g, today).0)
  {
    if g.wrongGuesses + 1 < MaxWrongGuesses {
      StrikeAgainKeepsInvariant(g, today);
    } else {
      StrikeOutKeepsInvariant(g, today);
    }
  }

  lemma StrikeOutKeepsInvariant(g: Game, today: string)
    requires Invariant(g) && DigitsLeft(g) && IsIsoDate(today)
    requires g.gameActive && g.mode == Real && g.wrongGuesses + 1 >= MaxWrongGuesses
    ensures Invariant(Strike(g, today).0)
  {
    var over := g.(wrongGuesses := g.wrongGuesses + 1, gameActive := false);
    assert Invariant(over);
    RecordScoreKeepsInvariant(over, today, |g.userInput|);
    assert Strike(g, today).0 == RecordScore(over, today, |g.userInput|);
  }

  lemma StrikeAgainKeepsInvariant(g: Game, today: string)
    requires Invariant(g) && DigitsLeft(g)
    requires g.wrongGuesses + 1 < MaxWrongGuesses
    ensures Invariant(Strike(g, today).0)
  {
  }

  /** The game-over bookkeeping keeps the invariant, for a date the file can carry. */
  lemma RecordScoreKeepsInvariant(g: Game, today: string, score: int)
    requires Invariant(g) && ValidKey(today)
    ensures Invariant(RecordScore(g, today, score))
  {
    RecordScorePersists(g, today, score);
    var r := RecordScore(g, today, score);
    assert r.piDigits == g.piDigits && r.userInput == g.userInput;
    assert r.wrongGuesses == g.wrongGuesses && r.mode == g.mode && r.gameActive == g.gameActive;
  }

  /** The expected digit is handled by `Accept`, in an active game or in Practice. */
  lemma StepOnNextDigit(g: Game, practice: bool, today: string)
    requires (g.gameActive || practice) && DigitsLeft(g)
    ensures Step(g, NextDigit(g), practice, today) == Accept(g, NextDigit(g), practice)
  {
  }

  /** A wrong digit in Practice is handled by `ShowHint`, whether or not the game is active. */
  lemma StepOnWrongDigitPractice(g: Game, digit: string, today: string)
    requires DigitsLeft(g) && digit != NextDigit(g)
    ensures Step(g, digit, true, today) == ShowHint(g)
  {
  }

  /** A wrong digit in an active Real game is handled by `Strike`. */
  lemma StepOnWrongDigitReal(g: Game, digit: string, today: string)
    requires g.gameActive && DigitsLeft(g) && digit != NextDigit(g)
    ensures Step(g, digit, false, today) == Strike(g, today)
  {
  }

  /** Once all the digits are typed, any call in an active game or in Practice ends the game. */
  lemma StepAtEnd(g: Game, digit: string, practice: bool, today: string)
    requires (g.gameActive || practice) && !DigitsLeft(g)
    ensures Step(g, digit, practice, today) == (g.(display := EndBanner, gameActive := false), ReachedEnd)
  {
  }

  /**
   * Every keystroke keeps the invariant. Calls with `practice` false come
   * only from the Real screen and from `key_press` in Real mode.
   */
  lemma StepKeepsInvariant(g: Game, digit: string, practice: bool, today: string)
    requires Invariant(g) && IsIsoDate(today)
    requires !practice ==> g.mode == Real
    ensures Invariant(Step(g, digit, practice, today).0)
  {
    var u := g.userInput;
    if !g.gameActive && !practice {
    } else if !DigitsLeft(g) {
      StepAtEnd(g, digit, practice, today);
    } else if digit == NextDigit(g) {
      StepOnNextDigit(g, practice, today);
      AcceptKeepsInvariant(g, practice);
    } else if practice {
      StepOnWrongDigitPractice(g, digit, today);
      ShowHintKeepsInvariant(g);
    } else {
      StepOnWrongDigitReal(g, digit, today);
      StrikeKeepsInvariant(g, today);
    }
  }

  /** Only the expected digit is ever appended, and nothing else changes the input. */
  lemma OnlyCorrectDigitAppends(g: Game, digit: string, practice: bool, today: string)
    ensures var g' := Step(g, digit, practice, today).0;
      || g'.userInput == g.userInput
      || (DigitsLeft(g) && digit == NextDigit(g)
          && g'.userInput == g.userInput + digit)
  {
    var u := g.userInput;
    if !g.gameActive && !practice {
    } else if !DigitsLeft(g) {
      StepAtEnd(g, digit, practice, today);
    } else if digit == NextDigit(g) {
      StepOnNextDigit(g, practice, today);
    } else if practice {
      StepOnWrongDigitPractice(g, digit, today);
    } else {
      StepOnWrongDigitReal(g, digit, today);
    }
  }

  /** Wrong digits at the same position all give the same hint. */
  lemma HintIsStable(g: Game, first: string, again: string, today: string)
    requires DigitsLeft(g)
    requires first != NextDigit(g) && again != NextDigit(g)
    ensures Step(Step(g, first, true, today).0, again, true, today).1 == Step(g, first, true, today).1
  {
    StepOnWrongDigitPractice(g, first, today);
    StepOnWrongDigitPractice(ShowHint(g).0, again, today);
  }

  /** An inactive Real game ignores every call; Practice does not look at `game_active`. */
  lemma InactiveRealGameIgnoresInput(g: Game, digit: string, today: string)
    requires !g.gameActive
    ensures Step(g, digit, false, today) == (g, Ignored)
  {
  }

  /**
   * The third strike ends the game with the number of digits typed as the
   * score; afterwards the day's entry and the high score are at least that
   * score, other dates are as they were, and the next (up to) ten digits are
   * revealed, starting with the expected one.
   */
  lemma ThirdStrikeRecordsScore(g: Game, digit: string, today: string)
    requires g.gameActive && g.wrongGuesses == MaxWrongGuesses - 1
    requires DigitsLeft(g) && digit != NextDigit(g)
    ensures var (g', out) := Step(g, digit, false, today);
      && !g'.gameActive && g'.wrongGuesses == MaxWrongGuesses
      && out.GameOver? && out.score == |g.userInput|
      && out.newHighScore == (out.score > g.highScore)
      && Get(g'.dailyScores, today).Some? && Get(g'.dailyScores, today).value >= out.score
      && g'.highScore >= out.score && g'.highScore >= g.highScore
      && (forall d :: d != today ==> Get(g'.dailyScores, d) == Get(g.dailyScores, d))
      && 1 <= |out.nextTen| <= 10 && [out.nextTen[0]] == NextDigit(g)
      && out.nextTen == g.piDigits[|g.userInput| + Offset..Min(|g.userInput| + Offset + 10, |g.piDigits|)]
  {
    StepOnWrongDigitReal(g, digit, today);
  }

  /** No score in `g'` is lower than the same score in `g`. */
  ghost predicate Ratchets(g: Game, g': Game) {
    && g'.highScore >= g.highScore
    && (forall d :: Get(g.dailyScores, d).Some? ==>
          Get(g'.dailyScores, d).Some? && Get(g'.dailyScores, d).value >= Get(g.dailyScores, d).value)
  }

  /** A strike lowers no score. */
  lemma StrikeRatchets(g: Game, today: string)
    requires DigitsLeft(g)
    ensures Ratchets(g, Strike(g, today).0)
  {
    StrikeCases(g, today);
    if g.wrongGuesses + 1 >= MaxWrongGuesses {
      var over := g.(wrongGuesses := g.wrongGuesses + 1);
      assert Strike(g, today).0 == RecordScore(over.(gameActive := false), today, |over.userInput|);
      RecordScoreRatchets(over.(gameActive := false), today, |over.userInput|);
    }
  }

  /** The game-over bookkeeping lowers no score. */
  lemma RecordScoreRatchets(g: Game, today: string, score: int)
    ensures Ratchets(g, RecordScore(g, today, score))
  {
    var r := RecordScore(g, today, score);
    forall d | Get(g.dailyScores, d).Some?
      ensures Get(r.dailyScores, d).Some? && Get(r.dailyScores, d).value >= Get(g.dailyScores, d).value
    {
      if d != today {
        assert Get(r.dailyScores, d) == Get(g.dailyScores, d);
      }
    }
  }

  /** Scores only ratchet upward, and only a Real game touches them or their files. */
  lemma ScoresOnlyRise(g: Game, digit: string, practice: bool, today: string)
    ensures var g' := Step(g, digit, practice, today).0;
      && Ratchets(g, g')
      && (practice ==> g'.highScore == g.highScore && g'.dailyScores == g.dailyScores
                       && g'.highScoreFile == g.highScoreFile && g'.dailyScoresFile == g.dailyScoresFile)
  {
    var u := g.userInput;
    if !g.gameActive && !practice {
    } else if !DigitsLeft(g) {
      StepAtEnd(g, digit, practice, today);
    } else if digit == NextDigit(g) {
      StepOnNextDigit(g, practice, today);
    } else if practice {
      StepOnWrongDigitPractice(g, digit, today);
    } else {
      StepOnWrongDigitReal(g, digit, today);
      StrikeRatchets(g, today);
    }
  }

  /** While a game goes on, the label shows the last six characters of "3." and the input. */
  lemma DisplayShowsLastSix(g: Game, digit: string, practice: bool, today: string)
    requires (g.gameActive || practice) && DigitsLeft(g)
    ensures var (g', out) := Step(g, digit, practice, today);
      !out.GameOver? ==> g'.display == Window("3." + g'.userInput)
  {
    if digit == NextDigit(g) {
      StepOnNextDigit(g, practice, today);
    } else if practice {
      StepOnWrongDigitPractice(g, digit, today);
    } else {
      StepOnWrongDigitReal(g, digit, today);
    }
  }

  // ---------------------------------------------------------------- the keyboard

  /** Python's `a in b` on strings: a occurs in b at some position. */
  predicate IsSubstring(a: string, b: string) {
    a <= b || (b != [] && IsSubstring(a, b[1..]))
  }

  /** a occurring at position i of b makes it a substring of b. */
  lemma {:induction false} SubstringAt(a: string, b: string, i: nat)
    requires i <= |b| && a <= b[i..]
    ensures IsSubstring(a, b)
    decreases i
  {
    if i > 0 {
      assert b[1..][i - 1..] == b[i..];
      SubstringAt(a, b[1..], i - 1);
    }
  }

  /** A non-empty substring's first character occurs in b. */
  lemma {:induction false} SubstringHead(a: string, b: string)
    requires IsSubstring(a, b) && a != []
    ensures a[0] in b
    decreases |b|
  {
    if !(a <= b) {
      SubstringHead(a, b[1..]);
      assert a[0] in b[1..];
      var k :| 0 <= k < |b[1..]| && b[1..][k] == a[0];
      assert b[k + 1] == a[0];
    }
  }

  const Digits: string := "0123456789"

  /** The keyboard filter of `key_press`: `event.char in "0123456789"`. */
  predicate PassesKeyFilter(ch: string) {
    IsSubstring(ch, Digits)
  }

  /** `key_press`: the filter, then routing by `current_mode`. */
  function KeyStep(g: Game, ch: string, today: string): (Game, Outcome) {
    if !PassesKeyFilter(ch) then (g, Ignored)
    else
      match g.mode
      case Practice => Step(g, ch, true, today)
      case Real => Step(g, ch, false, today)
      case Menu => (g, Ignored)
  }

  /** Every single digit passes the filter, and so does the empty string. */
  lemma KeyFilterAccepts(c: char)
    requires '0' <= c <= '9'
    ensures PassesKeyFilter([c]) && PassesKeyFilter("")
  {
    var i := c as int - '0' as int;
    assert Digits[i] == c by {
      assert forall k :: 0 <= k < 10 ==> Digits[k] as int == '0' as int + k;
    }
    SubstringAt([c], Digits, i);
  }

  /** A single character that is not a digit is filtered out. */
  lemma KeyFilterRejects(c: char)
    requires !('0' <= c <= '9')
    ensures !PassesKeyFilter([c])
  {
    if PassesKeyFilter([c]) {
      SubstringHead([c], Digits);
      assert false;
    }
  }

  /** In the menu no key changes anything. */
  lemma MenuIgnoresKeys(g: Game, ch: string, today: string)
    requires g.mode == Menu
    ensures KeyStep(g, ch, today) == (g, Ignored)
  {
  }

  /**
   * An empty key event passes the filter, never equals a digit, and so costs
   * a strike in an active Real game.
   */
  lemma EmptyKeyIsAStrike(g: Game, today: string)
    requires g.mode == Real && g.gameActive
    requires DigitsLeft(g)
    ensures KeyStep(g, "", today).0.wrongGuesses == g.wrongGuesses + 1
  {
    KeyFilterAccepts('0');
    StepOnWrongDigitReal(g, "", today);
  }

  /** `key_press` keeps the invariant. */
  lemma KeyStepKeepsInvariant(g: Game, ch: string, today: string)
    requires Invariant(g) && IsIsoDate(today)
    ensures Invariant(KeyStep(g, ch, today).0)
  {
    if PassesKeyFilter(ch) && g.mode != Menu {
      StepKeepsInvariant(g, ch, g.mode == Practice, today);
    }
  }
}
