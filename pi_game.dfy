/**
 * The `PiGame` object: its game fields, the text of its pi label, its two
 * scores, and the contents of the two score files (None when a file does not
 * exist). Every method changes the fields as the source method does, and
 * states the new state as the matching transition of `GameRules`; those
 * transitions carry the properties, and `Valid` is kept by every method.
 */
module PiGameEngine {
  import opened Wrappers
  import opened PiDigits
  import opened ScoreText
  import opened DailyScores
  import opened GameRules
  import opened Progress

  class PiGame {
    var piDigits: string
    var userInput: string
    var gameActive: bool
    var wrongGuesses: int
    var showHint: bool
    var mode: Mode
    var display: string
    var highScore: int
    var dailyScores: Dict
    var highScoreFile: Option<string>
    var dailyScoresFile: Option<string>

    /** The fields as a value. */
    function State(): Game
      reads this
    {
      Game(piDigits, userInput, gameActive, wrongGuesses, showHint, mode, display,
           highScore, dailyScores, highScoreFile, dailyScoresFile)
    }

    ghost predicate Valid()
      reads this
    {
      Invariant(State())
    }

    /** `__init__`: load both score files and show the main menu. */
    constructor(highScoreText: Option<string>, dailyScoresText: Option<string>)
      ensures State() == Loaded(highScoreText, dailyScoresText)
      ensures Valid()
    {
      var loaded := ReadDailyScores(dailyScoresText);
      piDigits := Pi;
      userInput := "";
      gameActive := true;
      wrongGuesses := 0;
      showHint := false;
      display := "";
      highScoreFile := highScoreText;
      highScore := LoadHighScore(highScoreText);
      dailyScoresFile := dailyScoresText;
      dailyScores := loaded;
      mode := Menu;
    }

    /** `save_high_score`: the file now holds the high score. */
    method SaveHighScore()
      modifies this
      ensures State() == old(State()).(highScoreFile := Some(HighScoreText(highScore)))
      ensures LoadHighScore(highScoreFile) == highScore
    {
      ghost var g := State();
      var text := HighScoreText(highScore);
      highScoreFile := Some(text);
      assert State() == g.(highScoreFile := Some(text));
      HighScoreRoundTrip(highScore);
    }

    /** `save_daily_scores`: the file now holds one line per entry. */
    method SaveDailyScores()
      modifies this
      ensures State() == old(State()).(dailyScoresFile := Some(DailyScoresText(dailyScores)))
      ensures ValidKeys(dailyScores) ==> LoadDailyScores(dailyScoresFile) == dailyScores
    {
      var text := WriteDailyScores(dailyScores);
      dailyScoresFile := Some(text);
      if ValidKeys(dailyScores) {
        DailyScoresRoundTrip(dailyScores);
      }
    }

    /** `create_main_menu` and `show_instructions`. */
    method ShowMenu()
      requires Valid()
      modifies this
      ensures State() == ToMenu(old(State()))
      ensures Valid()
    {
      mode := Menu;
      ModeChangesKeepInvariant(old(State()));
    }

    /** `show_progress`: back to menu mode, and the listing and best day of the daily scores. */
    method ShowProgress() returns (view: View)
      requires Valid()
      modifies this
      ensures State() == ToMenu(old(State()))
      ensures view == ProgressView(dailyScores)
      ensures Valid()
    {
      mode := Menu;
      ModeChangesKeepInvariant(old(State()));
      view := ProgressView(dailyScores);
    }

    /** `start_practice`: an empty input in Practice, hint off; `wrong_guesses` is left as it was. */
    method StartPractice()
      requires Valid()
      modifies this
      ensures State() == GameRules.StartPractice(old(State()))
      ensures Valid()
    {
      userInput := "";
      gameActive := true;
      showHint := false;
      mode := Practice;
      display := "3.";
      ModeChangesKeepInvariant(old(State()));
    }

    /** `start_real_game`: an empty input in a Real game with no strikes. */
    method StartRealGame()
      requires Valid()
      modifies this
      ensures State() == GameRules.StartRealGame(old(State()))
      ensures Valid()
    {
      userInput := "";
      gameActive := true;
      wrongGuesses := 0;
      mode := Real;
      display := "3.";
      ModeChangesKeepInvariant(old(State()));
    }

    /** `restart_practice`: Practice from an empty input again. */
    method RestartPractice()
      requires Valid()
      modifies this
      ensures State() == GameRules.RestartPractice(old(State()))
      ensures Valid()
    {
      userInput := "";
      gameActive := true;
      showHint := false;
      mode := Practice;
      display := "3.";
      ModeChangesKeepInvariant(old(State()));
    }

    /** `enter_digit(digit, practice)` on the day `today`. */
    method EnterDigit(digit: string, practice: bool, today: string) returns (outcome: Outcome)
      requires Valid() && IsIsoDate(today)
      requires !practice ==> mode == Real
      modifies this
      ensures (State(), outcome) == Step(old(State()), digit, practice, today)
      ensures Valid()
    {
      ghost var g := State();
      StepKeepsInvariant(g, digit, practice, today);
      if !gameActive && !practice {
        return Ignored;
      }
      var nextIndex := |userInput| + Offset;
      if nextIndex >= |piDigits| {
        StepAtEnd(g, digit, practice, today);
        display := EndBanner;
        gameActive := false;
        return ReachedEnd;
      }
      outcome := CheckDigit(digit, practice, today);
    }

    /** The digit check of `enter_digit`, once the game is known to go on. */
    method CheckDigit(digit: string, practice: bool, today: string) returns (outcome: Outcome)
      requires gameActive || practice
      requires |userInput| + Offset < |piDigits|
      modifies this
      ensures (State(), outcome) == Step(old(State()), digit, practice, today)
    {
      ghost var g := State();
      var nextIndex := |userInput| + Offset;
      if digit == [piDigits[nextIndex]] {
        assert digit == NextDigit(g);
        StepOnNextDigit(g, practice, today);
        outcome := TakeDigit(digit, practice);
        assert (State(), outcome) == Accept(g, digit, practice);
      } else if practice {
        StepOnWrongDigitPractice(g, digit, today);
        outcome := GiveHint();
        assert (State(), outcome) == ShowHint(g);
      } else {
        StepOnWrongDigitReal(g, digit, today);
        outcome := TakeStrike(today);
        assert (State(), outcome) == Strike(g, today);
      }
    }

    /** The correct-digit branch of `enter_digit`. */
    method TakeDigit(digit: string, practice: bool) returns (outcome: Outcome)
      requires |digit| == 1
      modifies this
      ensures (State(), outcome) == Accept(old(State()), digit, practice)
    {
      display := AcceptDisplay(userInput, digit);
      userInput := userInput + digit;
      if practice {
        if showHint {
          outcome := BackToNormal;
          showHint := false;
        } else {
          outcome := NiceOne;
        }
      } else {
        outcome := CorrectGuessesLeft(MaxWrongGuesses - wrongGuesses);
      }
    }

    /** The wrong-digit branch of `enter_digit` in Practice. */
    method GiveHint() returns (outcome: Outcome)
      requires |userInput| + Offset < |piDigits|
      modifies this
      ensures (State(), outcome) == ShowHint(old(State()))
    {
      var nextIndex := |userInput| + Offset;
      display := Window("3." + userInput);
      outcome := Hint(piDigits[nextIndex], Slice(piDigits, nextIndex, nextIndex + 5));
      showHint := true;
    }

    /** The wrong-digit branch of `enter_digit` in a Real game. */
    method TakeStrike(today: string) returns (outcome: Outcome)
      requires |userInput| + Offset < |piDigits|
      modifies this
      ensures State() == Strike(old(State()), today).0
      ensures outcome == Strike(old(State()), today).1
    {
      ghost var g := State();
      StrikeCases(g, today);
      wrongGuesses := wrongGuesses + 1;
      assert State() == g.(wrongGuesses := g.wrongGuesses + 1);
      if wrongGuesses < MaxWrongGuesses {
        outcome := TryAgain();
        assert State() == g.(wrongGuesses := g.wrongGuesses + 1, display := Window("3." + g.userInput));
      } else {
        outcome := EndGame(today);
      }
    }

    /** A first or second strike: the input is shown again with the guesses left. */
    method TryAgain() returns (outcome: Outcome)
      modifies this
      ensures State() == old(State()).(display := Window("3." + userInput))
      ensures outcome == WrongTryAgain(MaxWrongGuesses - wrongGuesses)
    {
      outcome := WrongTryAgain(MaxWrongGuesses - wrongGuesses);
      display := Window("3." + userInput);
    }

    /** The third strike: the game stops, the score is recorded, the next ten digits are shown. */
    method EndGame(today: string) returns (outcome: Outcome)
      requires |userInput| + Offset < |piDigits|
      modifies this
      ensures (State(), outcome) == EndOfGame(old(State()), today)
    {
      ghost var g := State();
      var nextIndex := |userInput| + Offset;
      gameActive := false;
      var score := |userInput|;
      var newHigh := score > highScore;
      ghost var over := State();
      assert over == g.(gameActive := false);
      RecordGameScore(today, score);
      outcome := GameOver(score, newHigh, Slice(piDigits, nextIndex, nextIndex + 10));
      assert State() == RecordScore(over, today, score);
    }

    /** The score bookkeeping at the end of a Real game. */
    method RecordGameScore(today: string, score: int)
      modifies this
      ensures State() == RecordScore(old(State()), today, score)
    {
      RecordDayScore(today, score);
      RecordHighScore(score);
    }

    /** A new best for the day replaces the day's entry and rewrites the daily file. */
    method RecordDayScore(today: string, score: int)
      modifies this
      ensures State() == RecordDayBest(old(State()), today, score)
    {
      var entry := Get(dailyScores, today);
      if entry.None? || score > entry.value {
        dailyScores := Put(dailyScores, today, score);
        SaveDailyScores();
      }
    }

    /** A new all-time best replaces the high score and rewrites its file. */
    method RecordHighScore(score: int)
      modifies this
      ensures State() == RecordAllTimeBest(old(State()), score)
    {
      ghost var g := State();
      if score > highScore {
        highScore := score;
        assert State() == g.(highScore := score);
        SaveHighScore();
        assert State() == g.(highScore := score, highScoreFile := Some(HighScoreText(score)));
      }
    }

    /** `key_press`: a key that passes the filter goes to `enter_digit` in a game mode. */
    method KeyPress(ch: string, today: string) returns (outcome: Outcome)
      requires Valid() && IsIsoDate(today)
      modifies this
      ensures (State(), outcome) == KeyStep(old(State()), ch, today)
      ensures Valid()
    {
      outcome := Ignored;
      if PassesKeyFilter(ch) {
        if mode == Practice {
          outcome := EnterDigit(ch, true, today);
        } else if mode == Real {
          outcome := EnterDigit(ch, false, today);
        }
      }
    }
  }
}
