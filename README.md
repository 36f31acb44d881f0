# Pi Memory Game engine in Dafny

This project models the game engine of the `PiGame` class of the Pi Memory
Game (`pi_game.py`).

The player types the fractional digits of pi, one at a time.
- Practice mode answers a wrong digit with the expected digit and the next five.
- A Real game counts wrong digits. The third one ends the game.
- At game over, the number of digits typed is the score. It is recorded as the day's best and as the all-time best, each only when it is strictly greater than the stored one.
- Both scores are kept in text files. `__init__` reads them back; corrupt content reads as 0 or is skipped line by line.

The model is in these modules:

- `PiDigits` (`pi_digits.dfy`): the reference string `pi_digits`. This is "3." followed by 500 fractional digits. The module also has Python's forward slice `s[lo:hi]` and tail slice `s[-n:]`.
- `ScoreText` (`score_text.dfy`): the text primitives the score files use.
  - `str.strip()`, `str.split(sep)`, the lines of a file, `int(s)` and `str(i)`. `strip()` and `int()` skip different whitespace: `int()` keeps the separators 0x1C to 0x1F and rejects them.
  - The high-score file: its loader and writer, with their round trip.
- `DailyScores` (`daily_scores.dfy`): the `daily_scores` dictionary.
  - It keeps Python's insertion order.
  - The loader loop of `__init__` is a method proved against a function.
  - So is the writing loop of `save_daily_scores`.
  - Loading what was saved gives back the same dictionary, order included.
- `GameRules` (`game_rules.dfy`): the engine fields as a value (`Game`) and each operation as a transition on it.
  - The operations: `start_practice`, `start_real_game`, `restart_practice`, the return to the menu, `enter_digit` (`Step`), `key_press` (`KeyStep`) and the game-over bookkeeping.
  - The score files are part of the state as their text.
  - Invariant: the input is a prefix of the fractional digits; there are at most three strikes in every mode, and a Real game is over at the third; the files load back to the scores in memory.
  - Every transition keeps the invariant.
- `Progress` (`progress.dfy`): the data `show_progress` shows. This is the entries sorted in descending order, as `sorted(..., reverse=True)` sorts pairs, and the best day as `max(..., key=score, default=("N/A", 0))` picks it.
- `PiGameEngine` (`pi_game.dfy`): the class `PiGame`. Its fields are updated in place by methods that follow the source methods step by step. Each method's postcondition gives the new state as the matching `GameRules` transition of the old state, and the methods that need it keep `Valid()`.
- `Scenarios` (`scenarios.dfy`): sessions as sequences of key presses, worked through whole games. The invariant and the high score hold over any session.

Files and "today" are parameters. A file is `Option<string>`, where `None` means the file does not exist. A date is a string, and the game uses one in `YYYY-MM-DD` form.

Notes on the source's resets (pi_game.py:261-266, 306-311 and 429-434):
- `start_practice` does not reset `wrong_guesses`.
- `start_real_game` does not reset `show_hint`.
- `restart_practice` always restarts Practice, whatever the mode was.
- `wrong_guesses` changes only at pi_game.py:310 (reset) and pi_game.py:395 (a strike). A strike needs `enter_digit` called with `practice=False`, which comes only from the Real screen's keypad (pi_game.py:335) and from `key_press` in Real mode (pi_game.py:426). So the count carried into Practice is at most three, and only "over at the third" is particular to Real games.

## Model

| member | source | states |
|---|---|---|
| PiDigits.PiShape | pi_game.py:29-35 | once its spaces are removed, `pi_digits` has 502 characters and starts with "3." |
| PiDigits.PiStart | pi_game.py:30 | the first eight fractional digits are 14159265 |
| PiDigits.FractionStart | pi_game.py:30 | the digit block starts with 14159265 |
| PiDigits.Slice | pi_game.py:389 | `s[lo:hi]` is clamped to the string and never fails: its length is `min(hi, len) - lo` when `lo < len`, it is empty when `lo >= len`, and its k-th character is `s[lo + k]` |
| PiDigits.Tail | pi_game.py:367 | `s[-n:]` has `min(n, len(s))` characters, the last ones of `s` |
| ScoreText.StripLeft | pi_game.py:50 | `lstrip` drops exactly the leading whitespace of the given set (that of `str.isspace()` for `strip()`, a narrower one for `int()`): the result is a suffix, starts with a non-space, and everything dropped is whitespace |
| ScoreText.StripRight | pi_game.py:50 | `rstrip` drops exactly the trailing whitespace of the given set |
| ScoreText.Strip | pi_game.py:50 | the stripped text has no whitespace of the given set at either end, and text without such outer whitespace is unchanged; with `StrSpaces` this is `str.strip()`, with `IntSpaces` what `int()` skips |
| ScoreText.StripIdempotent | pi_game.py:63 | stripping twice is stripping once |
| ScoreText.Join | pi_game.py:63 | `sep.join(parts)` starts with the first part |
| ScoreText.JoinTwo | pi_game.py:63 | two parts are joined with one separator between them |
| ScoreText.SplitOn | pi_game.py:63 | `split(sep)` gives at least one piece, no piece holds `sep`, and joining the pieces with `sep` gives the text back |
| ScoreText.SplitOnNoSeparator | pi_game.py:63 | text without the separator splits into itself alone |
| ScoreText.SplitOnFirstPiece | pi_game.py:63 | a separator-free piece followed by the separator is split off as the first piece |
| ScoreText.SplitOnJoin | pi_game.py:63 | splitting undoes joining when no piece holds the separator |
| ScoreText.FileLines | pi_game.py:61 | the lines read from a file hold no line break |
| ScoreText.TerminatedSnoc | pi_game.py:94-95 | writing one more line appends that line and "\n" to the file |
| ScoreText.SplitTerminated | pi_game.py:94-95 | splitting a file of terminated lines at "\n" gives the lines and one empty piece |
| ScoreText.FileLinesOfTerminated | pi_game.py:94-95 | reading back a file written line by line gives the same lines |
| ScoreText.DigitChar | pi_game.py:89 | the character of a decimal digit is a digit with that value |
| ScoreText.NatToString | pi_game.py:89 | `str(n)` for `n >= 0` is a non-empty digit string whose value is `n`, with no leading zero |
| ScoreText.IntToString | pi_game.py:95 | `str(i)` is non-empty, has no outer whitespace, and holds no ':' or line break |
| ScoreText.ParseDigits | pi_game.py:64 | a digit string parses exactly when it is non-empty and all digits, and then to its decimal value, leading zeros allowed |
| ScoreText.ParseInt | pi_game.py:50 | `int(s)` succeeds exactly when `s`, without the whitespace `int()` skips (that of `strip()` less 0x1C to 0x1F), is an optional sign and one or more digits, and its value is the digits' decimal value, negated after a "-" |
| ScoreText.ParseIntToString | pi_game.py:50 | `int(str(i)) == i` for every integer |
| ScoreText.ParseIntPadded | pi_game.py:50 | `int()` also accepts `str(i)` with whitespace it skips around it |
| ScoreText.ParseIntStrip | pi_game.py:50 | `int(s)` depends only on `s` with the whitespace `int()` skips removed |
| ScoreText.IntSkipsLessThanStrip | pi_game.py:50 | `int()` skips less whitespace than `strip()`: `int("\x1c5")` fails, while `int("\x1c5".strip())` is 5 |
| ScoreText.StripKeepsOut | pi_game.py:50 | `strip()` adds no character that was not in the text |
| ScoreText.StripPadded | pi_game.py:50 | stripping whitespace padding gives back the text it surrounds |
| ScoreText.StripLeftPadded | pi_game.py:50 | `lstrip` removes exactly a leading whitespace padding |
| ScoreText.StripRightPadded | pi_game.py:50 | `rstrip` removes exactly a trailing whitespace padding |
| ScoreText.LoadHighScore | pi_game.py:46-54 | a missing file loads as 0; otherwise the content is stripped with `strip()` and loads as its `int()` value, or as 0 when `int()` rejects it |
| ScoreText.HighScoreText | pi_game.py:87-89 | the text `save_high_score` writes parses back to the score |
| ScoreText.HighScoreRoundTrip | pi_game.py:87-89 | loading the high-score file after `save_high_score` gives back the same score |
| DailyScores.Get | pi_game.py:405 | a date has an entry exactly when it is a key, and the entry is its score |
| DailyScores.Put | pi_game.py:406 | `d[k] = v` sets `k` to `v` and leaves every other date alone; a present key keeps its place and a new key goes last |
| DailyScores.Items | pi_game.py:94 | `items()` lists every key once, in insertion order, with its score |
| DailyScores.IsIsoDate | pi_game.py:403 | a `YYYY-MM-DD` date is a key the file format can carry |
| DailyScores.ParseDailyLine | pi_game.py:63-64 | a kept line strips (with `strip()`) to a date, one ':' and a score `int()` accepts, with no other ':'; the date of a kept line is a key the file can carry |
| DailyScores.SplitInTwo | pi_game.py:63 | a text split at ':' into two pieces is the first piece, ':' and the second |
| DailyScores.WellFormedLineKept | pi_game.py:63-64 | conversely, every line of that shape is kept, with that date and score |
| DailyScores.EntryLineUnpadded | pi_game.py:95 | a written line has no outer whitespace, so `strip()` keeps it whole |
| DailyScores.EntryLineSplits | pi_game.py:95 | a written line splits at its one ':' into the date and the score text |
| DailyScores.EntryLine | pi_game.py:95 | the line `f"{date}:{score}"`: `EntryLineUnpadded`, `EntryLineSplits` and `LineRoundTrip` prove that the loader reads it back as the same entry |
| DailyScores.LineRoundTrip | pi_game.py:95 | the loader reads every line the saver writes back as the same (date, score) |
| DailyScores.ApplyLine | pi_game.py:62-66 | handling one more line keeps every key a date the file can carry |
| DailyScores.DailyScoresOf | pi_game.py:61-66 | the dictionary built from lines without line breaks has only keys the file can carry |
| DailyScores.LoadDailyScores | pi_game.py:56-66 | the loaded dictionary, empty for a missing file, has only keys the file can carry |
| DailyScores.ReadDailyScores | pi_game.py:58-66 | the loader loop, line by line, builds exactly `LoadDailyScores` of the file |
| DailyScores.LoadOneMore | pi_game.py:61-66 | proof step of `ReadDailyScores`: the first i+1 lines, cut to i, are the first i lines |
| DailyScores.MalformedLineSkipped | pi_game.py:65-66 | a rejected line, anywhere, leaves the result of all the other lines unchanged |
| DailyScores.LastLineSplit | pi_game.py:61 | the last line of a file is handled last |
| DailyScores.LoadOneLine | pi_game.py:61-66 | loading lines that end with one more line applies that line to what the earlier lines give |
| DailyScores.LoadedScoreIsLastLine | pi_game.py:64 | the loaded score of a date is that of the last kept line for it: later lines overwrite earlier ones |
| DailyScores.EntryLines | pi_game.py:94-95 | one written line per entry |
| DailyScores.EntryLinesSnoc | pi_game.py:94-95 | the lines of one more entry are the lines so far followed by its line |
| DailyScores.EntryLinesAppend | pi_game.py:94-95 | the lines of entries followed by one more entry are their lines followed by its line |
| DailyScores.ItemsTextSnoc | pi_game.py:94-95 | writing one more entry appends its line and "\n" |
| DailyScores.DailyScoresText | pi_game.py:92-95 | the text `save_daily_scores` writes: `WriteDailyScores` is proved to produce it and `DailyScoresRoundTrip` proves it loads back to the dictionary |
| DailyScores.WriteDailyScores | pi_game.py:92-95 | the writing loop produces exactly `DailyScoresText`, one `date:score` line per entry in insertion order |
| DailyScores.ItemsTextWhole | pi_game.py:94 | proof step of `WriteDailyScores`: the prefix of all the entries is all the entries |
| DailyScores.Prefix | pi_game.py:64 | the first n keys of a dictionary, in order, with their scores |
| DailyScores.ReadPrefix | pi_game.py:61-64 | reading back the first n written lines gives the first n keys with their scores |
| DailyScores.PrefixZero | pi_game.py:58 | proof step of `ReadEntryLines`: the empty prefix is the empty dictionary |
| DailyScores.PrefixWhole | pi_game.py:94 | proof step of `ReadEntryLines`: the prefix of all the keys is the whole dictionary |
| DailyScores.ReadEntryLines | pi_game.py:61-64 | reading back all the written lines gives the dictionary |
| DailyScores.AppendKey | pi_game.py:64 | assigning the next key to a prefix extends the prefix by that key |
| DailyScores.DailyScoresRoundTrip | pi_game.py:92-95 | loading the file `save_daily_scores` wrote gives back the same dictionary, insertion order included, when no date holds ':' or a line break or starts with whitespace |
| GameRules.NextDigit | pi_game.py:351 | the digit expected next is one character |
| GameRules.Loaded | pi_game.py:37-66 | the state after `__init__` satisfies the invariant: empty input, and files that load back to the loaded scores |
| GameRules.StartPractice | pi_game.py:261-266 | `start_practice`: empty input, active, no hint, Practice mode, label "3.", and `wrong_guesses` kept; `ModeChangesKeepInvariant` proves it keeps the invariant, and `PiGame.StartPractice` is proved to perform it |
| GameRules.StartRealGame | pi_game.py:306-311 | `start_real_game`: empty input, active, no strikes, Real mode, label "3.", and `show_hint` kept; `ModeChangesKeepInvariant` and `NewPlayerStartsFresh` carry its properties, and `PiGame.StartRealGame` is proved to perform it |
| GameRules.RestartPractice | pi_game.py:429-434 | `restart_practice`: back to the start of Practice from any mode; `ModeChangesKeepInvariant` proves it keeps the invariant, and `PiGame.RestartPractice` is proved to perform it |
| GameRules.ToMenu | pi_game.py:103-105 | the menu, instructions and progress screens set the mode to "menu" and nothing else; `ModeChangesKeepInvariant` and `MenuIgnoresKeys` carry its properties |
| GameRules.ModeChangesKeepInvariant | pi_game.py:261-266 | `start_practice`, `start_real_game`, `restart_practice` and the return to the menu all keep the invariant |
| GameRules.RecordDaily | pi_game.py:405-406 | after a game the day's entry exists and is at least the score; a new day gets the score, even 0; an existing entry never drops; other dates are untouched; the dictionary changes exactly when the score is new for the day or strictly greater |
| GameRules.RecordHigh | pi_game.py:409-410 | the high score becomes the larger of it and the score |
| GameRules.RecordDayBest | pi_game.py:405-407 | the day's best is updated by `RecordDaily`, and when it improved the daily file holds the new dictionary, and otherwise the file is unchanged |
| GameRules.RecordAllTimeBest | pi_game.py:409-412 | the high score is updated by `RecordHigh`, and its file holds the new score when the score is strictly greater, and is unchanged otherwise |
| GameRules.RecordScore | pi_game.py:402-412 | the game-over bookkeeping: both updates, each file changed only when its score changed, and nothing else changed |
| GameRules.RecordScorePersists | pi_game.py:404-412 | after the bookkeeping both files load back to the scores in memory |
| GameRules.DayBestPersists | pi_game.py:405-407 | after the daily update the daily file loads back to the dictionary |
| GameRules.AllTimeBestPersists | pi_game.py:409-412 | after the all-time update the high-score file loads back to the high score |
| GameRules.ReplayChangesNothing | pi_game.py:405-412 | a score that beats neither the day's entry nor the high score changes nothing, files included |
| GameRules.Window | pi_game.py:363-367 | the label is the last `min(6, len)` characters of "3." and the input |
| GameRules.AcceptDisplay | pi_game.py:371-375 | after a correct digit the label is the window on the new input; the source's test of the old length against 5 is the same rule |
| GameRules.Accept | pi_game.py:370-384 | a correct digit is appended and shown; Practice clears the hint flag and reports "back to normal" when it was set; a Real game reports the guesses left; nothing else changes |
| GameRules.ShowHint | pi_game.py:386-391 | a wrong digit in Practice leaves the input alone and sets the hint flag; the hint names the expected digit and the next up to five digits, starting with it |
| GameRules.Strike | pi_game.py:393-399 | a wrong digit in a Real game adds exactly one strike and keeps the input, hint flag and mode; below three the game goes on, shows the input again and reports the guesses left; at three it is `EndOfGame` of the state with the new count |
| GameRules.EndOfGame | pi_game.py:399-416 | the third strike ends the game: the score is the input length, the bookkeeping runs on the stopped game, the new-high flag is "score above the old high score", and the reveal is the next up to ten digits, `pi_digits[next_index:next_index + 10]`, starting with the expected one |
| GameRules.Step | pi_game.py:346-418 | `enter_digit`: its branches are stated by `InactiveRealGameIgnoresInput`, `StepAtEnd`, `StepOnNextDigit`, `StepOnWrongDigitPractice` and `StepOnWrongDigitReal`; `StepKeepsInvariant`, `OnlyCorrectDigitAppends` and `ScoresOnlyRise` hold on every input, and `PiGame.EnterDigit` is proved to perform it |
| GameRules.AcceptKeepsInvariant | pi_game.py:370-371 | appending the expected digit keeps the input a prefix of the fractional digits |
| GameRules.PrefixGrows | pi_game.py:370-371 | a prefix grows by the next element into the longer prefix |
| GameRules.ShowHintKeepsInvariant | pi_game.py:386-391 | a hint keeps the invariant |
| GameRules.StrikeKeepsInvariant | pi_game.py:393-412 | a strike in a Real game keeps the invariant, at most three strikes included |
| GameRules.StrikeOutKeepsInvariant | pi_game.py:399-412 | the third strike keeps the invariant |
| GameRules.StrikeAgainKeepsInvariant | pi_game.py:395-398 | a first or second strike keeps the invariant |
| GameRules.RecordScoreKeepsInvariant | pi_game.py:402-412 | the bookkeeping keeps the invariant for a date the file can carry |
| GameRules.StepOnNextDigit | pi_game.py:370 | the expected digit goes to the correct-digit branch in an active game or in Practice |
| GameRules.StepOnWrongDigitPractice | pi_game.py:386-391 | in Practice a wrong digit shows the hint even when the game is not active |
| GameRules.StepOnWrongDigitReal | pi_game.py:393-395 | in an active Real game a wrong digit is a strike |
| GameRules.StepAtEnd | pi_game.py:355-360 | once all 500 digits are typed, any call ends the game and changes nothing else, before any digit check, in both modes |
| GameRules.StepKeepsInvariant | pi_game.py:346-418 | every call of `enter_digit` the game makes keeps the invariant; a call with `practice=False` happens only in Real mode (pi_game.py:335, 426) |
| GameRules.OnlyCorrectDigitAppends | pi_game.py:370-371 | the input only ever grows by the expected digit |
| GameRules.HintIsStable | pi_game.py:389-390 | repeated wrong digits at the same position give the same hint |
| GameRules.InactiveRealGameIgnoresInput | pi_game.py:347-348 | a finished Real game ignores every call |
| GameRules.ThirdStrikeRecordsScore | pi_game.py:399-416 | the third strike ends the game with the input length as the score; afterwards the day's entry and the high score are at least the score, other dates are unchanged, and the reveal is the next up to ten digits, starting with the expected one |
| GameRules.StrikeRatchets | pi_game.py:393-412 | a strike lowers neither the high score nor any day's entry |
| GameRules.RecordScoreRatchets | pi_game.py:402-412 | the game-over bookkeeping lowers neither the high score nor any day's entry |
| GameRules.ScoresOnlyRise | pi_game.py:346-418 | no call lowers a score, and Practice changes neither the scores nor their files |
| GameRules.DisplayShowsLastSix | pi_game.py:363-376 | while a game goes on the label shows the last six characters of "3." and the input |
| GameRules.SubstringAt | pi_game.py:422 | text occurring at a position is a substring (`in`) |
| GameRules.SubstringHead | pi_game.py:422 | the first character of a substring occurs in the text |
| GameRules.KeyFilterAccepts | pi_game.py:422 | every digit key passes `event.char in "0123456789"`, and so does the empty string |
| GameRules.KeyFilterRejects | pi_game.py:422 | a single character that is not a digit is filtered out |
| GameRules.MenuIgnoresKeys | pi_game.py:421-426 | in menu mode no key changes anything |
| GameRules.EmptyKeyIsAStrike | pi_game.py:421-426 | an empty key event passes the filter and costs a strike in an active Real game |
| GameRules.KeyStep | pi_game.py:421-426 | `key_press`: the filter is stated by `KeyFilterAccepts` and `KeyFilterRejects`, the menu case by `MenuIgnoresKeys`, the game cases by `Step`; `KeyStepKeepsInvariant` holds on every key, and `PiGame.KeyPress` is proved to perform it |
| GameRules.KeyStepKeepsInvariant | pi_game.py:421-426 | `key_press` keeps the invariant |
| Progress.StrLtIrreflexive | pi_game.py:199 | no string sorts before itself |
| Progress.StrLtTransitive | pi_game.py:199 | string order is transitive |
| Progress.StrLtTotal | pi_game.py:199 | of two different strings one sorts before the other |
| Progress.StrLtAsymmetric | pi_game.py:199 | string order is asymmetric |
| Progress.EntryLtOrder | pi_game.py:199 | the order on (date, score) pairs is a strict total order |
| Progress.ConsSorted | pi_game.py:199 | an entry no smaller than any of a sorted list can go in front of it |
| Progress.InsertDescending | pi_game.py:199 | inserting into a descending list keeps it descending and adds exactly that entry |
| Progress.HeadStaysFirst | pi_game.py:199 | a head larger than the inserted entry stays first |
| Progress.SortDescending | pi_game.py:199 | `sorted(items, reverse=True)` is descending and a permutation of the items |
| Progress.HeadKeyIsNew | pi_game.py:199 | with distinct dates, the first date occurs nowhere in any reordering of the rest |
| Progress.DatesStrictlyDescending | pi_game.py:199 | in the listing of a dictionary each date is strictly after the next |
| Progress.BestIndex | pi_game.py:207 | `max(..., key=score)` picks an entry with the highest score, and no earlier entry has that score |
| Progress.BestDay | pi_game.py:207 | the best day is ("N/A", 0) when there are no entries, and otherwise the first entry, in order, whose score is the highest |
| Progress.BestDayFirst | pi_game.py:207 | of dates tied on the highest score, `max` keeps the one inserted first into the dictionary |
| Progress.ProgressView | pi_game.py:187-207 | an empty dictionary shows "no scores"; otherwise the listing is the items sorted in descending order, and the best day is `BestDay` of the items: the date stored first among those with the highest score, with that score |
| PiGameEngine.PiGame.constructor | pi_game.py:37-66 | `__init__` loads both files, reading the daily file with the loader loop, and leaves the valid state `Loaded` |
| PiGameEngine.PiGame.SaveHighScore | pi_game.py:87-89 | the high-score file becomes `str(high_score)` and loads back to the high score |
| PiGameEngine.PiGame.SaveDailyScores | pi_game.py:92-95 | the daily file becomes the written dictionary and loads back to it |
| PiGameEngine.PiGame.ShowMenu | pi_game.py:103-105 | the main menu and the instructions set the mode to "menu" and keep `Valid()` |
| PiGameEngine.PiGame.ShowProgress | pi_game.py:173-207 | the progress screen sets the mode to "menu" and shows `ProgressView` of the daily scores |
| PiGameEngine.PiGame.StartPractice | pi_game.py:261-266 | `start_practice` resets the input, the active flag and the hint flag, and keeps `Valid()` |
| PiGameEngine.PiGame.StartRealGame | pi_game.py:306-311 | `start_real_game` resets the input, the active flag and the strikes, and keeps `Valid()` |
| PiGameEngine.PiGame.RestartPractice | pi_game.py:429-434 | `restart_practice` returns to the start of Practice and keeps `Valid()` |
| PiGameEngine.PiGame.EnterDigit | pi_game.py:346-360 | `enter_digit` performs `Step` and keeps `Valid()`, when called as the game calls it: `practice=False` only in Real mode |
| PiGameEngine.PiGame.CheckDigit | pi_game.py:369-418 | the digit check performs `Step` once the game goes on |
| PiGameEngine.PiGame.TakeDigit | pi_game.py:370-384 | the correct-digit branch performs `Accept` |
| PiGameEngine.PiGame.GiveHint | pi_game.py:386-391 | the Practice wrong-digit branch performs `ShowHint` |
| PiGameEngine.PiGame.TakeStrike | pi_game.py:393-399 | the Real wrong-digit branch performs `Strike`: the new state and the outcome are its two parts |
| PiGameEngine.PiGame.TryAgain | pi_game.py:396-398 | a first or second strike only redraws the label, and reports the guesses left |
| PiGameEngine.PiGame.EndGame | pi_game.py:399-418 | the game-over block performs `EndOfGame` |
| PiGameEngine.PiGame.RecordGameScore | pi_game.py:402-412 | the game-over bookkeeping performs `RecordScore` |
| PiGameEngine.PiGame.RecordDayScore | pi_game.py:404-407 | the daily update performs `RecordDayBest` |
| PiGameEngine.PiGame.RecordHighScore | pi_game.py:408-412 | the all-time update performs `RecordAllTimeBest` |
| PiGameEngine.PiGame.KeyPress | pi_game.py:421-426 | `key_press` performs `KeyStep` and keeps `Valid()` |
| Scenarios.RunKeepsInvariant | pi_game.py:421-426 | no sequence of key presses breaks the invariant |
| Scenarios.RunHighScoreRises | pi_game.py:409-410 | the high score never goes down over a session |
| Scenarios.RunAppend | pi_game.py:421-426 | a session split in two runs the second part from where the first ended |
| Scenarios.RunFirst | pi_game.py:421-426 | proof step of the session lemmas: a session is its first key, then the rest |
| Scenarios.TypeCorrect | pi_game.py:370-376 | the expected digit typed in an active Real game is appended and shown |
| Scenarios.TypeWrong | pi_game.py:393-398 | a wrong digit typed in an active Real game is a strike |
| Scenarios.KeyPresses | pi_game.py:422 | one key press per character |
| Scenarios.KeyPressesAppend | pi_game.py:422 | the key presses of two texts are those of the first, then those of the second |
| Scenarios.NextOfPrefix | pi_game.py:370-371 | after a prefix of the digits, the next digit is the one that follows it |
| Scenarios.TypableRest | pi_game.py:370-371 | after the first of the next digits is typed, the rest can still be typed |
| Scenarios.TypedRest | pi_game.py:370-376 | typing the first digit and then the rest is typing all of them |
| Scenarios.TypeDigits | pi_game.py:370-376 | typing the next digits of pi appends them, shows the end of the input, and changes nothing else |
| Scenarios.TypeFirst | pi_game.py:370-376 | typing digits starts with typing the first one |
| Scenarios.KeyPressesFirst | pi_game.py:422 | proof step of `TypeFirst`: the key presses of a text start with the key of its first character |
| Scenarios.ThreeStrikes | pi_game.py:393-412 | three wrong digits in a Real game with no strikes end it and record the input length |
| Scenarios.ThreeKeys | pi_game.py:422 | proof step of `TypeThenMiss`: the keys of s followed by three c are the keys of s, then three c keys |
| Scenarios.TypeThenMiss | pi_game.py:346-418 | a Real game that types the next digits and then misses three times ends with the number of typed digits as its score |
| Scenarios.FirstScoreRecorded | pi_game.py:402-412 | with no scores yet, a positive score becomes both today's entry and the high score, and both files are written |
| Scenarios.OneEntryText | pi_game.py:94-95 | the file of a one-entry dictionary is that entry's line |
| Scenarios.NewPlayerStartsFresh | pi_game.py:306-311 | a Real game started after `__init__` found no score files starts on the digits of pi, with no scores |
| Scenarios.FirstGameOver | pi_game.py:402-412 | the end of a new player's first game on "1415926" and three misses: score 7, today's entry 7, high score 7, the high-score file "7" and the daily file of the one line for today |
| Scenarios.FirstRealGame | pi_game.py:402-412 | the game-over bookkeeping of a fresh Real game after "1415926" and three strikes gives `FirstGameOver` |
| Scenarios.FirstGameKeys | pi_game.py:346-426 | in a fresh Real game, the key presses "1415926000" end in `FirstGameOver`: score 7, today's entry 7, high score 7, both files written |
| Scenarios.NewPlayerFirstGame | pi_game.py:37-66 | a new player with no score files who starts a Real game and types "1415926000" ends in `FirstGameOver` |
| Scenarios.GameOverAfterSeven | pi_game.py:393-402 | the state after seven digits and three misses has the seven digits as input and three strikes |
| Scenarios.SevenText | pi_game.py:89 | proof step of `FirstRealGame`: `str(7)` is "7" |
| Scenarios.SevenTypable | pi_game.py:370 | a fresh Real game can take "1415926", after which 0 is a wrong digit |
| Scenarios.PracticeHintAfterOne | pi_game.py:370-391 | in Practice from the start, "1" is accepted and the wrong "9" keeps the input at "1", sets the hint flag, and names 4 with "41592" |
| Scenarios.FirstDigitAccepted | pi_game.py:370-381 | in Practice with no input, the 1 that pi starts with is appended |
| Scenarios.WrongDigitHints | pi_game.py:385-391 | in Practice after "1", the wrong 9 keeps the input, sets the hint flag, and names 4 with "41592" |
| Scenarios.HintAfterOne | pi_game.py:389-390 | on the digits of pi the hint at the second position is "41592" |
| Scenarios.BadLineThenGoodLine | pi_game.py:59-66 | a rejected line followed by a written entry line loads as that one entry |
| Scenarios.LoadTwoLines | pi_game.py:59-61 | a file of two lines is handled as those two lines |
| Scenarios.SkipThenOne | pi_game.py:65-66 | a rejected first line leaves the empty dictionary for the second |
| Scenarios.BadLineThenNewYear | pi_game.py:59-66 | a bad line, then "2024-01-01:40", loads as {"2024-01-01": 40} |
| Scenarios.NewYearLine | pi_game.py:95 | the line written for ("2024-01-01", 40) is "2024-01-01:40" |

## Left out

- Tkinter, with its widgets, layout, colours, focus and key bindings (`create_main_menu`, `show_instructions`, `bind_keys`, `unbind_keys`, `clear_screen`, the `.config` calls): presentation only. Only the text of the pi label is modelled, as `display`. The feedback label and the message boxes are modelled as an `Outcome` value, not as their formatted text.
- `winsound.Beep` and `messagebox`: side effects on the operating system and the UI.
- `show_progress_graph` (matplotlib) and `export_scores` (pandas): foreign libraries and presentation only.
- The average score on the progress screen (pi_game.py:206): it is a floating-point division used only for display.
- File I/O, `os.path.exists` and `datetime.now()`: a file is an `Option<string>` and "today" is a parameter. Failed writes are not modelled.
- The debug `print` calls.
- ScoreText.ParseInt: models `int()` as the whitespace it skips, an optional sign and ASCII digits. Underscores between digits and non-ASCII digits are not accepted. The limit of 4300 digits that Python 3.11 and later put on `int()` of a decimal string is not modelled: longer digit strings parse here, where Python raises the ValueError caught at pi_game.py:51 and 65.
- DailyScores.ParseDailyLine: keeps a line whose score has more than 4300 digits, which Python 3.11 and later skips; see ScoreText.ParseInt.
- ScoreText.LoadHighScore: loads a score of more than 4300 digits, which Python 3.11 and later reads as 0; see ScoreText.ParseInt.
- ScoreText.FileLines: lines end only at "\n". Universal-newline translation of "\r" and "\r\n" is not modelled.
- PiDigits.PiShape: states the length and the "3." prefix of the reference string, not that each later character is a digit of pi. The string is the literal in the source.
- The file round trip holds for dates without ':' or a line break and not starting with whitespace (`ValidKey`). Today's date in `YYYY-MM-DD` form is such a date by `IsIsoDate`, and every key the loader keeps is one by the contract of `LoadDailyScores`, so the round trip also covers the keys `save_daily_scores` writes back after loading them.
- `restart_practice` needs the pi label to exist. The model does not track the label object, only its text.
