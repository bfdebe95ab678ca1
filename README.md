# Tennis score display, modelled in Dafny

The program shows the score of a single tennis game. It takes the two
players' point counts and names. A first-match-wins chain of checks turns
them into one of five kinds of text:
- "Deuce";
- "Advantage for <name>";
- "Win for <name>";
- the point names Love/Fifteen/Thirty/Forty, as "<Label>-All" or "<Label1>-<Label2>";
- "Invalid Score".

In batch mode the program reads a file of "X-Y" lines. It reuses one
`TennisScore` object, overwriting its two point counts for each line, and
prints one line per input line.

The model has five modules:

- `Options` (options.dfy): the `Option` type used for lookups and parses that can fail.
- `Tennis` (tennis.dfy): the `Score` enum as `PointLabel`, with its lookup
  table and labels. It also holds `is_deuce`, `is_advantage` and `is_win` as
  predicates over the two point counts, and `current_score` as
  `CurrentScore`. The class `TennisScore` has the four mutable fields of the
  source. Its `Display()` reads them and evaluates `CurrentScore`.
- `TennisProperties` (tennis_properties.dfy): what `current_score`
  promises. Each result kind is characterised by the point counts, in both
  directions. The output is also compared with a reference model of a real
  game (`Reachable`, `GameOver`). In that model points are played one at a
  time from 0-0, and no point is played once someone has at least four
  points and a lead of two. The evaluator gives "Invalid Score" for exactly
  the scores such a game never reaches. It gives a "Win" for exactly the
  reachable scores at which the game is over.
- `Text` (text.dfy): the parts of Python's string library the batch loop
  uses. `str.strip()` removes the whitespace characters of `str.isspace()`.
  `str.split('-')` is proved against its inverse, join, in both directions.
  `int()` accepts a non-empty run of ASCII digits, and reads back the
  decimal text of every count.
- `Batch` (batch.dfy): how one line is parsed and which line is printed for
  it. `ProcessFile` is the loop of `process_file`, over a sequence of lines,
  with one reused `TennisScore`.

Facts about the code that the model keeps as written:
- A win names the player with more points (main.py:111-112); at 5-3 that is player 1.
- The first clause of `is_win` is `max == 4` alone, whatever the other
  score (main.py:85-86).
- The docstring of `is_win` asks for a two-point lead (main.py:78-79), but
  the code does not. `IsWinBeyondGameOver` proves that `is_win` also holds
  at 4-3, 3-4 and 4-4. In `current_score`, the deuce and advantage checks
  come first and decide those scores, so the displayed text is still right.

## Model

| member | source | states |
|---|---|---|
| `Tennis.LabelFor` | main.py:19-26 | `Score(n)` finds a label exactly for n in 0..3, and that label's enum value is n. |
| `TennisProperties.LabelRoundTrip` | main.py:19-26 | Looking up a label's own value gives back that label. |
| `Tennis.LabelText` | main.py:118-120 | The capitalised name of a label is at least four letters long, contains no dash and starts with L, F or T. So "-All" and the dash between two labels can be told apart from the labels. |
| `Tennis.IsDeuce` | main.py:50-59 | When the deuce check holds, both players have at least 3 points. `DeuceIff` shows it decides "Deuce". |
| `Tennis.IsAdvantage` | main.py:61-73 | When the advantage check holds, both players have at least 3 points, as its docstring says, although the code only tests for 4 points and a gap of 1. `AdvantageIff` shows it decides "Advantage for". |
| `Tennis.IsWin` | main.py:75-90 | When the win check holds, someone has at least 4 points. If the deuce and advantage checks fail as well, the gap is at least 2, which is the docstring's two-point lead. `WinIff` and `IsWinBeyondGameOver` relate it to a finished game. |
| `Tennis.CurrentScore` | main.py:92-123 | The branch taken fixes the first character of the text: D, A, W, the first label's initial, or I. So no two branches give the same text. `DeuceIff`, `AdvantageIff`, `WinIff`, `PointNames` and `InvalidIff` characterise each branch in both directions. |
| `Tennis.TennisScore.constructor` | main.py:36-48 | A new `TennisScore` keeps the given names (default "Player 1"/"Player 2") and starts at 0-0. |
| `TennisProperties.NewGameLoveAll` | main.py:45-48 | A new game, at 0-0, is shown as "Love-All". |
| `Tennis.TennisScore.Display` | main.py:92-123 | An instance shows "Invalid Score" exactly when someone is past 4 points and the gap is more than 2. Otherwise its fields are a real score. |
| `TennisProperties.DeuceIff` | main.py:50-101 | The text is "Deuce" if and only if player 1 has at least 3 points and the scores are equal. |
| `TennisProperties.AdvantageIff` | main.py:61-107 | The text starts "Advantage for " if and only if someone has 4 or more points and the gap is 1. It then names the player ahead, and both players have at least 3 points. |
| `TennisProperties.WinIff` | main.py:75-113 | The text starts "Win for " if and only if the score is one a real game ends on. It then names a player with at least 4 points and a lead of at least 2 (4-0 and 5-3 are player 1, 4-6 is player 2). |
| `TennisProperties.PointNames` | main.py:115-120 | Below 4 points each, and short of 3-3, the labels are shown in player order, with "-All" for a tie. |
| `TennisProperties.NeverFortyAll` | main.py:99-120 | "Forty-All" is never shown, because 3-3 is a deuce. |
| `TennisProperties.InvalidIff` | main.py:99-123 | The text is "Invalid Score" exactly for the pairs a real game never reaches (for example 5-0, 1-5, 6-9, 7-4). All other pairs get a real score, so `current_score` is total. |
| `TennisProperties.Symmetry` | main.py:99-123 | Swapping the players' scores and names keeps the text in the Deuce, Advantage, Win and Invalid branches. It swaps the two labels of an unequal score below 4. |
| `TennisProperties.IsWinBeyondGameOver` | main.py:75-90 | `is_win` holds without a finished game exactly at 4-3, 3-4 and 4-4. At each of these the deuce or advantage check also holds, and that check comes first. |
| `Text.TrimStart` | main.py:136 | Removes exactly the leading whitespace. What is left is a suffix of the line that does not start with whitespace. |
| `Text.TrimEnd` | main.py:136 | Removes exactly the trailing whitespace. What is left is a prefix of the line that does not end with whitespace. |
| `Text.Strip` | main.py:136 | `strip()` gives a string that neither starts nor ends with whitespace, and never a longer one. |
| `Text.StripRun` | main.py:136 | What `strip()` keeps is one run of the line, with only whitespace before and after it. |
| `Text.StripUnchanged` | main.py:136 | `strip()` leaves alone a string whose two ends are not whitespace. |
| `Text.Split` | main.py:136 | `split('-')` gives at least one piece, and no piece contains the separator. |
| `Text.JoinSplit` | main.py:136 | Joining the pieces of a split with the separator gives back the string. |
| `Text.SplitJoin` | main.py:136 | Splitting pieces joined with a separator that none of them contains gives back the pieces. |
| `Text.ParseNat` | main.py:136 | `int()` on a token succeeds exactly when the token is a non-empty run of ASCII digits. |
| `Text.Decimal` | main.py:136 | The decimal text of a count is a run of digits with no leading zero. |
| `Text.ParseDecimal` | main.py:136 | `int()` reads every count back from its decimal text, so every count can be given in a score file. |
| `Batch.ParseScores` | main.py:136 | A line is read as two counts only if its stripped form contains a dash. `ParseScoresIff` gives the exact condition and the two values. |
| `Batch.ParseTwoTokens` | main.py:136 | Two runs of digits joined by a dash split into exactly those two pieces and parse as their two values. |
| `Batch.ParseScoresIff` | main.py:136 | A line is accepted exactly when, once stripped, it is two runs of digits joined by a single dash. The two counts are then their values, so they are never negative. |
| `Batch.WellFormedLine` | main.py:136-139 | A line whose stripped form is two runs of digits joined by a dash is echoed in that stripped form, then " -> ", then the score of the two counts. This characterises `LineOutput` on the lines that are read. |
| `Batch.MalformedLine` | main.py:140-141 | Any other line gets the "Invalid input: ..., Please provide scores in the format 'X-Y'" message, with the line in its stripped form. This characterises `LineOutput` on the other lines. |
| `Batch.LineOutput` | main.py:136-141 | The line printed for one input line. `WellFormedLine` and `MalformedLine` state it for the two kinds of line. |
| `Batch.LineOutputsAt` | main.py:134-141 | The per-line outputs of a file are, index by index, `LineOutput` of each line. |
| `Batch.MapLinesAt` | main.py:134-141 | The per-line loop gives one output per input line, in input order, and each output depends only on its own line. |
| `Batch.ProcessFile` | main.py:133-141 | The loop overwrites both scores of one reused `TennisScore` for each line. Still, output i is exactly the output for line i alone, and a bad line does not stop the loop. |

## Left out

- Opening and reading the file, printing, and the "File not found" path
  (main.py:130-133, 139, 141-143). `ProcessFile` takes the lines that
  `readlines()` would return and returns the lines that would be printed.
- The command line (main.py:146-167): argument parsing, the `.txt`
  dispatch, the default names and the single-score mode.
- `int()` leniency: whitespace around a token, a leading `+`, underscores
  between digits and non-ASCII digits are all rejected here. Python accepts
  them, so a line such as "3 - 2" is invalid input in this model.
  Python also raises `ValueError` on a token of more than 4300 digits, its
  default limit on decimal conversion. Here such a token is read as its value.
- The `.name.capitalize()` of the enum names is a fixed table of four
  labels (`LabelText`).
- `Batch.LineOutput` has no contract of its own. `WellFormedLine` and
  `MalformedLine` characterise it on both kinds of line.
- Point counts are `nat`. The program's own callers only store parsed,
  non-negative counts. The fields could be given a negative number from
  outside, and then `Score(n)` would raise. That case is not modelled.
- `is_deuce`, `is_advantage` and `is_win` are functions of the two point
  counts, not members of `TennisScore`. They only read the two score fields,
  and `Display()` reads the fields and applies them. So no check changes
  any field.
