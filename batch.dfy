/**
 The per-line loop of `process_file` (main.py): every line of a score file
 is stripped, split on '-' and read as two point counts; one `TennisScore`,
 made once with the two player names, gets both counts overwritten and is
 asked for its score. A line that does not read as two counts gets an
 error line instead, and the loop goes on. Opening and reading the file and
 printing are not part of this model: the lines come in as a sequence and
 the printed lines go out as one.
 */
module Batch {

  import opened Options
  import opened Text
  import opened Tennis

  /**
   `map(int, line.strip().split('-'))` unpacked into two names: the two
   counts, or nothing where Python raises `ValueError` (not exactly two
   pieces, or a piece `int()` refuses).
   */
  function ParseScores(line: string): (r: Option<(nat, nat)>)
    ensures r.Some? ==> '-' in Strip(line)
  {
    var parts := Split(Strip(line), '-');
    JoinSplit(Strip(line), '-');
    if |parts| != 2 then None
    else
      match (ParseNat(parts[0]), ParseNat(parts[1]))
      case (Some(a), Some(b)) => Some((a, b))
      case _ => None
  }

  /** A line is read exactly when, once stripped, it is two runs of digits joined by one dash. */
  lemma ParseScoresIff(line: string)
    ensures ParseScores(line).Some? <==>
      exists x, y :: Strip(line) == x + "-" + y && IsDigits(x) && IsDigits(y)
    ensures ParseScores(line).Some? ==>
      exists x, y :: && Strip(line) == x + "-" + y && IsDigits(x) && IsDigits(y)
                     && ParseScores(line).value == (DigitsValue(x), DigitsValue(y))
  {
    var t := Strip(line);
    var parts := Split(t, '-');
    JoinSplit(t, '-');
    if ParseScores(line).Some? {
      assert t == parts[0] + "-" + parts[1];
    }
    forall x, y | t == x + "-" + y && IsDigits(x) && IsDigits(y)
      ensures ParseScores(line).Some?
    {
      ParseTwoTokens(x, y);
    }
  }

  /** Two runs of digits joined by a dash read back as their two values. */
  lemma ParseTwoTokens(x: string, y: string)
    requires IsDigits(x) && IsDigits(y)
    ensures Strip(x + "-" + y) == x + "-" + y
    ensures Split(x + "-" + y, '-') == [x, y]
    ensures ParseScores(x + "-" + y) == Some((DigitsValue(x), DigitsValue(y)))
  {
    var s := x + "-" + y;
    assert '-' !in x && '-' !in y;
    assert Join([x, y], '-') == s;
    SplitJoin([x, y], '-');
    assert s[0] == x[0] && s[|s| - 1] == y[|y| - 1];
    assert IsDigit(s[0]) && IsDigit(s[|s| - 1]);
    StripUnchanged(s);
  }

  /** The message `process_file` prints for a line it cannot read. */
  function InvalidInput(stripped: string): string
  {
    "Invalid input: " + stripped + ", Please provide scores in the format 'X-Y'"
  }

  /** The line `process_file` prints for one input line. */
  function LineOutput(line: string, name1: string, name2: string): (r: string)
  {
    match ParseScores(line)
    case Some((a, b)) => Strip(line) + " -> " + CurrentScore(a, b, name1, name2)
    case None => InvalidInput(Strip(line))
  }

  /**
   A line that, once stripped, is two runs of digits joined by a dash is
   echoed without its surrounding whitespace, with the score of those two counts.
   */
  lemma WellFormedLine(line: string, x: string, y: string, name1: string, name2: string)
    requires Strip(line) == x + "-" + y && IsDigits(x) && IsDigits(y)
    ensures LineOutput(line, name1, name2)
         == x + "-" + y + " -> " + CurrentScore(DigitsValue(x), DigitsValue(y), name1, name2)
  {
    ParseTwoTokens(x, y);
  }

  /** Any other line is reported as invalid input, echoed without its surrounding whitespace. */
  lemma MalformedLine(line: string, name1: string, name2: string)
    requires !exists x, y :: Strip(line) == x + "-" + y && IsDigits(x) && IsDigits(y)
    ensures LineOutput(line, name1, name2) == InvalidInput(Strip(line))
  {
    ParseScoresIff(line);
  }

  /** Each line of `lines` turned into one output line by `f`, in order. */
  function MapLines(lines: seq<string>, f: string -> string): seq<string>
  {
    if lines == [] then []
    else MapLines(lines[..|lines| - 1], f) + [f(lines[|lines| - 1])]
  }

  /** One output line per input line, in the same order, each depending on its own line only. */
  lemma {:induction false} MapLinesAt(lines: seq<string>, f: string -> string)
    ensures |MapLines(lines, f)| == |lines|
    ensures forall i :: 0 <= i < |lines| ==> MapLines(lines, f)[i] == f(lines[i])
  {
    if lines != [] {
      MapLinesAt(lines[..|lines| - 1], f);
    }
  }

  /** The per-line loop's outputs, line by line, are the output lines of `LineOutput`. */
  lemma LineOutputsAt(lines: seq<string>, name1: string, name2: string)
    ensures var output := MapLines(lines, line => LineOutput(line, name1, name2));
      && |output| == |lines|
      && forall i :: 0 <= i < |lines| ==> output[i] == LineOutput(lines[i], name1, name2)
  {
    MapLinesAt(lines, line => LineOutput(line, name1, name2));
  }

  /**
   `process_file` once the file is read: one `TennisScore` is reused for
   every line, and still each output line is the one its input line alone
   calls for.
   */
  method ProcessFile(lines: seq<string>, player1Name: string, player2Name: string)
    returns (output: seq<string>)
    ensures output == MapLines(lines, line => LineOutput(line, player1Name, player2Name))
    ensures |output| == |lines|
    ensures forall i :: 0 <= i < |lines| ==> output[i] == LineOutput(lines[i], player1Name, player2Name)
  {
    var display := new TennisScore(player1Name, player2Name);
    ghost var f := line => LineOutput(line, player1Name, player2Name);
    output := [];
    for i := 0 to |lines|
      invariant output == MapLines(lines[..i], f)
      invariant display.player1Name == player1Name && display.player2Name == player2Name
    {
      var line := lines[i];
      var shown: string;
      match ParseScores(line) {
        case Some((p1Score, p2Score)) =>
          display.player1Score := p1Score;
          display.player2Score := p2Score;
          shown := Strip(line) + " -> " + display.Display();
        case None =>
          shown := InvalidInput(Strip(line));
      }
      assert lines[..i + 1][..i] == lines[..i];
      assert shown == f(lines[i]);
      output := output + [shown];
    }
    assert lines[..|lines|] == lines;
    LineOutputsAt(lines, player1Name, player2Name);
  }

}
