/**
 The score evaluator of a single tennis game (main.py).

 The point labels of the `Score` enum, the three checks `is_deuce`,
 `is_advantage` and `is_win`, and `current_score`, the first-match-wins
 chain that turns two point counts and two player names into the text
 shown to the user. The checks and the chain only read the players' names
 and scores, so they are functions of those four values here; the class
 `TennisScore` holds them as mutable fields, as the program does.
 */
module Tennis {

  import opened Options

  /** The `Score` enum: the names of the point counts 0 to 3. */
  datatype PointLabel = Love | Fifteen | Thirty | Forty

  /** `TennisScore.WINNING_SCORE`. */
  const WinningScore: nat := 4

  /** The value the enum gives each label. */
  function PointsOf(l: PointLabel): nat
  {
    match l
    case Love => 0
    case Fifteen => 1
    case Thirty => 2
    case Forty => 3
  }

  /** `Score(points)`: the label whose value is `points`; there is none above 3. */
  function LabelFor(points: nat): (r: Option<PointLabel>)
    ensures r.Some? <==> points <= 3
    ensures r.Some? ==> PointsOf(r.value) == points
  {
    if points == 0 then Some(Love)
    else if points == 1 then Some(Fifteen)
    else if points == 2 then Some(Thirty)
    else if points == 3 then Some(Forty)
    else None
  }

  /** `Score(n).name.capitalize()`, as a fixed table. */
  function LabelText(l: PointLabel): (r: string)
    ensures |r| >= 4 && '-' !in r
    ensures r[0] == 'L' || r[0] == 'F' || r[0] == 'T'
  {
    match l
    case Love => "Love"
    case Fifteen => "Fifteen"
    case Thirty => "Thirty"
    case Forty => "Forty"
  }

  /** Python's `abs(a - b)`. */
  function Gap(a: nat, b: nat): nat
  {
    if a >= b then a - b else b - a
  }

  /** Python's `max(a, b)`. */
  function Max(a: nat, b: nat): nat
  {
    if a >= b then a else b
  }

  /** `is_deuce`: player 1 has at least three points and the scores are equal. */
  predicate IsDeuce(p1: nat, p2: nat)
    ensures IsDeuce(p1, p2) ==> p2 >= 3
  {
    p1 >= 3 && p1 == p2
  }

  /** `is_advantage`: someone has reached the winning score and the gap is one. */
  predicate IsAdvantage(p1: nat, p2: nat)
    ensures IsAdvantage(p1, p2) ==> p1 >= 3 && p2 >= 3
  {
    (p1 >= WinningScore || p2 >= WinningScore) && Gap(p1, p2) == 1
  }

  /**
   `is_win`, as written: true whenever the higher score is exactly the
   winning score, whatever the gap; otherwise a gap of exactly two above it.
   */
  predicate IsWin(p1: nat, p2: nat)
    ensures IsWin(p1, p2) ==> Max(p1, p2) >= WinningScore
    ensures IsWin(p1, p2) && !IsDeuce(p1, p2) && !IsAdvantage(p1, p2) ==> Gap(p1, p2) >= 2
  {
    if Max(p1, p2) == WinningScore then true
    else Max(p1, p2) >= WinningScore && Gap(p1, p2) == 2
  }

  /** The name of the player with more points; player 2 when they are level. */
  function Leader(p1: nat, p2: nat, name1: string, name2: string): string
  {
    if p1 > p2 then name1 else name2
  }

  /**
   `current_score`: the checks are tried in order and the first that holds
   decides. The first character of the text tells the branches apart.
   */
  function CurrentScore(p1: nat, p2: nat, name1: string, name2: string): (r: string)
    ensures |r| > 0
    ensures r[0] ==
      if IsDeuce(p1, p2) then 'D'
      else if IsAdvantage(p1, p2) then 'A'
      else if IsWin(p1, p2) then 'W'
      else if p1 < WinningScore && p2 < WinningScore then LabelText(LabelFor(p1).value)[0]
      else 'I'
  {
    if IsDeuce(p1, p2) then "Deuce"
    else if IsAdvantage(p1, p2) then "Advantage for " + Leader(p1, p2, name1, name2)
    else if IsWin(p1, p2) then "Win for " + Leader(p1, p2, name1, name2)
    else if p1 < WinningScore && p2 < WinningScore then
      if p1 == p2 then LabelText(LabelFor(p1).value) + "-All"
      else LabelText(LabelFor(p1).value) + "-" + LabelText(LabelFor(p2).value)
    else "Invalid Score"
  }

  /**
   `TennisScore`: two player names and two point counts. Callers assign the
   point counts directly between evaluations.
   */
  class TennisScore {
    var player1Name: string
    var player2Name: string
    var player1Score: nat
    var player2Score: nat

    constructor (firstPlayer: string := "Player 1", secondPlayer: string := "Player 2")
      ensures player1Name == firstPlayer && player2Name == secondPlayer
      ensures player1Score == 0 && player2Score == 0
    {
      player1Name := firstPlayer;
      player2Name := secondPlayer;
      player1Score := 0;
      player2Score := 0;
    }

    /**
     `current_score()` on this instance's fields: a real score exactly when
     nobody is past four points or the gap is at most two.
     */
    function Display(): (r: string)
      reads this
      ensures r == "Invalid Score" <==>
        Max(player1Score, player2Score) > WinningScore && Gap(player1Score, player2Score) > 2
    {
      CurrentScore(player1Score, player2Score, player1Name, player2Name)
    }
  }

}
