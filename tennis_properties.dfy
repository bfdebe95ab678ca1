/**
 What `current_score` promises, proved of the model in module Tennis.

 Each branch of the decision chain is characterised by the point counts
 alone (both directions), and the whole chain is compared with a reference
 definition of a real tennis game: the points are played one at a time from
 0-0 and no point is played once someone has four points and a two-point
 lead. The evaluator names exactly the scores such a game can reach and
 answers "Invalid Score" for every other pair.
 */
module TennisProperties {

  import opened Options
  import opened Tennis

  /** A game is over once a player has at least four points and leads by at least two. */
  predicate GameOver(p1: nat, p2: nat)
  {
    Max(p1, p2) >= WinningScore && Gap(p1, p2) >= 2
  }

  /**
   The scores a real game can pass through: 0-0, and any score one point
   past a reachable score at which the game was not yet over.
   */
  predicate Reachable(p1: nat, p2: nat)
    decreases p1 + p2
  {
    || (p1 == 0 && p2 == 0)
    || (p1 > 0 && Reachable(p1 - 1, p2) && !GameOver(p1 - 1, p2))
    || (p2 > 0 && Reachable(p1, p2 - 1) && !GameOver(p1, p2 - 1))
  }

  /** Closed form of reachability: nobody is past four points, or the gap is at most two. */
  lemma {:induction false} ReachableIff(p1: nat, p2: nat)
    ensures Reachable(p1, p2) <==> Max(p1, p2) <= WinningScore || Gap(p1, p2) <= 2
    decreases p1 + p2
  {
    if p1 > 0 {
      ReachableIff(p1 - 1, p2);
    }
    if p2 > 0 {
      ReachableIff(p1, p2 - 1);
    }
  }

  /** The label table and the enum values are inverse to each other. */
  lemma LabelRoundTrip(l: PointLabel)
    ensures LabelFor(PointsOf(l)) == Some(l)
  {
  }

  /** A new game, at 0-0, is shown as "Love-All". */
  lemma NewGameLoveAll(name1: string, name2: string)
    ensures CurrentScore(0, 0, name1, name2) == "Love-All"
  {
  }

  /** "Deuce" is shown exactly when both players have the same score of three or more. */
  lemma DeuceIff(p1: nat, p2: nat, name1: string, name2: string)
    ensures CurrentScore(p1, p2, name1, name2) == "Deuce" <==> p1 >= 3 && p1 == p2
  {
  }

  /**
   An advantage is shown exactly when someone has four or more points and
   the gap is one; it names the player ahead, and the other has at least three.
   */
  lemma AdvantageIff(p1: nat, p2: nat, name1: string, name2: string)
    ensures "Advantage for " <= CurrentScore(p1, p2, name1, name2)
        <==> Max(p1, p2) >= WinningScore && Gap(p1, p2) == 1
    ensures Max(p1, p2) >= WinningScore && Gap(p1, p2) == 1 ==>
      && CurrentScore(p1, p2, name1, name2) == "Advantage for " + (if p1 > p2 then name1 else name2)
      && p1 >= 3 && p2 >= 3
  {
    var r := CurrentScore(p1, p2, name1, name2);
    if "Advantage for " <= r {
      assert r[0] == 'A';
    }
  }

  /**
   A win is shown exactly when the score is one a real game ends on; it
   names a player with at least four points and a lead of at least two.
   */
  lemma WinIff(p1: nat, p2: nat, name1: string, name2: string)
    ensures "Win for " <= CurrentScore(p1, p2, name1, name2)
        <==> Reachable(p1, p2) && GameOver(p1, p2)
    ensures "Win for " <= CurrentScore(p1, p2, name1, name2) ==>
      if p1 > p2
      then CurrentScore(p1, p2, name1, name2) == "Win for " + name1 && p1 >= 4 && p1 >= p2 + 2
      else CurrentScore(p1, p2, name1, name2) == "Win for " + name2 && p2 >= 4 && p2 >= p1 + 2
  {
    var r := CurrentScore(p1, p2, name1, name2);
    ReachableIff(p1, p2);
    if "Win for " <= r {
      assert r[0] == 'W';
    }
  }

  /**
   Below four points each, and short of deuce, the two labels are shown in
   player order, with "-All" for a tie.
   */
  lemma PointNames(l1: PointLabel, l2: PointLabel, name1: string, name2: string)
    requires !(l1 == Forty && l2 == Forty)
    ensures CurrentScore(PointsOf(l1), PointsOf(l2), name1, name2)
         == if l1 == l2 then LabelText(l1) + "-All" else LabelText(l1) + "-" + LabelText(l2)
  {
  }

  /** "Forty-All" is never shown: three all is a deuce. */
  lemma NeverFortyAll(p1: nat, p2: nat, name1: string, name2: string)
    ensures CurrentScore(p1, p2, name1, name2) != "Forty-All"
  {
  }

  /** "Invalid Score" is shown exactly for the scores no real game reaches. */
  lemma InvalidIff(p1: nat, p2: nat, name1: string, name2: string)
    ensures CurrentScore(p1, p2, name1, name2) == "Invalid Score" <==> !Reachable(p1, p2)
  {
    var r := CurrentScore(p1, p2, name1, name2);
    ReachableIff(p1, p2);
    if r == "Invalid Score" {
      assert r[0] == 'I';
    }
  }

  /**
   Swapping the players (scores and names) changes nothing, except that the
   two labels of an unequal score below four swap places.
   */
  lemma Symmetry(p1: nat, p2: nat, name1: string, name2: string)
    ensures !(p1 < WinningScore && p2 < WinningScore && p1 != p2) ==>
      CurrentScore(p2, p1, name2, name1) == CurrentScore(p1, p2, name1, name2)
    ensures p1 < WinningScore && p2 < WinningScore && p1 != p2 ==>
      var t1, t2 := LabelText(LabelFor(p1).value), LabelText(LabelFor(p2).value);
      && CurrentScore(p1, p2, name1, name2) == t1 + "-" + t2
      && CurrentScore(p2, p1, name2, name1) == t2 + "-" + t1
  {
  }

  /**
   `is_win` alone holds at 4-3, 3-4 and 4-4 although nobody has won; there
   the deuce or advantage check, tried first, decides instead.
   */
  lemma IsWinBeyondGameOver(p1: nat, p2: nat)
    ensures IsWin(p1, p2) && !GameOver(p1, p2) <==> (p1, p2) in {(4, 3), (3, 4), (4, 4)}
    ensures IsWin(p1, p2) && !GameOver(p1, p2) ==> IsDeuce(p1, p2) || IsAdvantage(p1, p2)
  {
  }

}
