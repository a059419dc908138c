/**
 * Round scoring and elimination.
 *
 * After a knock, the players tied at the lowest hand value lose one life,
 * the knocker two if it is among them; without a knock, every player not
 * holding 31 loses one life. Players left with no lives are then removed,
 * the others keeping their order.
 */
module Scoring {
  import opened Players

  /** A Java `int`. Hand values are of this type. */
  type Int32 = x: int | -0x8000_0000 <= x <= 0x7fff_ffff

  /** `Integer.MAX_VALUE`, the starting point of the search for the minimum. */
  const IntMax: Int32 := 0x7fff_ffff

  /** The hand value that ends a round at once. */
  const ThirtyOne: int := 31

  /** The lowest score, found by a scan starting from `Integer.MAX_VALUE`. */
  function MinScore(s: seq<Int32>): (m: Int32)
    ensures s == [] ==> m == IntMax
  {
    if s == [] then IntMax
    else
      var m := MinScore(s[..|s| - 1]);
      if s[|s| - 1] < m then s[|s| - 1] else m
  }

  /** The scan finds the minimum: no score is lower, and a non-empty list holds it. */
  lemma {:induction false} MinScoreIsMinimum(s: seq<Int32>)
    ensures forall i :: 0 <= i < |s| ==> MinScore(s) <= s[i]
    ensures s != [] ==> MinScore(s) in s
    decreases |s|
  {
    if s != [] {
      var n := |s| - 1;
      MinScoreIsMinimum(s[..n]);
      assert s == s[..n] + [s[n]];
    }
  }

  /** Extending the scan by one score. */
  lemma MinScoreAppend(s: seq<Int32>, x: Int32)
    ensures MinScore(s + [x]) == if x < MinScore(s) then x else MinScore(s)
  {
    assert (s + [x])[..|s|] == s;
  }

  /**
   * The players whose score equals `m`, in player order: the list of losers
   * the engine collects.
   */
  function Tied(ps: seq<Player>, scores: seq<Int32>, m: int): (r: seq<Player>)
    requires |ps| == |scores|
    ensures |r| <= |ps|
  {
    if ps == [] then []
    else
      var n := |ps| - 1;
      var r := Tied(ps[..n], scores[..n], m);
      if scores[n] == m then r + [ps[n]] else r
  }

  /** The losers are players, and every player scoring `m` is among them. */
  lemma {:induction false} TiedAreTheScorers(ps: seq<Player>, scores: seq<Int32>, m: int)
    requires |ps| == |scores|
    ensures forall i :: 0 <= i < |Tied(ps, scores, m)| ==> Tied(ps, scores, m)[i] in ps
    ensures forall i :: 0 <= i < |ps| && scores[i] == m ==> ps[i] in Tied(ps, scores, m)
    decreases |ps|
  {
    if ps != [] {
      var n := |ps| - 1;
      TiedAreTheScorers(ps[..n], scores[..n], m);
      assert forall i :: 0 <= i < n ==> ps[..n][i] == ps[i] && scores[..n][i] == scores[i];
    }
  }

  /**
   * When the players' hands are distinct, so are the losers', and a player
   * is among the losers exactly when it scores `m`.
   */
  lemma {:induction false} TiedSelectsScore(ps: seq<Player>, scores: seq<Int32>, m: int)
    requires |ps| == |scores| && HandsDistinct(ps)
    ensures HandsDistinct(Tied(ps, scores, m))
    ensures forall i :: 0 <= i < |ps| ==> (ps[i] in Tied(ps, scores, m) <==> scores[i] == m)
    decreases |ps|
  {
    if ps != [] {
      var n := |ps| - 1;
      var r := Tied(ps[..n], scores[..n], m);
      assert forall i :: 0 <= i < n ==> ps[..n][i] == ps[i] && scores[..n][i] == scores[i];
      TiedSelectsScore(ps[..n], scores[..n], m);
      TiedAreTheScorers(ps[..n], scores[..n], m);
      forall i | 0 <= i < |r|
        ensures r[i].hand != ps[n].hand
      {
        var j :| 0 <= j < n && ps[..n][j] == r[i];
      }
      assert ps[n] !in r;
      var t := Tied(ps, scores, m);
      assert t == if scores[n] == m then r + [ps[n]] else r;
      forall i | 0 <= i < |ps|
        ensures ps[i] in t <==> scores[i] == m
      {
        if i < n {
          assert ps[..n][i] == ps[i] && scores[..n][i] == scores[i];
          assert ps[i] != ps[n];
        }
      }
    }
  }

  /** Extending the list of players by one. */
  lemma TiedAppend(ps: seq<Player>, scores: seq<Int32>, p: Player, x: Int32, m: int)
    requires |ps| == |scores|
    ensures Tied(ps + [p], scores + [x], m) == if x == m then Tied(ps, scores, m) + [p] else Tied(ps, scores, m)
  {
    assert (ps + [p])[..|ps|] == ps;
    assert (scores + [x])[..|scores|] == scores;
  }

  /** When every score is above `m`, nobody is tied at `m`. */
  lemma {:induction false} TiedBelowAllIsEmpty(ps: seq<Player>, scores: seq<Int32>, m: int)
    requires |ps| == |scores|
    requires forall i :: 0 <= i < |scores| ==> scores[i] > m
    ensures Tied(ps, scores, m) == []
    decreases |ps|
  {
    if ps != [] {
      var n := |ps| - 1;
      TiedBelowAllIsEmpty(ps[..n], scores[..n], m);
    }
  }

  /**
   * Lives player `k` loses at the end of a round. After a knock: one if its
   * score is the minimum, two if it is moreover the knocker, none
   * otherwise. Without a knock: one unless it holds 31.
   */
  function LifeLoss(ps: seq<Player>, scores: seq<Int32>, knocked: bool, knocker: Player?, k: nat): (n: nat)
    requires |ps| == |scores| && k < |ps|
    ensures n <= 2
  {
    if knocked then
      if scores[k] == MinScore(scores) then (if ps[k] == knocker then 2 else 1) else 0
    else if scores[k] != ThirtyOne then 1 else 0
  }

  /** After a knock, exactly the players with the lowest score lose lives. */
  lemma KnockPenalisesExactlyTheLowest(ps: seq<Player>, scores: seq<Int32>, knocker: Player?, k: nat)
    requires |ps| == |scores| && k < |ps|
    ensures LifeLoss(ps, scores, true, knocker, k) > 0 <==>
            forall j :: 0 <= j < |scores| ==> scores[k] <= scores[j]
  {
    var m := MinScore(scores);
    MinScoreIsMinimum(scores);
    if forall j :: 0 <= j < |scores| ==> scores[k] <= scores[j] {
      assert m in scores;
    }
  }

  /**
   * After a knock, a player loses two lives exactly when it is the knocker
   * and has the lowest score; every other lowest player loses one.
   */
  lemma KnockerPaysDouble(ps: seq<Player>, scores: seq<Int32>, knocker: Player?, k: nat)
    requires |ps| == |scores| && k < |ps|
    ensures LifeLoss(ps, scores, true, knocker, k) == 2 <==>
            ps[k] == knocker && forall j :: 0 <= j < |scores| ==> scores[k] <= scores[j]
    ensures LifeLoss(ps, scores, true, knocker, k) == 1 <==>
            ps[k] != knocker && forall j :: 0 <= j < |scores| ==> scores[k] <= scores[j]
  {
    KnockPenalisesExactlyTheLowest(ps, scores, knocker, k);
  }

  /** After a knock, at least one player loses a life. */
  lemma KnockPenalisesSomeone(ps: seq<Player>, scores: seq<Int32>, knocker: Player?)
    requires |ps| == |scores| && |ps| > 0
    ensures exists k :: 0 <= k < |ps| && LifeLoss(ps, scores, true, knocker, k) > 0
  {
    var m := MinScore(scores);
    MinScoreIsMinimum(scores);
    assert m in scores;
    var k :| 0 <= k < |scores| && scores[k] == m;
    assert LifeLoss(ps, scores, true, knocker, k) > 0;
  }

  /** Without a knock, a 31 costs nothing and every other hand costs one life. */
  lemma NoKnockPenalisesAllButThirtyOne(ps: seq<Player>, scores: seq<Int32>, knocker: Player?, k: nat)
    requires |ps| == |scores| && k < |ps|
    ensures LifeLoss(ps, scores, false, knocker, k) == 0 <==> scores[k] == ThirtyOne
    ensures LifeLoss(ps, scores, false, knocker, k) <= 1
  {
  }

  /**
   * `a` can be obtained from `b` by deleting elements: the elements of `a`
   * appear in `b` in the same relative order.
   */
  ghost predicate IsSubsequence<T>(a: seq<T>, b: seq<T>)
    decreases |b|
  {
    if b == [] then a == []
    else
      (a != [] && a[|a| - 1] == b[|b| - 1] && IsSubsequence(a[..|a| - 1], b[..|b| - 1]))
      || IsSubsequence(a, b[..|b| - 1])
  }

  /**
   * The players that keep at least one life, in their original order: the
   * effect of `removeIf(lives <= 0)`.
   */
  function Survivors(ps: seq<Player>): (r: seq<Player>)
    reads ps
    ensures |r| <= |ps|
  {
    if ps == [] then []
    else
      var n := |ps| - 1;
      var r := Survivors(ps[..n]);
      if ps[n].lives > 0 then r + [ps[n]] else r
  }

  /** Exactly the players with lives left survive. */
  lemma {:induction false} SurvivorsAreTheLiving(ps: seq<Player>)
    ensures forall i :: 0 <= i < |Survivors(ps)| ==> Survivors(ps)[i] in ps && Survivors(ps)[i].lives > 0
    ensures forall i :: 0 <= i < |ps| && ps[i].lives > 0 ==> ps[i] in Survivors(ps)
    decreases |ps|
  {
    if ps != [] {
      var n := |ps| - 1;
      SurvivorsAreTheLiving(ps[..n]);
      assert forall i :: 0 <= i < n ==> ps[..n][i] == ps[i];
    }
  }

  /** The survivors keep the order they had among all players. */
  lemma {:induction false} SurvivorsKeepOrder(ps: seq<Player>)
    ensures IsSubsequence(Survivors(ps), ps)
    decreases |ps|
  {
    if ps != [] {
      var n := |ps| - 1;
      var r := Survivors(ps[..n]);
      SurvivorsKeepOrder(ps[..n]);
      if ps[n].lives > 0 {
        assert (r + [ps[n]])[..|r|] == r;
      }
    }
  }

  /** Removing players keeps each remaining player's hand its own. */
  lemma {:induction false} SurvivorsKeepHandsDistinct(ps: seq<Player>)
    requires HandsDistinct(ps)
    ensures HandsDistinct(Survivors(ps))
    decreases |ps|
  {
    if ps != [] {
      var n := |ps| - 1;
      var r := Survivors(ps[..n]);
      SurvivorsKeepHandsDistinct(ps[..n]);
      SurvivorsAreTheLiving(ps[..n]);
      forall i | 0 <= i < |r| ensures r[i].hand != ps[n].hand {
        var j :| 0 <= j < n && ps[..n][j] == r[i];
        assert ps[j] == r[i];
      }
    }
  }
}
