/** Walks along a partial successor function: the shape of parent links between policies
    and of the schema-version chain. A walk through a finite set either stops within as many
    moves as the set has elements, or visits some element twice and never stops. */
module Walks {
  import opened Prelude

  /** The position after `n` moves, None once the walk has stopped. */
  ghost function Position<T>(next: T -> Option<T>, x: T, n: nat): Option<T> {
    if n == 0 then Some(x)
    else
      match next(x)
      case None => None
      case Some(y) => Position(next, y, n - 1)
  }

  ghost predicate StopsBy<T>(next: T -> Option<T>, x: T, n: nat) {
    Position(next, x, n).None?
  }

  ghost predicate Stops<T>(next: T -> Option<T>, x: T) {
    exists n: nat :: StopsBy(next, x, n)
  }

  ghost function LeastStop<T>(next: T -> Option<T>, x: T, n: nat): (m: nat)
    requires StopsBy(next, x, n)
    ensures m <= n && StopsBy(next, x, m)
    ensures forall k: nat :: k < m ==> !StopsBy(next, x, k)
  {
    match next(x)
    case None => 1
    case Some(y) =>
      assert forall k: nat :: 0 < k ==> StopsBy(next, x, k) == StopsBy(next, y, k - 1);
      1 + LeastStop(next, y, n - 1)
  }

  /** How many moves are left, counting the one that finds no successor. */
  ghost function Height<T>(next: T -> Option<T>, x: T): (m: nat)
    requires Stops(next, x)
    ensures StopsBy(next, x, m)
    ensures forall k: nat :: k < m ==> !StopsBy(next, x, k)
  {
    var n: nat :| StopsBy(next, x, n);
    LeastStop(next, x, n)
  }

  lemma HeightStep<T>(next: T -> Option<T>, x: T)
    requires Stops(next, x)
    ensures next(x).None? ==> Height(next, x) == 1
    ensures next(x).Some? ==>
              Stops(next, next(x).value) && Height(next, x) == 1 + Height(next, next(x).value)
  {
    var h := Height(next, x);
    assert StopsBy(next, x, h);
    if next(x).Some? {
      var y := next(x).value;
      assert StopsBy(next, y, h - 1);
      var g := Height(next, y);
      assert StopsBy(next, x, g + 1);
    } else {
      assert StopsBy(next, x, 1);
    }
  }

  lemma StopsFromNext<T>(next: T -> Option<T>, x: T)
    requires next(x).Some? ==> Stops(next, next(x).value)
    ensures Stops(next, x)
  {
    if next(x).Some? {
      var n: nat :| StopsBy(next, next(x).value, n);
      assert StopsBy(next, x, n + 1);
    } else {
      assert StopsBy(next, x, 1);
    }
  }

  lemma {:induction false} PositionAdd<T>(next: T -> Option<T>, x: T, m: nat, n: nat)
    requires Position(next, x, m).Some?
    ensures Position(next, x, m + n) == Position(next, Position(next, x, m).value, n)
  {
    if m > 0 {
      PositionAdd(next, next(x).value, m - 1, n);
    }
  }

  lemma {:induction false} StoppedStaysStopped<T>(next: T -> Option<T>, x: T, m: nat, n: nat)
    requires m <= n && StopsBy(next, x, m)
    ensures StopsBy(next, x, n)
  {
    if next(x).Some? {
      StoppedStaysStopped(next, next(x).value, m - 1, n - 1);
    }
  }

  ghost predicate Closed<T(!new)>(next: T -> Option<T>, s: set<T>) {
    forall x :: x in s && next(x).Some? ==> next(x).value in s
  }

  lemma {:induction false} PositionInside<T(!new)>(next: T -> Option<T>, s: set<T>, x: T, n: nat)
    requires Closed(next, s) && x in s
    ensures Position(next, x, n).Some? ==> Position(next, x, n).value in s
  {
    if n > 0 && next(x).Some? {
      PositionInside(next, s, next(x).value, n - 1);
    }
  }

  /** Some position is visited twice. */
  ghost predicate Cycles<T>(next: T -> Option<T>, x: T) {
    exists i, j :: 0 <= i < j && Revisits(next, x, i, j)
  }

  ghost predicate Revisits<T>(next: T -> Option<T>, x: T, i: nat, j: nat) {
    Position(next, x, i).Some? && Position(next, x, i) == Position(next, x, j)
  }

  /** The positions of the first `n` moves, in order. */
  ghost function Trail<T>(next: T -> Option<T>, x: T, n: nat): (t: seq<T>)
    requires forall k: nat :: k < n ==> !StopsBy(next, x, k)
    ensures |t| == n
    ensures forall k :: 0 <= k < n ==> Position(next, x, k) == Some(t[k])
  {
    if n == 0 then []
    else
      assert !StopsBy(next, x, n - 1);
      Trail(next, x, n - 1) + [Position(next, x, n - 1).value]
  }

  lemma NoStopAfterRevisit<T>(next: T -> Option<T>, x: T, i: nat, j: nat)
    requires i < j && Revisits(next, x, i, j)
    ensures !Stops(next, x)
  {
    if Stops(next, x) {
      var m := Height(next, x);
      assert StopsBy(next, x, m);
      if m <= j { StoppedStaysStopped(next, x, m, j); }
      var earlier: nat := i + (m - j);
      assert !StopsBy(next, x, earlier);
      PositionAdd(next, x, j, m - j);
      PositionAdd(next, x, i, m - j);
    }
  }

  lemma TrailDistinct<T>(next: T -> Option<T>, x: T, n: nat)
    requires forall k: nat :: k < n ==> !StopsBy(next, x, k)
    requires !Cycles(next, x)
    ensures Distinct(Trail(next, x, n))
  {
    var t := Trail(next, x, n);
    forall i, j | 0 <= i < j < n
      ensures t[i] != t[j]
    {
      assert !Revisits(next, x, i, j);
    }
  }

  /** Stopping, stopping within |s| moves and visiting nothing twice are the same thing. */
  lemma StopsIffAcyclic<T(!new)>(next: T -> Option<T>, s: set<T>, x: T)
    requires Closed(next, s) && x in s
    ensures Stops(next, x) <==> !Cycles(next, x)
    ensures Stops(next, x) <==> StopsBy(next, x, |s|)
  {
    if Cycles(next, x) {
      var i, j :| 0 <= i < j && Revisits(next, x, i, j);
      NoStopAfterRevisit(next, x, i, j);
    } else if !StopsBy(next, x, |s|) {
      forall k: nat | k <= |s|
        ensures !StopsBy(next, x, k)
      {
        if StopsBy(next, x, k) { StoppedStaysStopped(next, x, k, |s|); }
      }
      var t := Trail(next, x, |s| + 1);
      TrailDistinct(next, x, |s| + 1);
      forall k | 0 <= k < |t|
        ensures t[k] in s
      {
        PositionInside(next, s, x, k);
      }
      DistinctFits(t, s);
      assert false;
    }
  }
}
