/** Removing elements from a list, and a round of notifications during which elements are removed:
    what the observer classes compute, on sequences. */
module Removal {

  /** `std::find`: the first index of `x`, or the length. */
  function Find<T(==)>(s: seq<T>, x: T): (i: nat)
    ensures i <= |s|
    ensures i < |s| ==> s[i] == x
    ensures forall j :: 0 <= j < i ==> s[j] != x
  {
    if s == [] || s[0] == x then 0 else 1 + Find(s[1..], x)
  }

  function Erase<T>(s: seq<T>, i: nat): seq<T>
    requires i < |s|
  {
    s[..i] + s[i + 1..]
  }

  function RemoveFirst<T(==)>(s: seq<T>, x: T): seq<T> {
    if Find(s, x) < |s| then Erase(s, Find(s, x)) else s
  }

  function Without<T(==)>(s: seq<T>, x: T): seq<T> {
    if s == [] then [] else (if s[0] == x then [] else [s[0]]) + Without(s[1..], x)
  }

  lemma {:induction false} FindFinds<T>(s: seq<T>, x: T)
    ensures x in s <==> Find(s, x) < |s|
  {
    if s != [] {
      FindFinds(s[1..], x);
    }
  }

  lemma RemoveFirstCounts<T>(s: seq<T>, x: T)
    ensures x in s ==> multiset(RemoveFirst(s, x)) == multiset(s) - multiset{x}
    ensures x in s ==> |RemoveFirst(s, x)| == |s| - 1
    ensures x !in s ==> RemoveFirst(s, x) == s
  {
    FindFinds(s, x);
    if x in s {
      var i := Find(s, x);
      assert s == s[..i] + [s[i]] + s[i + 1..];
    }
  }

  /** The same, element by element. */
  lemma RemovedCounts<T>(s: seq<T>, x: T, y: T)
    ensures multiset(RemoveFirst(s, x))[y] == multiset(s)[y] - if y == x && x in s then 1 else 0
    ensures y in RemoveFirst(s, x) ==> y in s
  {
    hide RemoveFirst;
    RemoveFirstCounts(s, x);
    assert y in RemoveFirst(s, x) ==> multiset(RemoveFirst(s, x))[y] > 0;
  }

  lemma ErasesFound<T>(s: seq<T>, x: T)
    ensures x in s <==> Find(s, x) < |s|
    ensures x in s ==> Erase(s, Find(s, x)) == RemoveFirst(s, x)
  {
    FindFinds(s, x);
  }

  lemma RemoveFirstCons<T>(s: seq<T>, x: T)
    requires s != []
    ensures RemoveFirst(s, x) == if s[0] == x then s[1..] else [s[0]] + RemoveFirst(s[1..], x)
  {
    var i := Find(s[1..], x);
    if s[0] != x && i < |s[1..]| {
      assert s[..i + 1] == [s[0]] + s[1..][..i];
    }
  }

  lemma {:induction false} WithoutRemoved<T>(s: seq<T>, x: T)
    ensures Without(RemoveFirst(s, x), x) == Without(s, x)
    ensures x !in Without(s, x) && (x !in s ==> Without(s, x) == s)
  {
    hide RemoveFirst;
    if s != [] {
      WithoutRemoved(s[1..], x);
      RemoveFirstCons(s, x);
      if s[0] != x {
        assert RemoveFirst(s, x)[1..] == RemoveFirst(s[1..], x);
      }
    } else {
      RemoveFirstCounts(s, x);
    }
  }

  /** Removing from a list in two parts removes from the first part if it can. */
  lemma {:induction false} FindInParts<T>(a: seq<T>, b: seq<T>, x: T)
    ensures Find(a + b, x) == if x in a then Find(a, x) else |a| + Find(b, x)
  {
    if a == [] {
      assert a + b == b;
    } else {
      assert (a + b)[1..] == a[1..] + b;
      FindInParts(a[1..], b, x);
    }
  }

  lemma EraseInFirst<T>(a: seq<T>, b: seq<T>, i: nat)
    requires i < |a|
    ensures Erase(a + b, i) == Erase(a, i) + b
  {
    assert (a + b)[..i] == a[..i];
    assert (a + b)[i + 1..] == a[i + 1..] + b;
  }

  lemma EraseInSecond<T>(a: seq<T>, b: seq<T>, i: nat)
    requires |a| <= i < |a + b|
    ensures Erase(a + b, i) == a + Erase(b, i - |a|)
  {
    assert (a + b)[..i] == a + b[..i - |a|];
    assert (a + b)[i + 1..] == b[i - |a| + 1..];
  }

  lemma RemoveInParts<T>(a: seq<T>, b: seq<T>, x: T)
    ensures x in a ==> RemoveFirst(a + b, x) == RemoveFirst(a, x) + b && Find(a + b, x) < |a|
    ensures x !in a ==> RemoveFirst(a + b, x) == a + RemoveFirst(b, x) && Find(a + b, x) >= |a|
  {
    FindInParts(a, b, x);
    FindFinds(a, x);
    var i := Find(a + b, x);
    if x in a {
      EraseInFirst(a, b, i);
    } else if i < |a + b| {
      EraseInSecond(a, b, i);
    }
  }

  // ---- a round of notifications

  /** The removals made during the next notification; none after the end of the script. */
  function Now<T>(script: seq<seq<T>>): seq<T> {
    if script == [] then [] else script[0]
  }

  function Later<T>(script: seq<seq<T>>): seq<seq<T>> {
    if script == [] then [] else script[1..]
  }

  /** Removals from a list of which `done` has had its turn and `pending` has not. */
  function RemoveAll<T(==)>(done: seq<T>, pending: seq<T>, xs: seq<T>): (r: (seq<T>, seq<T>))
    ensures |r.1| <= |pending|
    decreases |xs|
  {
    if xs == [] then (done, pending)
    else if xs[0] in done then RemoveAll(RemoveFirst(done, xs[0]), pending, xs[1..])
    else RemoveAll(done, RemoveFirst(pending, xs[0]), xs[1..])
  }

  /** Who is notified, in order: the head of what is pending, then, after its removals, the rest. */
  function Round<T(==)>(done: seq<T>, pending: seq<T>, script: seq<seq<T>>): seq<T>
    decreases |pending|
  {
    if pending == [] then []
    else
      var r := RemoveAll(done + [pending[0]], pending[1..], Now(script));
      [pending[0]] + Round(r.0, r.1, Later(script))
  }

  lemma RoundStep<T>(done: seq<T>, pending: seq<T>, script: seq<seq<T>>)
    requires pending != []
    ensures var r := RemoveAll(done + [pending[0]], pending[1..], Now(script));
            && |r.1| < |pending|
            && Round(done, pending, script) == [pending[0]] + Round(r.0, r.1, Later(script))
            && Left(done, pending, script) == Left(r.0, r.1, Later(script))
            && done + pending == (done + [pending[0]]) + pending[1..]
  {
  }

  /** What is left of the list after the round. */
  function Left<T(==)>(done: seq<T>, pending: seq<T>, script: seq<seq<T>>): seq<T>
    decreases |pending|
  {
    if pending == [] then done
    else
      var r := RemoveAll(done + [pending[0]], pending[1..], Now(script));
      Left(r.0, r.1, Later(script))
  }

  lemma RoundDone<T>(done: seq<T>, script: seq<seq<T>>)
    ensures Round(done, [], script) == [] && Left(done, [], script) == done
  {
  }

  // ---- what a round means, for distinct elements

  ghost predicate Distinct<T>(s: seq<T>) {
    forall i, j :: 0 <= i < j < |s| ==> s[i] != s[j]
  }

  /** `a` is `b` with some elements left out, in the same order. */
  predicate SubSequence<T(==)>(a: seq<T>, b: seq<T>)
    decreases |b|
  {
    a == [] || (b != [] && if a[0] == b[0] then SubSequence(a[1..], b[1..]) else SubSequence(a, b[1..]))
  }

  lemma {:induction false} SubSequenceIn<T>(a: seq<T>, b: seq<T>, x: T)
    requires SubSequence(a, b) && x in a
    ensures x in b
    decreases |b|
  {
    if a[0] == b[0] {
      if x != a[0] {
        SubSequenceIn(a[1..], b[1..], x);
      }
    } else {
      SubSequenceIn(a, b[1..], x);
    }
  }

  lemma {:induction false} SubSequenceDrop<T>(a: seq<T>, b: seq<T>)
    requires SubSequence(a, b) && a != []
    ensures SubSequence(a[1..], b)
    decreases |b|
  {
    if a[0] == b[0] {
      if a[1..] != [] { SubSequenceDrop(a[1..], b[1..]); }
    } else {
      SubSequenceDrop(a, b[1..]);
      if a[1..] != [] && a[1..][0] == b[0] { SubSequenceDrop(a[1..], b[1..]); }
    }
  }

  lemma {:induction false} SubSequenceTrans<T>(a: seq<T>, b: seq<T>, c: seq<T>)
    requires SubSequence(a, b) && SubSequence(b, c)
    ensures SubSequence(a, c)
    decreases |c|
  {
    if a != [] {
      if b[0] == c[0] {
        if a[0] == b[0] { SubSequenceTrans(a[1..], b[1..], c[1..]); } else { SubSequenceTrans(a, b[1..], c[1..]); }
      } else {
        SubSequenceTrans(a, b, c[1..]);
        SubSequenceDrop(a, c[1..]);
      }
    }
  }

  lemma {:induction false} SubSequenceSame<T>(a: seq<T>)
    ensures SubSequence(a, a)
  {
    if a != [] {
      SubSequenceSame(a[1..]);
    }
  }

  lemma {:induction false} SubSequenceDistinct<T>(a: seq<T>, b: seq<T>)
    requires SubSequence(a, b) && Distinct(b)
    ensures Distinct(a)
    decreases |b|
  {
    if a != [] {
      if a[0] == b[0] {
        SubSequenceDistinct(a[1..], b[1..]);
        forall j | 0 < j < |a| ensures a[j] != a[0] {
          assert a[1..][j - 1] == a[j];
          SubSequenceIn(a[1..], b[1..], a[j]);
        }
        forall i, j | 0 <= i < j < |a| ensures a[i] != a[j] {
          if i > 0 { assert a[1..][i - 1] == a[i] && a[1..][j - 1] == a[j]; }
        }
      } else {
        SubSequenceDistinct(a, b[1..]);
      }
    }
  }

  /** Removing one of distinct elements leaves the others, in order. */
  lemma {:induction false} RemoveFirstOfDistinct<T>(s: seq<T>, x: T)
    requires Distinct(s)
    ensures SubSequence(RemoveFirst(s, x), s) && x !in RemoveFirst(s, x)
    ensures forall y :: y in s && y != x ==> y in RemoveFirst(s, x)
  {
    if s == [] {
    } else if s[0] == x {
      assert RemoveFirst(s, x) == s[1..];
      SubSequenceSame(s[1..]);
    } else {
      RemoveFirstOfDistinct(s[1..], x);
      RemoveFirstCons(s, x);
    }
  }

  ghost predicate Apart<T>(a: seq<T>, b: seq<T>) {
    Distinct(a) && Distinct(b) && forall x :: x in a ==> x !in b
  }

  lemma {:induction false} RemoveAllOfDistinct<T>(done: seq<T>, pending: seq<T>, xs: seq<T>)
    requires Apart(done, pending)
    ensures var r := RemoveAll(done, pending, xs);
            && Apart(r.0, r.1) && SubSequence(r.1, pending)
            && (forall x :: x in xs ==> x !in r.1)
            && (forall x :: x in pending && x !in xs ==> x in r.1)
    decreases |xs|
  {
    if xs == [] {
      SubSequenceSame(pending);
    } else {
      OneRemoved(done, pending, xs[0]);
      var d := if xs[0] in done then RemoveFirst(done, xs[0]) else done;
      var p := if xs[0] in done then pending else RemoveFirst(pending, xs[0]);
      hide RemoveFirst;
      RemoveAllOfDistinct(d, p, xs[1..]);
      var r := RemoveAll(done, pending, xs);
      SubSequenceTrans(r.1, p, pending);
      forall x | x in xs ensures x !in r.1 {
        if x in r.1 { SubSequenceIn(r.1, p, x); }
      }
    }
  }

  lemma OneRemoved<T>(done: seq<T>, pending: seq<T>, x: T)
    requires Apart(done, pending)
    ensures var d := if x in done then RemoveFirst(done, x) else done;
            var p := if x in done then pending else RemoveFirst(pending, x);
            && Apart(d, p) && SubSequence(p, pending) && x !in p
            && forall y :: y in pending && y != x ==> y in p
  {
    RemoveFirstOfDistinct(done, x);
    RemoveFirstOfDistinct(pending, x);
    SubSequenceSame(pending);
    SubSequenceDistinct(RemoveFirst(done, x), done);
    SubSequenceDistinct(RemoveFirst(pending, x), pending);
    hide RemoveFirst;
    forall y | y in RemoveFirst(done, x) ensures y in done {
      SubSequenceIn(RemoveFirst(done, x), done, y);
    }
    forall y | y in RemoveFirst(pending, x) ensures y in pending {
      SubSequenceIn(RemoveFirst(pending, x), pending, y);
    }
  }

  /** `x` is removed by a notification that comes before its own turn. */
  ghost predicate RemovedInTime<T>(notified: seq<T>, script: seq<seq<T>>, x: T) {
    exists k :: 0 <= k < |notified| && k < |script| && x in script[k] && x !in notified[..k + 1]
  }

  /** For distinct elements, a round notifies in list order, each at most once, and leaves out exactly
      the elements removed before their turn. */
  lemma {:induction false} RoundIsExact<T>(done: seq<T>, pending: seq<T>, script: seq<seq<T>>)
    requires Apart(done, pending)
    ensures var n := Round(done, pending, script);
            SubSequence(n, pending) && forall x :: x in pending ==> (x !in n <==> RemovedInTime(n, script, x))
    decreases |pending|
  {
    if pending != [] {
      var h, rest := pending[0], pending[1..];
      var n := Round(done, pending, script);
      HeadMoves(done, pending);
      RemoveAllOfDistinct(done + [h], rest, Now(script));
      var r := RemoveAll(done + [h], rest, Now(script));
      hide RemoveAll;
      RoundIsExact(r.0, r.1, Later(script));
      var m := Round(r.0, r.1, Later(script));
      assert n == [h] + m && n[1..] == m;
      SubSequenceTrans(m, r.1, rest);
      forall x | x in pending ensures x !in n <==> RemovedInTime(n, script, x) {
        TurnOf(h, m, r.1, rest, script, x);
      }
    }
  }

  lemma HeadMoves<T>(done: seq<T>, pending: seq<T>)
    requires Apart(done, pending) && pending != []
    ensures Apart(done + [pending[0]], pending[1..])
  {
    var d := done + [pending[0]];
    forall i, j | 0 <= i < j < |d| ensures d[i] != d[j] {
      if j == |done| { assert done[i] in done && pending[0] in pending; }
    }
    forall x | x in d ensures x !in pending[1..] {
      assert forall j :: 0 < j < |pending| ==> pending[j] != pending[0];
    }
  }

  /** The step of `RoundIsExact` for one element. */
  lemma TurnOf<T>(h: T, m: seq<T>, left: seq<T>, rest: seq<T>, script: seq<seq<T>>, x: T)
    requires (x == h || x in rest) && SubSequence(m, left) && h !in rest
    requires forall y :: y in Now(script) ==> y !in left
    requires forall y :: y in rest && y !in Now(script) ==> y in left
    requires forall y :: y in left ==> (y !in m <==> RemovedInTime(m, Later(script), y))
    ensures x !in [h] + m <==> RemovedInTime([h] + m, script, x)
  {
    var n := [h] + m;
    if x == h {
      assert n[0] == h;
      forall j | 1 <= j <= |n| ensures h in n[..j] {
        assert n[..j][0] == h;
      }
    } else if x in Now(script) {
      if x in m { SubSequenceIn(m, left, x); }
      assert n[..0 + 1] == [h];
      assert RemovedInTime(n, script, x) by { assert script[0] == Now(script); }
    } else {
      LaterTurn(h, m, script, x);
    }
  }

  lemma LaterTurn<T>(h: T, m: seq<T>, script: seq<seq<T>>, x: T)
    requires x != h && x !in Now(script)
    ensures RemovedInTime([h] + m, script, x) <==> RemovedInTime(m, Later(script), x)
  {
    var n := [h] + m;
    if RemovedInTime(n, script, x) {
      var k :| 0 <= k < |n| && k < |script| && x in script[k] && x !in n[..k + 1];
      assert k > 0 && Later(script)[k - 1] == script[k];
      assert n[..k + 1] == [h] + m[..k - 1 + 1];
    }
    if RemovedInTime(m, Later(script), x) {
      var k :| 0 <= k < |m| && k < |Later(script)| && x in Later(script)[k] && x !in m[..k + 1];
      assert Later(script)[k] == script[k + 1];
      assert n[..k + 1 + 1] == [h] + m[..k + 1];
    }
  }

  // ---- what a round leaves

  lemma {:induction false} RemoveFirstKeepsOrder<T>(s: seq<T>, x: T)
    ensures SubSequence(RemoveFirst(s, x), s)
  {
    hide RemoveFirst;
    if s == [] {
      RemoveFirstCounts(s, x);
    } else {
      RemoveFirstCons(s, x);
      if s[0] == x {
        SubSequenceSame(s[1..]);
        if s[1..] != [] && s[1..][0] == s[0] { SubSequenceDrop(s[1..], s[1..]); }
      } else {
        RemoveFirstKeepsOrder(s[1..], x);
      }
    }
  }

  lemma {:induction false} RemoveAllLeaves<T>(done: seq<T>, pending: seq<T>, xs: seq<T>)
    requires Apart(done, pending)
    ensures var r := RemoveAll(done, pending, xs);
            && SubSequence(r.0 + r.1, done + pending)
            && forall x :: x in r.0 + r.1 <==> x in done + pending && x !in xs
    decreases |xs|
  {
    if xs == [] {
      SubSequenceSame(done + pending);
    } else {
      var d := if xs[0] in done then RemoveFirst(done, xs[0]) else done;
      var p := if xs[0] in done then pending else RemoveFirst(pending, xs[0]);
      OneRemoved(done, pending, xs[0]);
      OneLeaves(done, pending, xs[0]);
      hide RemoveFirst, Apart;
      RemoveAllLeaves(d, p, xs[1..]);
      var r := RemoveAll(done, pending, xs);
      SubSequenceTrans(r.0 + r.1, d + p, done + pending);
    }
  }

  lemma OneLeaves<T>(done: seq<T>, pending: seq<T>, x: T)
    requires Apart(done, pending)
    ensures var d := if x in done then RemoveFirst(done, x) else done;
            var p := if x in done then pending else RemoveFirst(pending, x);
            SubSequence(d + p, done + pending) && forall y :: y in d + p <==> y in done + pending && y != x
  {
    RemoveInParts(done, pending, x);
    RemoveFirstKeepsOrder(done + pending, x);
    RemoveFirstOfDistinct(done, x);
    RemoveFirstOfDistinct(pending, x);
    hide RemoveFirst, SubSequence;
    forall y ensures y in RemoveFirst(done, x) ==> y in done {
      RemovedCounts(done, x, y);
    }
    forall y ensures y in RemoveFirst(pending, x) ==> y in pending {
      RemovedCounts(pending, x, y);
    }
  }

  lemma NobodyBefore<T>(all: seq<T>)
    requires Distinct(all)
    ensures Apart([], all) && [] + all == all
  {
  }

  /** `x` is removed by some notification of the round, before its own turn or after it. */
  ghost predicate RemovedAtAll<T>(notified: seq<T>, script: seq<seq<T>>, x: T) {
    exists k :: 0 <= k < |notified| && k < |script| && x in script[k]
  }

  /** For distinct elements, a round leaves exactly those that none of its notifications removes, in order. */
  lemma {:induction false} LeftIsExact<T>(done: seq<T>, pending: seq<T>, script: seq<seq<T>>)
    requires Apart(done, pending)
    ensures var n, l := Round(done, pending, script), Left(done, pending, script);
            && SubSequence(l, done + pending)
            && forall x :: x in l <==> x in done + pending && !RemovedAtAll(n, script, x)
    decreases |pending|
  {
    if pending == [] {
      assert done + pending == done;
      SubSequenceSame(done);
    } else {
      var d, p := done + [pending[0]], pending[1..];
      var r := RemoveAll(d, p, Now(script));
      HeadMoves(done, pending);
      RemoveAllOfDistinct(d, p, Now(script));
      RemoveAllLeaves(d, p, Now(script));
      RoundStep(done, pending, script);
      hide RemoveAll, Round, Left, Apart;
      LeftIsExact(r.0, r.1, Later(script));
      var l := Left(done, pending, script);
      SubSequenceTrans(l, r.0 + r.1, done + pending);
      forall x
        ensures RemovedAtAll(Round(done, pending, script), script, x) <==>
                  x in Now(script) || RemovedAtAll(Round(r.0, r.1, Later(script)), Later(script), x)
      {
        RemovedNowOrLater(pending[0], Round(r.0, r.1, Later(script)), script, x);
      }
    }
  }

  lemma RemovedNowOrLater<T>(h: T, m: seq<T>, script: seq<seq<T>>, x: T)
    ensures RemovedAtAll([h] + m, script, x) <==> x in Now(script) || RemovedAtAll(m, Later(script), x)
  {
    if k :| 0 <= k < |[h] + m| && k < |script| && x in script[k] {
      if k > 0 { assert x in Later(script)[k - 1]; }
    }
    if x in Now(script) { assert x in script[0]; }
    if k :| 0 <= k < |m| && k < |Later(script)| && x in Later(script)[k] {
      assert x in script[k + 1];
    }
  }

  /** The whole round over a list of distinct elements: order, no repetition, and exactly who. An element
      that no notification removes is notified once; one removed before its turn is not notified. */
  lemma BroadcastIsExact<T>(all: seq<T>, script: seq<seq<T>>)
    requires Distinct(all)
    ensures var n := Round([], all, script);
            && SubSequence(n, all) && Distinct(n)
            && (forall x :: x in all ==> (x !in n <==> RemovedInTime(n, script, x)))
            && (forall x :: x in all && (forall k :: 0 <= k < |script| ==> x !in script[k]) ==> multiset(n)[x] == 1)
  {
    RoundIsExact([], all, script);
    var n := Round([], all, script);
    SubSequenceDistinct(n, all);
    forall x | x in all && (forall k :: 0 <= k < |script| ==> x !in script[k]) ensures multiset(n)[x] == 1 {
      assert !RemovedInTime(n, script, x);
      CountedOnce(n, x);
    }
  }

  lemma {:induction false} CountedOnce<T>(s: seq<T>, x: T)
    requires Distinct(s) && x in s
    ensures multiset(s)[x] == 1
  {
    var i :| 0 <= i < |s| && s[i] == x;
    assert s == s[..i] + [x] + s[i + 1..];
    assert x !in s[..i] && x !in s[i + 1..];
  }
}
