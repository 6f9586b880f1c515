/** XPCBroadcaster and XPCListener: two lists that refer to each other, and a broadcast during which
    listeners may be removed. */
module Observers {
  import opened Options
  import opened Removal

  class XPCListener {
    var broadcasters: seq<XPCBroadcaster>

    constructor ()
      ensures broadcasters == []
    {
      broadcasters := [];
    }

    method BroadcasterAdded(b: XPCBroadcaster)
      modifies this
      ensures broadcasters == old(broadcasters) + [b]
    {
      broadcasters := broadcasters + [b];
    }

    method BroadcasterRemoved(b: XPCBroadcaster)
      modifies this
      ensures broadcasters == RemoveFirst(old(broadcasters), b)
    {
      var i := Find(broadcasters, b);
      if i != |broadcasters| {
        broadcasters := Erase(broadcasters, i);
      }
    }

    /** The destructor: each turn of the loop removes one registration, because the broadcaster's list
        holds this listener as often as this listener's list holds the broadcaster. */
    method Destroy(ghost bs: set<XPCBroadcaster>, ghost ls: set<XPCListener>)
      requires this in ls && Linked(bs, ls)
      modifies this, bs
      ensures Linked(bs, ls) && broadcasters == []
      ensures forall b :: b in bs ==> b.listeners == Without(old(b.listeners), this) && this !in b.listeners
    {
      hide RemoveFirst, Without, Linked;
      while broadcasters != []
        invariant Linked(bs, ls)
        invariant forall b :: b in bs ==> Without(b.listeners, this) == Without(old(b.listeners), this)
        decreases |broadcasters|
      {
        var b := broadcasters[0];
        FrontHoldsThis(bs, ls);
        WithoutRemoved<XPCListener>(b.listeners, this);
        b.RemoveListener(this, bs, ls);
      }
      NobodyHoldsThis(bs, ls);
    }

    lemma FrontHoldsThis(bs: set<XPCBroadcaster>, ls: set<XPCListener>)
      requires this in ls && Linked(bs, ls) && broadcasters != []
      ensures broadcasters[0] in bs && this in broadcasters[0].listeners
      ensures |RemoveFirst(broadcasters, broadcasters[0])| < |broadcasters|
    {
      var b := broadcasters[0];
      assert b in broadcasters;
      assert multiset(b.listeners)[this] == multiset(broadcasters)[b];
      RemoveFirstCounts<XPCBroadcaster>(broadcasters, b);
    }

    lemma NobodyHoldsThis(bs: set<XPCBroadcaster>, ls: set<XPCListener>)
      requires this in ls && Linked(bs, ls) && broadcasters == []
      ensures forall b :: b in bs ==> this !in b.listeners && b.listeners == Without(b.listeners, this)
    {
      hide Without;
      forall b | b in bs ensures this !in b.listeners && b.listeners == Without(b.listeners, this) {
        assert multiset(b.listeners)[this] == multiset(broadcasters)[b];
        WithoutRemoved<XPCListener>(b.listeners, this);
      }
    }
  }

  /** Two-way registration over all broadcasters and listeners there are: the lists stay among them, and
      a listener occurs in a broadcaster's list as often as the broadcaster in the listener's. */
  ghost predicate Linked(bs: set<XPCBroadcaster>, ls: set<XPCListener>)
    reads bs`listeners, ls`broadcasters
  {
    && (forall b, l :: b in bs && l in b.listeners ==> l in ls)
    && (forall l, b :: l in ls && b in l.broadcasters ==> b in bs)
    && (forall b, l :: b in bs && l in ls ==> multiset(b.listeners)[l] == multiset(l.broadcasters)[b])
  }

  class XPCBroadcaster {
    var listeners: seq<XPCListener>
    /** `mIterator`: NULL, or the index that the running broadcast has reached; -1 when what it stood on
        at the front has been removed. */
    var cursor: Option<int>

    constructor ()
      ensures listeners == [] && cursor == None
    {
      listeners := [];
      cursor := None;
    }

    method AddListener(l: XPCListener, ghost bs: set<XPCBroadcaster>, ghost ls: set<XPCListener>)
      requires this in bs && l in ls && Linked(bs, ls)
      modifies this`listeners, l
      ensures Linked(bs, ls)
      ensures listeners == old(listeners) + [l] && l.broadcasters == old(l.broadcasters) + [this]
    {
      listeners := listeners + [l];
      l.BroadcasterAdded(this);
    }

    /** Where the cursor stands after the entry at `i` has been erased. */
    static function Moved(it: Option<int>, i: nat): Option<int> {
      if it.Some? && it.value >= i then Some(it.value - 1) else it
    }

    method RemoveListener(l: XPCListener, ghost bs: set<XPCBroadcaster>, ghost ls: set<XPCListener>)
      requires this in bs && l in ls && Linked(bs, ls)
      modifies this, l
      ensures Linked(bs, ls)
      ensures listeners == RemoveFirst(old(listeners), l)
      ensures l.broadcasters == if l in old(listeners) then RemoveFirst(old(l.broadcasters), this)
                                else old(l.broadcasters)
      ensures cursor == if l in old(listeners) then Moved(old(cursor), Find(old(listeners), l))
                          else old(cursor)
    {
      hide RemoveFirst, Erase, Find;
      var i := Find(listeners, l);
      ErasesFound<XPCListener>(listeners, l);
      if i == |listeners| {
        RemoveFirstCounts(listeners, l);
        return;
      }
      assert multiset(listeners)[l] == multiset(l.broadcasters)[this];
      assert this in l.broadcasters;
      if cursor != None {
        if cursor.value >= i {
          cursor := Some(cursor.value - 1);
        }
      }
      var rest := Erase(listeners, i);
      assert rest == RemoveFirst<XPCListener>(listeners, l);
      listeners := rest;
      l.BroadcasterRemoved(this);
      forall b: XPCBroadcaster, k: XPCListener | b in bs && k in ls
        ensures multiset(b.listeners)[k] == multiset(k.broadcasters)[b]
      {
        RemovedCounts<XPCListener>(old(listeners), l, k);
        RemovedCounts<XPCBroadcaster>(old(l.broadcasters), this, b);
        assert old(multiset(b.listeners)[k] == multiset(k.broadcasters)[b]);
      }
      forall k | k in listeners ensures k in ls {
        RemovedCounts<XPCListener>(old(listeners), l, k);
      }
      forall b | b in l.broadcasters ensures b in bs {
        RemovedCounts<XPCBroadcaster>(old(l.broadcasters), this, b);
      }
    }

    /** The removals a listener makes from inside its `ListenToMessage`. The entries up to the cursor
        have had their turn. */
    method Listen(removals: seq<XPCListener>, ghost bs: set<XPCBroadcaster>, ghost ls: set<XPCListener>,
                  ghost done: seq<XPCListener>, ghost pending: seq<XPCListener>)
      requires this in bs && Linked(bs, ls) && forall l :: l in removals ==> l in ls
      requires listeners == done + pending && cursor == Some(|done| - 1)
      modifies this, ls
      ensures Linked(bs, ls)
      ensures var r := RemoveAll(done, pending, removals);
              listeners == r.0 + r.1 && cursor == Some(|r.0| - 1)
    {
      hide Linked, RemoveFirst, Find, Moved;
      ghost var d, p := done, pending;
      assert removals[0..] == removals;
      for i := 0 to |removals|
        invariant Linked(bs, ls) && listeners == d + p && cursor == Some(|d| - 1)
        invariant RemoveAll(d, p, removals[i..]) == RemoveAll(done, pending, removals)
      {
        var l := removals[i];
        assert removals[i..][0] == l && removals[i..][1..] == removals[i + 1..];
        RemoveInParts(d, p, l);
        RemovalMoves(d, p, l);
        RemoveListener(l, bs, ls);
        if l in d { d := RemoveFirst(d, l); } else { p := RemoveFirst(p, l); }
      }
    }

    /** `BroadcastMessage`; `script[k]` lists the listeners that are removed during the k-th notification.
        Whoever is notified is what the round of notifications says, although the loop only has an index
        into a list that shrinks under it. */
    method BroadcastMessage(script: seq<seq<XPCListener>>, ghost bs: set<XPCBroadcaster>, ghost ls: set<XPCListener>)
      returns (notified: seq<XPCListener>)
      requires this in bs && Linked(bs, ls)
      requires forall k, l :: 0 <= k < |script| && l in script[k] ==> l in ls
      modifies this, ls
      ensures Linked(bs, ls) && cursor == None
      ensures notified == Round([], old(listeners), script)
      ensures listeners == Left([], old(listeners), script)
      ensures Distinct(old(listeners)) ==>
                && SubSequence(notified, old(listeners)) && Distinct(notified)
                && (forall l :: l in old(listeners) ==> (l !in notified <==> RemovedInTime(notified, script, l)))
                && SubSequence(listeners, old(listeners))
                && forall l :: l in listeners <==> l in old(listeners) && !RemovedAtAll(notified, script, l)
    {
      hide Round, Left, RemoveAll, Now, Later, From, Linked, Distinct, SubSequence, RemovedInTime,
        RemovedAtAll, Apart;
      notified := [];
      cursor := Some(0);
      FromStart(script);
      ghost var done: seq<XPCListener>, pending := [], listeners;
      var k := 0;
      while cursor.value != |listeners|
        invariant Linked(bs, ls) && listeners == done + pending && cursor == Some(|done|)
        invariant 0 <= k
        invariant notified + Round(done, pending, From(script, k)) == Round([], old(listeners), script)
        invariant Left(done, pending, From(script, k)) == Left([], old(listeners), script)
        decreases |pending|
      {
        RoundStep(done, pending, From(script, k));
        FromSteps(script, k);
        var l := listeners[cursor.value];
        notified := notified + [l];
        var removals := if k < |script| then script[k] else [];
        ghost var d, p := done + [l], pending[1..];
        Listen(removals, bs, ls, d, p);
        ghost var r := RemoveAll(d, p, removals);
        done, pending := r.0, r.1;
        cursor := Some(cursor.value + 1);
        k := k + 1;
      }
      RoundDone(done, From(script, k));
      cursor := None;
      if Distinct(old(listeners)) {
        BroadcastIsExact(old(listeners), script);
        NobodyBefore(old(listeners));
        LeftIsExact([], old(listeners), script);
      }
    }

    /** The lists agree, but that this broadcaster counts as holding `rest` only. */
    ghost predicate Forgetting(bs: set<XPCBroadcaster>, ls: set<XPCListener>, rest: seq<XPCListener>)
      reads bs`listeners, ls`broadcasters
    {
      && (forall b, l :: b in bs && b != this && l in b.listeners ==> l in ls)
      && (forall l, b :: l in ls && b in l.broadcasters ==> b in bs)
      && (forall l :: l in ls ==> multiset(l.broadcasters)[this] == multiset(rest)[l])
      && (forall b, l :: b in bs && b != this && l in ls ==> multiset(b.listeners)[l] == multiset(l.broadcasters)[b])
    }

    method ForgetNext(l: XPCListener, ghost bs: set<XPCBroadcaster>, ghost ls: set<XPCListener>,
                    ghost rest: seq<XPCListener>)
      requires this in bs && l in ls && Forgetting(bs, ls, [l] + rest)
      modifies l
      ensures Forgetting(bs, ls, rest)
      ensures l.broadcasters == RemoveFirst(old(l.broadcasters), this)
    {
      hide RemoveFirst;
      assert multiset([l] + rest) == multiset{l} + multiset(rest);
      assert multiset(l.broadcasters)[this] > 0;
      assert this in l.broadcasters;
      l.BroadcasterRemoved(this);
      forall b: XPCBroadcaster
        ensures multiset(l.broadcasters)[b] == old(multiset(l.broadcasters)[b]) - (if b == this then 1 else 0)
        ensures b in l.broadcasters ==> b in bs
      {
        RemovedCounts<XPCBroadcaster>(old(l.broadcasters), this, b);
      }
    }

    /** The destructor: every listener forgets this broadcaster. */
    method Destroy(ghost bs: set<XPCBroadcaster>, ghost ls: set<XPCListener>)
      requires this in bs && Linked(bs, ls)
      modifies this, ls
      ensures Linked(bs - {this}, ls)
      ensures forall l :: l in ls ==> this !in l.broadcasters && l.broadcasters == Without(old(l.broadcasters), this)
    {
      hide RemoveFirst, Without, Forgetting, Linked;
      StartForgetting(bs, ls);
      var iter := 0;
      cursor := Some(0);
      assert listeners[0..] == listeners;
      while iter != |listeners|
        invariant 0 <= iter <= |listeners| && listeners == old(listeners)
        invariant forall l :: l in ls ==> Without(l.broadcasters, this) == Without(old(l.broadcasters), this)
        invariant Forgetting(bs, ls, listeners[iter..])
        decreases |listeners| - iter
      {
        var l := listeners[iter];
        assert listeners[iter..] == [l] + listeners[iter + 1..];
        WithoutRemoved(l.broadcasters, this);
        ForgetNext(l, bs, ls, listeners[iter + 1..]);
        iter := iter + 1;
        cursor := Some(iter);
      }
      Forgotten(bs, ls);
    }

    lemma StartForgetting(bs: set<XPCBroadcaster>, ls: set<XPCListener>)
      requires this in bs && Linked(bs, ls)
      ensures Forgetting(bs, ls, listeners) && forall l :: l in listeners ==> l in ls
    {
    }

    lemma Forgotten(bs: set<XPCBroadcaster>, ls: set<XPCListener>)
      requires Forgetting(bs, ls, [])
      ensures Linked(bs - {this}, ls)
      ensures forall l :: l in ls ==> this !in l.broadcasters && Without(l.broadcasters, this) == l.broadcasters
    {
      hide Without;
      forall l | l in ls ensures this !in l.broadcasters && Without(l.broadcasters, this) == l.broadcasters {
        assert multiset(l.broadcasters)[this] == 0;
        WithoutRemoved(l.broadcasters, this);
      }
    }
  }

  function From<T>(script: seq<seq<T>>, k: nat): seq<seq<T>> {
    if k <= |script| then script[k..] else []
  }

  lemma FromStart<T>(script: seq<seq<T>>)
    ensures From(script, 0) == script
  {
  }

  lemma FromSteps<T>(script: seq<seq<T>>, k: nat)
    ensures Now(From(script, k)) == if k < |script| then script[k] else []
    ensures Later(From(script, k)) == From(script, k + 1)
  {
  }

  lemma RemovalMoves(d: seq<XPCListener>, p: seq<XPCListener>, l: XPCListener)
    ensures l in d + p ==> XPCBroadcaster.Moved(Some(|d| - 1), Find(d + p, l)) ==
                           Some((if l in d then |RemoveFirst(d, l)| else |d|) - 1)
    ensures l in d ==> l in d + p
  {
    RemoveInParts(d, p, l);
    RemoveFirstCounts(d, l);
  }
}
