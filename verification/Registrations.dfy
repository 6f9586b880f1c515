/** Whole runs of broadcasters and listeners: what the objects hold after any sequence of creations,
    registrations, removals, broadcasts and destructions. */
module Registrations {
  import opened Observers
  import opened Removal

  /** What can happen; broadcasters and listeners are named by the order in which they were created. */
  datatype Event = NewBroadcaster | NewListener | Add(b: nat, l: nat) | Remove(b: nat, l: nat)
                 | Broadcast(b: nat, script: seq<seq<nat>>) | DestroyBroadcaster(b: nat) | DestroyListener(l: nat)

  // ---- on names

  /** The lists of all broadcasters, the number of listeners, who has been destroyed, and who has been
      notified by each broadcast. */
  datatype Book = Book(lists: seq<seq<nat>>, listeners: nat, goneBs: set<nat>, goneLs: set<nat>, heard: seq<seq<nat>>)
  {
    predicate HasB(b: nat) { b < |lists| && b !in goneBs }
    predicate HasL(l: nat) { l < listeners && l !in goneLs }

    /** The listeners of these names that exist. */
    function Existing(names: seq<nat>): seq<nat> {
      if names == [] then [] else (if HasL(names[0]) then [names[0]] else []) + Existing(names[1..])
    }

    function ExistingAll(script: seq<seq<nat>>): seq<seq<nat>> {
      if script == [] then [] else [Existing(script[0])] + ExistingAll(script[1..])
    }
  }

  const Blank := Book([], 0, {}, {}, [])

  function AllWithout(lists: seq<seq<nat>>, l: nat): seq<seq<nat>> {
    seq(|lists|, i requires 0 <= i < |lists| => Without<nat>(lists[i], l))
  }

  /** One event; an event that names an object that does not exist does nothing. */
  function Note(k: Book, e: Event): Book {
    match e
    case NewBroadcaster => k.(lists := k.lists + [[]])
    case NewListener => k.(listeners := k.listeners + 1)
    case Add(b, l) => if k.HasB(b) && k.HasL(l) then k.(lists := k.lists[b := k.lists[b] + [l]]) else k
    case Remove(b, l) =>
      if k.HasB(b) && k.HasL(l) then k.(lists := k.lists[b := RemoveFirst(k.lists[b], l)]) else k
    case Broadcast(b, script) =>
      if k.HasB(b) then
        k.(lists := k.lists[b := Left([], k.lists[b], k.ExistingAll(script))],
           heard := k.heard + [Round([], k.lists[b], k.ExistingAll(script))])
      else k
    case DestroyBroadcaster(b) => if k.HasB(b) then k.(goneBs := k.goneBs + {b}) else k
    case DestroyListener(l) =>
      if k.HasL(l) then k.(goneLs := k.goneLs + {l}, lists := AllWithout(k.lists, l)) else k
  }

  /** The names that exist stay, in order, and no others. */
  lemma {:induction false} ExistingOnes(k: Book, names: seq<nat>)
    ensures SubSequence(k.Existing(names), names)
    ensures forall l: nat :: l in k.Existing(names) <==> l in names && k.HasL(l)
    ensures (forall i :: 0 <= i < |names| ==> k.HasL(names[i])) ==> k.Existing(names) == names
  {
    if names != [] {
      ExistingOnes(k, names[1..]);
      if k.HasL(names[0]) {
        assert k.Existing(names)[1..] == k.Existing(names[1..]);
      } else {
        assert k.Existing(names) == k.Existing(names[1..]);
        if k.Existing(names) != [] {
          assert k.Existing(names)[0] in k.Existing(names);
        }
      }
    }
  }

  /** How often listener `l` is registered with broadcaster `b`. */
  function Times(k: Book, b: nat, l: nat): nat
    requires b < |k.lists|
  {
    multiset(k.lists[b])[l]
  }

  /** What each event does to each registration. */
  lemma NotedTimes(k: Book, e: Event, b: nat, l: nat)
    requires k.HasB(b) && k.HasL(l)
    ensures b < |Note(k, e).lists|
    ensures match e
            case Add(c, m) => Times(Note(k, e), b, l) == Times(k, b, l) + if c == b && m == l then 1 else 0
            case Remove(c, m) =>
              Times(Note(k, e), b, l) ==
                Times(k, b, l) - if c == b && m == l && Times(k, b, l) > 0 then 1 else 0
            case DestroyListener(m) => Times(Note(k, e), b, l) == if m == l then 0 else Times(k, b, l)
            case Broadcast(c, _) => c != b ==> Times(Note(k, e), b, l) == Times(k, b, l)
            case _ => Times(Note(k, e), b, l) == Times(k, b, l)
    ensures match e
            case NewBroadcaster => |Note(k, e).lists| == |k.lists| + 1 && Note(k, e).lists[|k.lists|] == []
            case DestroyBroadcaster(c) => Note(k, e).HasB(b) <==> c != b
            case DestroyListener(m) => Note(k, e).HasL(l) <==> m != l
            case _ => Note(k, e).HasB(b) && Note(k, e).HasL(l)
  {
    hide RemoveFirst, Without, Left, Round, Book.ExistingAll;
    match e
    case Remove(c, m) => RemovedCounts(k.lists[b], m, l);
    case DestroyListener(m) =>
      WithoutCounts(k.lists[b], m, l);
      if k.HasL(m) {
        assert Note(k, e).lists[b] == Without<nat>(k.lists[b], m);
      }
    case _ =>
  }

  lemma {:induction false} WithoutCounts(s: seq<nat>, x: nat, y: nat)
    ensures multiset(Without<nat>(s, x))[y] == if x == y then 0 else multiset(s)[y]
  {
    if s != [] {
      WithoutCounts(s[1..], x, y);
      assert s == [s[0]] + s[1..];
    }
  }

  function NoteAll(events: seq<Event>): Book {
    if events == [] then Blank else Note(NoteAll(events[..|events| - 1]), events[|events| - 1])
  }

  // ---- names and objects

  predicate Below(ns: seq<nat>, n: nat) {
    forall i :: 0 <= i < |ns| ==> ns[i] < n
  }

  predicate AllBelow(script: seq<seq<nat>>, n: nat) {
    forall i :: 0 <= i < |script| ==> Below(script[i], n)
  }

  /** The objects that these names stand for. */
  function Objects<T>(all: seq<T>, ns: seq<nat>): (r: seq<T>)
    requires Below(ns, |all|)
    ensures |r| == |ns|
  {
    seq(|ns|, i requires 0 <= i < |ns| => all[ns[i]])
  }

  function ObjectsAll<T>(all: seq<T>, script: seq<seq<nat>>): (r: seq<seq<T>>)
    requires AllBelow(script, |all|)
    ensures |r| == |script|
  {
    seq(|script|, i requires 0 <= i < |script| => Objects(all, script[i]))
  }

  lemma {:induction false} FindObject<T>(all: seq<T>, ns: seq<nat>, n: nat)
    requires Distinct(all) && Below(ns, |all|) && n < |all|
    ensures Find(Objects(all, ns), all[n]) == Find(ns, n)
  {
    if ns != [] {
      FindObject(all, ns[1..], n);
      assert Objects(all, ns)[1..] == Objects(all, ns[1..]);
    }
  }

  lemma RemoveObject<T>(all: seq<T>, ns: seq<nat>, n: nat)
    requires Distinct(all) && Below(ns, |all|) && n < |all|
    ensures Below(RemoveFirst(ns, n), |all|)
    ensures RemoveFirst(Objects(all, ns), all[n]) == Objects(all, RemoveFirst(ns, n))
    ensures all[n] in Objects(all, ns) <==> n in ns
  {
    hide Find, Distinct, Erase, Objects;
    FindObject(all, ns, n);
    FindFinds(ns, n);
    FindFinds(Objects(all, ns), all[n]);
    if n in ns {
      EraseObject(all, ns, Find(ns, n));
    }
  }

  lemma EraseObject<T>(all: seq<T>, ns: seq<nat>, i: nat)
    requires Below(ns, |all|) && i < |ns|
    ensures Below(Erase(ns, i), |all|) && Erase(Objects(all, ns), i) == Objects(all, Erase(ns, i))
  {
  }

  lemma {:induction false} WithoutObject<T>(all: seq<T>, ns: seq<nat>, n: nat)
    requires Distinct(all) && Below(ns, |all|) && n < |all|
    ensures Below(Without(ns, n), |all|) && Without(Objects(all, ns), all[n]) == Objects(all, Without(ns, n))
  {
    if ns != [] {
      WithoutObject(all, ns[1..], n);
      assert Objects(all, ns)[1..] == Objects(all, ns[1..]);
      if ns[0] != n {
        HeadObject(all, ns[0], Without(ns[1..], n));
      }
    }
  }

  lemma {:induction false} RemoveAllObjects<T>(all: seq<T>, done: seq<nat>, pending: seq<nat>, xs: seq<nat>)
    requires Distinct(all) && Below(done, |all|) && Below(pending, |all|) && Below(xs, |all|)
    ensures var r := RemoveAll(done, pending, xs);
            && Below(r.0, |all|) && Below(r.1, |all|)
            && RemoveAll(Objects(all, done), Objects(all, pending), Objects(all, xs)) ==
               (Objects(all, r.0), Objects(all, r.1))
    decreases |xs|
  {
    hide Distinct, RemoveFirst;
    if xs != [] {
      RemoveObject(all, done, xs[0]);
      RemoveObject(all, pending, xs[0]);
      assert Objects(all, xs)[1..] == Objects(all, xs[1..]);
      if xs[0] in done {
        RemoveAllObjects(all, RemoveFirst(done, xs[0]), pending, xs[1..]);
      } else {
        RemoveAllObjects(all, done, RemoveFirst(pending, xs[0]), xs[1..]);
      }
    }
  }

  /** A round over objects is the round over their names. */
  lemma {:induction false} RoundOfObjects<T>(all: seq<T>, done: seq<nat>, pending: seq<nat>, script: seq<seq<nat>>)
    requires Distinct(all) && Below(done, |all|) && Below(pending, |all|) && AllBelow(script, |all|)
    ensures Below(Round(done, pending, script), |all|) && Below(Left(done, pending, script), |all|)
    ensures Round(Objects(all, done), Objects(all, pending), ObjectsAll(all, script)) ==
            Objects(all, Round(done, pending, script))
    ensures Left(Objects(all, done), Objects(all, pending), ObjectsAll(all, script)) ==
            Objects(all, Left(done, pending, script))
    decreases |pending|
  {
    hide Distinct, RemoveAll, Round, Left;
    if pending == [] {
      RoundDone(done, script);
      RoundDone(Objects(all, done), ObjectsAll(all, script));
    } else {
      var d, p := done + [pending[0]], pending[1..];
      var r := RemoveAll(d, p, Now(script));
      RoundStep(done, pending, script);
      RoundStep(Objects(all, done), Objects(all, pending), ObjectsAll(all, script));
      RemoveAllObjects(all, d, p, Now(script));
      RoundOfObjects(all, r.0, r.1, Later(script));
      Turned(all, done, pending, script);
      HeadObject(all, pending[0], Round(r.0, r.1, Later(script)));
    }
  }

  lemma Turned<T>(all: seq<T>, done: seq<nat>, pending: seq<nat>, script: seq<seq<nat>>)
    requires Below(done, |all|) && Below(pending, |all|) && AllBelow(script, |all|) && pending != []
    ensures Objects(all, done) + [Objects(all, pending)[0]] == Objects(all, done + [pending[0]])
    ensures Objects(all, pending)[1..] == Objects(all, pending[1..])
    ensures Now(ObjectsAll(all, script)) == Objects(all, Now(script))
    ensures Later(ObjectsAll(all, script)) == ObjectsAll(all, Later(script))
  {
  }

  lemma HeadObject<T>(all: seq<T>, n: nat, ns: seq<nat>)
    requires n < |all| && Below(ns, |all|)
    ensures Below([n] + ns, |all|) && [all[n]] + Objects(all, ns) == Objects(all, [n] + ns)
  {
  }

  // ---- on objects

  /** All objects ever created, in order, those that still exist, and who has been notified. */
  datatype World = World(allBs: seq<XPCBroadcaster>, allLs: seq<XPCListener>,
                         bs: set<XPCBroadcaster>, ls: set<XPCListener>, heard: seq<seq<XPCListener>>)
  {
    predicate HasB(b: nat) { b < |allBs| && allBs[b] in bs }
    predicate HasL(l: nat) { l < |allLs| && allLs[l] in ls }

    function Named(names: seq<nat>): seq<XPCListener> {
      if names == [] then []
      else (if HasL(names[0]) then [allLs[names[0]]] else []) + Named(names[1..])
    }

    function NamedAll(script: seq<seq<nat>>): seq<seq<XPCListener>> {
      if script == [] then [] else [Named(script[0])] + NamedAll(script[1..])
    }
  }

  /** The objects `alive` are those among `all` whose numbers have not gone. */
  ghost predicate Cast<T>(all: seq<T>, alive: set<T>, n: nat, gone: set<nat>) {
    && |all| == n && Distinct(all)
    && (forall i :: 0 <= i < n ==> (all[i] in alive <==> i !in gone))
    && (forall x :: x in alive ==> x in all) && (forall i :: i in gone ==> i < n)
  }

  lemma CastGrows<T>(all: seq<T>, alive: set<T>, n: nat, gone: set<nat>, x: T)
    requires Cast(all, alive, n, gone) && x !in all
    ensures Cast(all + [x], alive + {x}, n + 1, gone)
  {
    var r := all + [x];
    assert r[n] == x && forall i :: 0 <= i < n ==> r[i] == all[i] && r[i] in all;
  }

  lemma CastShrinks<T>(all: seq<T>, alive: set<T>, n: nat, gone: set<nat>, i: nat)
    requires Cast(all, alive, n, gone) && i < n
    ensures Cast(all, alive - {all[i]}, n, gone + {i})
  {
  }

  /** The same objects exist under the same names. */
  ghost predicate SameCast(w: World, k: Book) {
    && Cast(w.allBs, w.bs, |k.lists|, k.goneBs) && Cast(w.allLs, w.ls, k.listeners, k.goneLs)
    && AllBelow(k.lists, k.listeners) && AllBelow(k.heard, k.listeners)
    && w.heard == ObjectsAll(w.allLs, k.heard)
  }

  /** The objects hold what the book says, and the registrations go both ways. */
  ghost predicate Agrees(w: World, k: Book)
    reads w.bs`listeners, w.ls`broadcasters
  {
    && SameCast(w, k) && Linked(w.bs, w.ls)
    && forall b: nat :: k.HasB(b) ==> w.allBs[b].listeners == Objects(w.allLs, k.lists[b])
  }

  lemma {:induction false} NamedObjects(w: World, k: Book, names: seq<nat>)
    requires SameCast(w, k)
    ensures Below(k.Existing(names), |w.allLs|) && w.Named(names) == Objects(w.allLs, k.Existing(names))
    ensures forall l :: l in w.Named(names) ==> l in w.ls
  {
    hide Distinct, AllBelow, ObjectsAll;
    if names != [] {
      NamedObjects(w, k, names[1..]);
    }
  }

  lemma {:induction false} NamedAllObjects(w: World, k: Book, script: seq<seq<nat>>)
    requires SameCast(w, k)
    ensures AllBelow(k.ExistingAll(script), |w.allLs|)
    ensures w.NamedAll(script) == ObjectsAll(w.allLs, k.ExistingAll(script))
    ensures forall i, l :: 0 <= i < |w.NamedAll(script)| && l in w.NamedAll(script)[i] ==> l in w.ls
  {
    hide Distinct, SameCast;
    if script != [] {
      NamedObjects(w, k, script[0]);
      NamedAllObjects(w, k, script[1..]);
    }
  }

  /** What the members of the cast are to each other. */
  lemma CastFacts(w: World, k: Book)
    requires SameCast(w, k)
    ensures |w.allBs| == |k.lists| && |w.allLs| == k.listeners && Distinct(w.allLs)
    ensures forall b: nat :: k.HasB(b) ==> w.allBs[b] in w.bs && w.HasB(b) && Below(k.lists[b], |w.allLs|)
    ensures forall b: nat, c: nat :: k.HasB(b) && k.HasB(c) && b != c ==> w.allBs[b] != w.allBs[c]
    ensures forall b: nat :: w.HasB(b) ==> k.HasB(b)
    ensures forall l: nat :: w.HasL(l) <==> k.HasL(l)
    ensures forall l: nat :: k.HasL(l) ==> l < |w.allLs|
  {
  }

  /** The cast stays when one list changes. */
  lemma ListChanges(w: World, k: Book, b: nat, ns: seq<nat>)
    requires SameCast(w, k) && k.HasB(b) && Below(ns, |w.allLs|)
    ensures SameCast(w, k.(lists := k.lists[b := ns]))
  {
    hide Distinct, ObjectsAll;
  }

  method DoAdd(w: World, b: nat, l: nat, ghost k: Book)
    requires Agrees(w, k)
    modifies w.bs, w.ls
    ensures Agrees(w, Note(k, Add(b, l)))
  {
    hide SameCast, Linked, Distinct;
    CastFacts(w, k);
    if w.HasB(b) && w.HasL(l) {
      ListChanges(w, k, b, k.lists[b] + [l]);
      assert Objects(w.allLs, k.lists[b] + [l]) == Objects(w.allLs, k.lists[b]) + [w.allLs[l]];
      w.allBs[b].AddListener(w.allLs[l], w.bs, w.ls);
      CastFacts(w, Note(k, Add(b, l)));
    }
  }

  method DoRemove(w: World, b: nat, l: nat, ghost k: Book)
    requires Agrees(w, k)
    modifies w.bs, w.ls
    ensures Agrees(w, Note(k, Remove(b, l)))
  {
    hide SameCast, Linked, Distinct, RemoveFirst, Objects, Find, XPCBroadcaster.Moved;
    CastFacts(w, k);
    if w.HasB(b) && w.HasL(l) {
      RemoveObject(w.allLs, k.lists[b], l);
      ListChanges(w, k, b, RemoveFirst(k.lists[b], l));
      w.allBs[b].RemoveListener(w.allLs[l], w.bs, w.ls);
      CastFacts(w, Note(k, Remove(b, l)));
    }
  }

  method DoBroadcast(w: World, b: nat, script: seq<seq<nat>>, ghost k: Book) returns (r: World)
    requires Agrees(w, k)
    modifies w.bs, w.ls
    ensures Agrees(r, Note(k, Broadcast(b, script))) && r.bs == w.bs && r.ls == w.ls
  {
    hide SameCast, Linked, Distinct, Round, Left, Objects, ObjectsAll, SubSequence, RemovedInTime;
    r := w;
    CastFacts(w, k);
    if w.HasB(b) {
      ghost var names := k.ExistingAll(script);
      NamedAllObjects(w, k, script);
      NoObjects(w.allLs);
      RoundOfObjects(w.allLs, [], k.lists[b], names);
      ListChanges(w, k, b, Left([], k.lists[b], names));
      var notified := w.allBs[b].BroadcastMessage(w.NamedAll(script), w.bs, w.ls);
      r := w.(heard := w.heard + [notified]);
      RoundHeard(w, k.(lists := k.lists[b := Left([], k.lists[b], names)]), Round([], k.lists[b], names));
      CastFacts(r, Note(k, Broadcast(b, script)));
    }
  }

  lemma NoObjects<T>(all: seq<T>)
    ensures Objects(all, []) == []
  {
  }

  lemma RoundHeard(w: World, k: Book, ns: seq<nat>)
    requires SameCast(w, k) && Below(ns, |w.allLs|)
    ensures SameCast(w.(heard := w.heard + [Objects(w.allLs, ns)]), k.(heard := k.heard + [ns]))
  {
    hide Distinct, Objects;
    var r, h := w.(heard := w.heard + [Objects(w.allLs, ns)]), k.heard + [ns];
    assert AllBelow(h, |w.allLs|);
    assert ObjectsAll(w.allLs, h) == ObjectsAll(w.allLs, k.heard) + [Objects(w.allLs, ns)];
    SameMembers(w, r);
  }

  lemma SameMembers(w: World, r: World)
    requires r == w.(heard := r.heard)
    ensures forall b: nat :: r.HasB(b) == w.HasB(b)
    ensures forall l: nat :: r.HasL(l) == w.HasL(l)
  {
  }

  method DoDestroyBroadcaster(w: World, b: nat, ghost k: Book) returns (r: World)
    requires Agrees(w, k)
    modifies w.bs, w.ls
    ensures Agrees(r, Note(k, DestroyBroadcaster(b))) && r.bs <= w.bs && r.ls == w.ls
  {
    hide SameCast, Linked, Distinct, Objects, Without;
    r := w;
    CastFacts(w, k);
    if w.HasB(b) {
      w.allBs[b].Destroy(w.bs, w.ls);
      r := w.(bs := w.bs - {w.allBs[b]});
      BroadcasterGone(w, k, b);
      CastFacts(r, Note(k, DestroyBroadcaster(b)));
    }
  }

  lemma BroadcasterGone(w: World, k: Book, b: nat)
    requires SameCast(w, k) && k.HasB(b) && b < |w.allBs|
    ensures SameCast(w.(bs := w.bs - {w.allBs[b]}), k.(goneBs := k.goneBs + {b}))
  {
    CastShrinks(w.allBs, w.bs, |k.lists|, k.goneBs, b);
    hide Distinct, ObjectsAll, AllBelow;
  }

  method DoDestroyListener(w: World, l: nat, ghost k: Book) returns (r: World)
    requires Agrees(w, k)
    modifies w.bs, w.ls
    ensures Agrees(r, Note(k, DestroyListener(l))) && r.bs == w.bs && r.ls <= w.ls
  {
    hide SameCast, Linked, Distinct, Objects, Without;
    r := w;
    CastFacts(w, k);
    if w.HasL(l) {
      forall b: nat | k.HasB(b)
        ensures Below(Without(k.lists[b], l), |w.allLs|)
        ensures Without(Objects(w.allLs, k.lists[b]), w.allLs[l]) == Objects(w.allLs, Without(k.lists[b], l))
      {
        WithoutObject(w.allLs, k.lists[b], l);
      }
      w.allLs[l].Destroy(w.bs, w.ls);
      r := w.(ls := w.ls - {w.allLs[l]});
      ListenerLeaves(w.bs, w.ls, w.allLs[l]);
      ListenerGone(w, k, l);
      CastFacts(r, Note(k, DestroyListener(l)));
    }
  }

  lemma ListenerGone(w: World, k: Book, l: nat)
    requires SameCast(w, k) && k.HasL(l) && l < |w.allLs|
    ensures SameCast(w.(ls := w.ls - {w.allLs[l]}), k.(goneLs := k.goneLs + {l}, lists := AllWithout(k.lists, l)))
  {
    hide Distinct, ObjectsAll, Objects;
    CastShrinks(w.allLs, w.ls, k.listeners, k.goneLs, l);
    forall i | 0 <= i < |k.lists| ensures Below(Without(k.lists[i], l), k.listeners) {
      WithoutObject(w.allLs, k.lists[i], l);
    }
  }

  lemma ListenerLeaves(bs: set<XPCBroadcaster>, ls: set<XPCListener>, l: XPCListener)
    requires Linked(bs, ls) && forall b :: b in bs ==> l !in b.listeners
    ensures Linked(bs, ls - {l})
  {
  }

  method DoNewBroadcaster(w: World, ghost k: Book) returns (r: World)
    requires Agrees(w, k)
    modifies w.bs, w.ls
    ensures Agrees(r, Note(k, NewBroadcaster)) && r.ls == w.ls && forall b :: b in r.bs ==> b in w.bs || fresh(b)
  {
    hide SameCast, Linked, Distinct, Objects;
    CastFacts(w, k);
    var b := new XPCBroadcaster();
    r := w.(allBs := w.allBs + [b], bs := w.bs + {b});
    BroadcasterEnters(w.bs, w.ls, b);
    NewB(w, k, b);
    CastFacts(r, Note(k, NewBroadcaster));
  }

  lemma BroadcasterEnters(bs: set<XPCBroadcaster>, ls: set<XPCListener>, b: XPCBroadcaster)
    requires Linked(bs, ls) && b !in bs && b.listeners == []
    ensures Linked(bs + {b}, ls)
  {
    forall l | l in ls ensures multiset(l.broadcasters)[b] == 0 {
      assert b !in l.broadcasters;
    }
  }

  lemma ListenerEnters(bs: set<XPCBroadcaster>, ls: set<XPCListener>, l: XPCListener)
    requires Linked(bs, ls) && l !in ls && l.broadcasters == []
    ensures Linked(bs, ls + {l})
  {
    forall b | b in bs ensures multiset(b.listeners)[l] == 0 {
      assert l !in b.listeners;
    }
  }

  lemma NewB(w: World, k: Book, b: XPCBroadcaster)
    requires SameCast(w, k) && b !in w.allBs
    ensures SameCast(w.(allBs := w.allBs + [b], bs := w.bs + {b}), k.(lists := k.lists + [[]]))
  {
    hide Distinct, ObjectsAll;
    CastGrows(w.allBs, w.bs, |k.lists|, k.goneBs, b);
  }

  method DoNewListener(w: World, ghost k: Book) returns (r: World)
    requires Agrees(w, k)
    modifies w.bs, w.ls
    ensures Agrees(r, Note(k, NewListener)) && r.bs == w.bs && forall l :: l in r.ls ==> l in w.ls || fresh(l)
  {
    hide SameCast, Linked, Distinct, Objects;
    CastFacts(w, k);
    var l := new XPCListener();
    r := w.(allLs := w.allLs + [l], ls := w.ls + {l});
    ListenerEnters(w.bs, w.ls, l);
    NewL(w, k, l);
    forall b: nat | k.HasB(b) ensures Objects(r.allLs, k.lists[b]) == Objects(w.allLs, k.lists[b]) {
      MoreObjects(w.allLs, l, k.lists[b]);
    }
    CastFacts(r, Note(k, NewListener));
  }

  lemma MoreObjects<T>(all: seq<T>, x: T, ns: seq<nat>)
    requires Below(ns, |all|)
    ensures Below(ns, |all + [x]|) && Objects(all + [x], ns) == Objects(all, ns)
  {
  }

  lemma NewL(w: World, k: Book, l: XPCListener)
    requires SameCast(w, k) && l !in w.allLs
    ensures SameCast(w.(allLs := w.allLs + [l], ls := w.ls + {l}), k.(listeners := k.listeners + 1))
  {
    hide Distinct, Objects;
    CastGrows(w.allLs, w.ls, k.listeners, k.goneLs, l);
    forall i | 0 <= i < |k.heard| ensures Objects(w.allLs + [l], k.heard[i]) == Objects(w.allLs, k.heard[i]) {
      MoreObjects(w.allLs, l, k.heard[i]);
    }
  }

  method Happen(w: World, e: Event, ghost k: Book) returns (r: World)
    requires Agrees(w, k)
    modifies w.bs, w.ls
    ensures Agrees(r, Note(k, e))
    ensures (forall b :: b in r.bs ==> b in w.bs || fresh(b)) && forall l :: l in r.ls ==> l in w.ls || fresh(l)
  {
    hide Agrees, Note;
    r := w;
    match e
    case NewBroadcaster => r := DoNewBroadcaster(w, k);
    case NewListener => r := DoNewListener(w, k);
    case Add(b, l) => DoAdd(w, b, l, k);
    case Remove(b, l) => DoRemove(w, b, l, k);
    case Broadcast(b, script) => r := DoBroadcast(w, b, script, k);
    case DestroyBroadcaster(b) => r := DoDestroyBroadcaster(w, b, k);
    case DestroyListener(l) => r := DoDestroyListener(w, l, k);
  }

  /** After any sequence of creations, adds, removes, broadcasts (with removals from inside them) and
      destructions, every existing broadcaster holds the listeners that the book says, in order; a
      listener occurs in a broadcaster's list as often as the broadcaster in the listener's; nobody refers
      to an object that has been destroyed; and every broadcast has notified whom its round says. */
  method Life(events: seq<Event>) returns (w: World)
    ensures Agrees(w, NoteAll(events))
  {
    hide Note;
    w := World([], [], {}, {}, []);
    for i := 0 to |events|
      invariant Agrees(w, NoteAll(events[..i]))
      invariant (forall b :: b in w.bs ==> fresh(b)) && forall l :: l in w.ls ==> fresh(l)
    {
      assert events[..i + 1][..i] == events[..i] && events[..i + 1][i] == events[i];
      w := Happen(w, events[i], NoteAll(events[..i]));
    }
    assert events[..|events|] == events;
  }
}
