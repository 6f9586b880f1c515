/** The ring buffer of src/utils.c and the heap its texts live in. Each method is one critical
    section of the source; waiting for the condition variable is modelled in `WorkerProtocol`. */
module SpeechQueue {
  import opened Fifo
  import opened Options

  type Ptr = nat
  type Slots = s: seq<Option<Ptr>> | |s| == CAP witness seq(CAP, _ => None)

  // ---- the ring

  /** The k-th slot from `head` on. */
  function Slot(head: nat, k: nat): (i: nat)
    ensures i < CAP
  {
    (head + k) % CAP
  }

  /** Slot i is one of the `count` slots from `head` on. */
  predicate InWindow(head: nat, count: nat, i: nat)
    requires head < CAP && i < CAP
  {
    (i + CAP - head) % CAP < count
  }

  /** The indices fit together, and a slot is non-NULL exactly inside the window. */
  predicate Ring(items: Slots, head: nat, tail: nat, count: nat) {
    && head < CAP && count <= CAP && tail == (head + count) % CAP
    && forall i :: 0 <= i < CAP ==> (items[i].Some? <==> InWindow(head, count, i))
  }

  /** The same in numbers: the k-th slot from `head` on is filled exactly when k is below `count`, and then it
      holds the k-th pointer. */
  lemma RingSpelled(items: Slots, head: nat, tail: nat, count: nat, i: nat, k: nat)
    requires Ring(items, head, tail, count) && k < 64 && i == (head + k) % 64
    ensures |items| == 64 && head < 64 && count <= 64 && tail == (head + count) % 64
    ensures items[i].Some? <==> k < count
    ensures k < count ==> Queued(items, head, tail, count)[k] == items[i].value
  {
    assert (i + 64 - head) % 64 == k;
  }

  lemma SlotInWindow(head: nat, count: nat, k: nat)
    requires head < CAP && count <= CAP && k < count
    ensures InWindow(head, count, Slot(head, k))
  {
  }

  /** The pointers in the window, oldest first. */
  function Queued(items: Slots, head: nat, tail: nat, count: nat): (q: seq<Ptr>)
    requires Ring(items, head, tail, count)
    ensures |q| == count
  {
    seq(count, k requires 0 <= k < count => SlotInWindow(head, count, k); items[Slot(head, k)].value)
  }

  lemma WindowDrops(head: nat, count: nat, i: nat)
    requires head < CAP && i < CAP && 0 < count <= CAP
    ensures InWindow((head + 1) % CAP, count - 1, i) <==> InWindow(head, count, i) && i != head
  {
  }

  lemma WindowGrows(head: nat, count: nat, i: nat)
    requires head < CAP && i < CAP && count < CAP
    ensures InWindow(head, count + 1, i) <==> InWindow(head, count, i) || i == (head + count) % CAP
  {
  }

  lemma SlotShift(head: nat, k: nat)
    requires head < CAP && k + 1 < CAP
    ensures Slot((head + 1) % CAP, k) == Slot(head, k + 1) != head
  {
    hide Slot;
    SlotValue(head, k + 1);
    if head + 1 == CAP {
      SlotValue(0, k);
    } else {
      SlotValue(head + 1, k);
    }
  }

  lemma SlotValue(head: nat, k: nat)
    requires head < CAP && k < CAP
    ensures Slot(head, k) == if head + k < CAP then head + k else head + k - CAP
  {
  }

  lemma RingDrop(items: Slots, head: nat, tail: nat, count: nat)
    requires Ring(items, head, tail, count) && count > 0
    ensures var items', head' := items[head := None], (head + 1) % CAP;
            Ring(items', head', tail, count - 1) &&
            Queued(items', head', tail, count - 1) == Queued(items, head, tail, count)[1..]
  {
    var items', head' := items[head := None], (head + 1) % CAP;
    hide InWindow, Slot;
    forall i | 0 <= i < CAP ensures items'[i].Some? <==> InWindow(head', count - 1, i) {
      WindowDrops(head, count, i);
    }
    assert tail == (head' + (count - 1)) % CAP;
    var q, q' := Queued(items, head, tail, count), Queued(items', head', tail, count - 1);
    forall k | 0 <= k < count - 1 ensures q'[k] == q[k + 1] {
      SlotShift(head, k);
    }
  }

  lemma RingAdd(items: Slots, head: nat, tail: nat, count: nat, p: Ptr)
    requires Ring(items, head, tail, count) && count < CAP
    ensures var items', tail' := items[tail := Some(p)], (tail + 1) % CAP;
            Ring(items', head, tail', count + 1) &&
            Queued(items', head, tail', count + 1) == Queued(items, head, tail, count) + [p]
  {
    var items', tail' := items[tail := Some(p)], (tail + 1) % CAP;
    hide InWindow;
    forall i | 0 <= i < CAP ensures items'[i].Some? <==> InWindow(head, count + 1, i) {
      WindowGrows(head, count, i);
    }
    assert Ring(items', head, tail', count + 1);
    var q, q' := Queued(items, head, tail, count), Queued(items', head, tail', count + 1);
    forall k | 0 <= k < count ensures q'[k] == q[k] {
      assert Slot(head, k) != tail;
    }
  }

  // ---- the heap

  /** Allocated blocks are numbered in order; `live` are those not freed. A block that is not live is
      never read nor freed again: both need it live. */
  class Heap {
    var live: map<Ptr, CString>
    var next: nat

    ghost predicate Valid()
      reads this
    {
      forall p :: p in live ==> p < next
    }

    constructor ()
      ensures Valid() && live == map[] && next == 0
    {
      live := map[];
      next := 0;
    }

    /** `malloc` and the copy into the block; `memory` tells whether there is any. */
    method Malloc(text: CString, memory: bool) returns (p: Option<Ptr>)
      requires Valid()
      modifies this
      ensures Valid()
      ensures memory ==> p == Some(old(next)) && next == old(next) + 1 && live == old(live)[old(next) := text]
      ensures !memory ==> p == None && next == old(next) && live == old(live)
    {
      if !memory {
        return None;
      }
      p := Some(next);
      live := live[next := text];
      next := next + 1;
    }

    method Free(p: Ptr)
      requires Valid() && p in live
      modifies this`live
      ensures Valid() && live == old(live) - {p}
    {
      live := live - {p};
    }
  }

  // ---- the queue

  function Elements(q: seq<Ptr>): set<Ptr> {
    set p | p in q
  }

  ghost predicate Distinct(q: seq<Ptr>) {
    forall i, j :: 0 <= i < j < |q| ==> q[i] != q[j]
  }

  function TextsOf(q: seq<Ptr>, live: map<Ptr, CString>): (t: seq<CString>)
    requires forall p :: p in q ==> p in live
    ensures |t| == |q|
  {
    seq(|q|, i requires 0 <= i < |q| => live[q[i]])
  }

  class TtsQueue {
    const heap: Heap
    const items: array<Option<Ptr>>
    var head: nat
    var tail: nat
    var count: nat
    var stop: bool

    ghost predicate Shape()
      reads this, items
    {
      items.Length == CAP && Ring(items[..], head, tail, count)
    }

    ghost function Pointers(): (q: seq<Ptr>)
      requires Shape()
      reads this, items
    {
      Queued(items[..], head, tail, count)
    }

    /** The queue owns its pointers: they are live and distinct, and the live blocks are these and
        the `others`, which somebody else (the worker) holds. */
    ghost predicate Owns(others: set<Ptr>)
      reads this, items, heap
    {
      && Shape() && heap.Valid()
      && Distinct(Pointers()) && Elements(Pointers()) !! others
      && heap.live.Keys == Elements(Pointers()) + others
    }

    ghost function Contents(): seq<CString>
      requires Shape() && forall p :: p in Pointers() ==> p in heap.live
      reads this, items, heap
    {
      TextsOf(Pointers(), heap.live)
    }

    /** `queue_init`. */
    constructor (heap: Heap)
      requires heap.Valid() && heap.live == map[]
      ensures this.heap == heap && fresh(items) && !stop
      ensures Owns({}) && Pointers() == []
    {
      this.heap := heap;
      items := new Option<Ptr>[CAP](_ => None);
      head, tail, count := 0, 0, 0;
      stop := false;
    }

    /** `queue_stop`. */
    method Stop(ghost others: set<Ptr>)
      requires Owns(others)
      modifies this`stop
      ensures stop && Owns(others) && Pointers() == old(Pointers())
    {
      stop := true;
    }

    /** The slots change as `RingDrop` says; the pointer is handed out. */
    method TakeHead() returns (p: Ptr)
      requires Shape() && count > 0
      modifies this`head, this`count, items
      ensures Shape() && p == old(Pointers())[0] && Pointers() == old(Pointers())[1..]
      ensures count == old(count) - 1
    {
      hide InWindow;
      ghost var s: Slots := items[..];
      RingDrop(s, head, tail, count);
      SlotInWindow(head, count, 0);
      p := items[head].value;
      items[head] := None;
      assert items[..] == s[head := None];
      head := (head + 1) % CAP;
      count := count - 1;
    }

    method PutTail(p: Ptr)
      requires Shape() && count < CAP
      modifies this`tail, this`count, items
      ensures Shape() && Pointers() == old(Pointers()) + [p]
    {
      hide InWindow;
      ghost var s: Slots := items[..];
      RingAdd(s, head, tail, count, p);
      items[tail] := Some(p);
      assert items[..] == s[tail := Some(p)];
      tail := (tail + 1) % CAP;
      count := count + 1;
    }

    /** `queue_push`; `None` is a NULL text, `memory` the answer of `malloc`. A new text is cut and
        appended, and the oldest of 64 is dropped and freed; after a stop the fresh copy is freed. */
    method Push(text: Option<CString>, memory: bool, ghost others: set<Ptr>)
      requires Owns(others)
      modifies this, items, heap
      ensures Owns(others) && stop == old(stop)
      ensures text == None || text.value == "" || !memory ==>
                Pointers() == old(Pointers()) && heap.next == old(heap.next) && heap.live == old(heap.live)
      ensures text.Some? && text.value != "" && memory ==> heap.next == old(heap.next) + 1
      ensures text.Some? && text.value != "" && memory && stop ==>
                Pointers() == old(Pointers()) && heap.live == old(heap.live)
      ensures text.Some? && text.value != "" && memory && !stop ==>
                && Pointers() == Append(old(Pointers()), old(heap.next))
                && Contents() == Append(old(Contents()), Cut(text.value))
                && forall p :: p in others ==> heap.live[p] == old(heap.live)[p]
      ensures text.Some? && text.value != "" && memory && !stop ==> Accepted(old(Contents()), Contents(), text.value)
    {
      hide Accepted, InWindow;
      if text.None? || text.value == "" {
        return;
      }
      var copy := heap.Malloc(Cut(text.value), memory);
      if copy.None? {
        return;
      }
      if stop {
        heap.Free(copy.value);
        assert heap.live == old(heap.live);
        return;
      }
      ghost var q := Pointers();
      ghost var live := old(heap.live);
      if count == CAP {
        var oldest := TakeHead();
        heap.Free(oldest);
      }
      PutTail(copy.value);
      PushOwns(q, live, copy.value, Cut(text.value), others);
      assert heap.live == PushLive(q, live, copy.value, Cut(text.value));
      AppendAccepts(old(Contents()), text.value);
    }

    /** `queue_pop` once its wait is over: there is an item, or the queue has been stopped. */
    method Pop(ghost others: set<Ptr>) returns (item: Option<Ptr>)
      requires Owns(others) && (count > 0 || stop)
      modifies this`head, this`count, items
      ensures old(Pointers()) == [] ==> item == None && Owns(others) && Pointers() == []
      ensures old(Pointers()) != [] ==>
                && item == Some(old(Pointers())[0]) && item.value !in others
                && Owns(others + {item.value}) && Pointers() == old(Pointers())[1..]
    {
      if count > 0 {
        ghost var q := Pointers();
        var p := TakeHead();
        HeadTail(q);
        item := Some(p);
      } else {
        item := None;
      }
    }

    /** `queue_destroy`: what is still queued is freed, and the structure is zeroed. */
    method Destroy(ghost others: set<Ptr>)
      requires Owns(others)
      modifies this, items, heap`live
      ensures Owns(others) && Pointers() == [] && !stop
      ensures heap.live.Keys == others && forall p :: p in others ==> heap.live[p] == old(heap.live)[p]
    {
      hide Slot, Elements, InWindow;
      ghost var q := Pointers();
      assert q[0..] == q;
      AllRest(others);
      for i := 0 to count
        invariant count == |q| <= CAP && Rest(q[i..], others, i)
        invariant forall p :: p in others ==> heap.live[p] == old(heap.live)[p]
      {
        assert q[i..][1..] == q[i + 1..];
        FreeSlot(i, q[i..], others);
      }
      Zero();
      NoElements(q[|q|..]);
    }

    /** `rest` are the pointers in the slots from the i-th of the window on, and still live. */
    ghost predicate Rest(rest: seq<Ptr>, others: set<Ptr>, i: nat)
      reads this, items, heap
    {
      && head < CAP && items.Length == CAP && i + |rest| <= CAP && heap.Valid()
      && (forall k :: i <= k < i + |rest| ==> items[Slot(head, k)] == Some(rest[k - i]))
      && Distinct(rest) && Elements(rest) !! others && heap.live.Keys == Elements(rest) + others
    }

    lemma AllRest(others: set<Ptr>)
      requires Owns(others)
      ensures Rest(Pointers(), others, 0)
    {
      hide InWindow, Slot, Elements;
      forall k | 0 <= k < count ensures items[Slot(head, k)] == Some(Pointers()[k]) {
        SlotInWindow(head, count, k);
      }
    }

    method FreeSlot(i: nat, ghost rest: seq<Ptr>, ghost others: set<Ptr>)
      requires rest != [] && Rest(rest, others, i)
      modifies items, heap`live
      ensures Rest(rest[1..], others, i + 1)
      ensures forall p :: p in others ==> heap.live[p] == old(heap.live)[p]
    {
      hide Slot, Elements;
      HeadTail(rest);
      NotElsewhere(rest, others);
      forall k | i < k < i + |rest| ensures Slot(head, k) != Slot(head, i) {
        SlotsDiffer(head, i, k);
      }
      var idx := Slot(head, i);
      heap.Free(items[idx].value);
      items[idx] := None;
    }

    /** `memset` of the whole structure. */
    method Zero()
      requires items.Length == CAP
      modifies this, items
      ensures Shape() && Pointers() == [] && !stop
    {
      for i := 0 to CAP
        invariant forall k :: 0 <= k < i ==> items[k] == None
      {
        items[i] := None;
      }
      head, tail, count, stop := 0, 0, 0, false;
    }
  }

  lemma NotElsewhere(q: seq<Ptr>, others: set<Ptr>)
    requires q != [] && Distinct(q) && Elements(q) !! others
    ensures q[0] in Elements(q) && Elements(q[1..]) !! others
    ensures Elements(q) + others - {q[0]} == Elements(q[1..]) + others
  {
    HeadTail(q);
    assert forall p :: p in Elements(q[1..]) ==> p in q[1..];
  }

  lemma NoElements(q: seq<Ptr>)
    requires q == []
    ensures Elements(q) == {}
  {
  }

  lemma SlotsDiffer(head: nat, i: nat, j: nat)
    requires head < CAP && i < j < CAP
    ensures Slot(head, i) != Slot(head, j)
  {
    hide Slot;
    SlotValue(head, i);
    SlotValue(head, j);
  }

  /** What a queue holds after accepting a text: what it held, without the oldest of 64, and then the text,
      or its first 4096 characters. */
  predicate Accepted(was: seq<CString>, now: seq<CString>, text: CString) {
    && |now| > 0 && now[..|now| - 1] == (if |was| == 64 then was[1..] else was)
    && var last := now[|now| - 1];
       last <= text && |last| == if |text| < 4096 then |text| else 4096
  }

  lemma AppendAccepts(was: seq<CString>, text: CString)
    ensures Accepted(was, Append(was, Cut(text)), text)
  {
    hide Cut;
  }

  lemma HeadTail(q: seq<Ptr>)
    requires q != [] && Distinct(q)
    ensures Distinct(q[1..]) && q[0] !in q[1..] && Elements(q) == {q[0]} + Elements(q[1..])
  {
    assert q == [q[0]] + q[1..];
  }

  /** The live blocks after a push of the fresh block `p` holding `text`. */
  function PushLive(q: seq<Ptr>, live: map<Ptr, CString>, p: Ptr, text: CString): map<Ptr, CString> {
    if |q| == CAP then live[p := text] - {q[0]} else live[p := text]
  }

  lemma PushOwns(q: seq<Ptr>, live: map<Ptr, CString>, p: Ptr, text: CString, others: set<Ptr>)
    requires Distinct(q) && |q| <= CAP && Elements(q) !! others && live.Keys == Elements(q) + others && p !in live
    ensures var q', live' := Append(q, p), PushLive(q, live, p, text);
            && Distinct(q') && Elements(q') !! others && live'.Keys == Elements(q') + others
            && TextsOf(q', live') == Append(TextsOf(q, live), text)
            && forall x :: x in others ==> live'[x] == live[x]
  {
    var q' := Append(q, p);
    assert forall x :: x in q ==> x in Elements(q);
    if |q| == CAP {
      HeadTail(q);
      assert Elements(q') == Elements(q[1..]) + {p};
    } else {
      assert Elements(q') == Elements(q) + {p};
    }
  }

  // ---- the ring over whole histories

  /** What has been delivered, as texts. */
  function DeliveredTexts(h: History): seq<CString>
    requires DeliversInOrder(h)
  {
    seq(|h.delivered|, k requires 0 <= k < |h.delivered| => h.accepted[h.delivered[k]])
  }

  /** The queue object is in the state that the history `h` describes, and owns every live block. */
  ghost predicate Mirrors(q: TtsQueue, h: History)
    reads q, q.items, q.heap
  {
    && Sound(h) && q.Owns({}) && q.stop == h.stop
    && q.Contents() == Texts(h)
  }

  lemma MirrorStep(h: History, op: Op)
    requires Sound(h)
    ensures Sound(Apply(h, op))
    ensures var d, d' := DeliveredTexts(h), DeliveredTexts(Apply(h, op));
            d' == if op.Pop? && h.queue != [] then d + [Texts(h)[0]] else d
  {
    AcceptKeepsOrder(h, op);
    AcceptKeepsFates(h, op);
    hide Conserves, EvictsAtCapacity;
    var d, d' := DeliveredTexts(h), DeliveredTexts(Apply(h, op));
    if op.Pop? && h.queue != [] {
      assert h.queue[0] == |h.accepted| - |h.queue|;
    }
  }

  /** How many texts are copied: every push of a text for which there is memory, also after a stop. */
  function Copies(ops: seq<Op>): nat {
    if ops == [] then 0 else Copies(ops[..|ops| - 1]) + CopiesOf(ops[|ops| - 1])
  }

  function CopiesOf(op: Op): nat {
    if op.Push? && op.text != "" && op.memory then 1 else 0
  }

  /** Any sequence of pushes, pops and a stop, performed by the ring: it delivers what the drop-oldest
      queue delivers; a block has been allocated for each copied text, and once the queue is destroyed all
      of them have been freed. A pop that would wait is not performed; a delivered text is freed by its
      receiver. */
  method Serve(ops: seq<Op>) returns (delivered: seq<CString>, heap: Heap)
    ensures Sound(Replay(ops)) && delivered == DeliveredTexts(Replay(ops))
    ensures heap.Valid() && heap.next == Copies(ops) && heap.live == map[]
  {
    heap := new Heap();
    var q := new TtsQueue(heap);
    delivered := [];
    EveryHistoryIsSound([]);
    for i := 0 to |ops|
      invariant q.heap == heap && fresh(heap) && fresh(q) && fresh(q.items)
      invariant Mirrors(q, Replay(ops[..i]))
      invariant delivered == DeliveredTexts(Replay(ops[..i])) && heap.next == Copies(ops[..i])
    {
      assert ops[..i + 1][..|ops[..i + 1]| - 1] == ops[..i] && ops[..i + 1][i] == ops[i];
      var text := Perform(q, ops[i], Replay(ops[..i]));
      delivered := delivered + text;
    }
    assert ops[..|ops|] == ops;
    q.Destroy({});
  }

  method Perform(q: TtsQueue, op: Op, ghost h: History) returns (text: seq<CString>)
    requires Mirrors(q, h)
    modifies q, q.items, q.heap
    ensures Mirrors(q, Apply(h, op))
    ensures DeliveredTexts(Apply(h, op)) == DeliveredTexts(h) + text
    ensures q.heap.next == old(q.heap.next) + CopiesOf(op)
  {
    text := [];
    MirrorStep(h, op);
    TextsStep(h, op);
    hide Sound, Append, Cut, Accepted;
    match op
    case Push(t, memory) =>
      q.Push(Some(t), memory, {});
    case Stop =>
      q.Stop({});
    case Pop =>
      text := Deliver(q);
  }

  /** The worker's turn: take an item, use it, free it. */
  method Deliver(q: TtsQueue) returns (text: seq<CString>)
    requires q.Owns({})
    modifies q, q.items, q.heap
    ensures q.Owns({}) && q.stop == old(q.stop) && q.heap.next == old(q.heap.next)
    ensures if old(q.Contents()) == [] then text == [] && q.Contents() == []
            else text == [old(q.Contents())[0]] && q.Contents() == old(q.Contents())[1..]
  {
    text := [];
    if q.count == 0 && !q.stop {
      return;
    }
    ghost var ptrs, live := q.Pointers(), q.heap.live;
    var item := q.Pop({});
    if item.Some? {
      text := [q.heap.live[item.value]];
      HeadTail(ptrs);
      q.heap.Free(item.value);
      TailTexts(ptrs, live);
    }
  }

  lemma TailTexts(q: seq<Ptr>, live: map<Ptr, CString>)
    requires q != [] && Distinct(q) && forall p :: p in q ==> p in live
    ensures forall p :: p in q[1..] ==> p in live - {q[0]}
    ensures TextsOf(q[1..], live - {q[0]}) == TextsOf(q, live)[1..]
  {
    HeadTail(q);
    assert forall i :: 0 <= i < |q[1..]| ==> q[1..][i] in q[1..];
  }
}
