/** The queue that src/utils.c promises: at most 64 texts, the oldest dropped for a new one, and
    every history of it. */
module Fifo {
  import opened Options

  const CAP: nat := 64
  const MAX_TEXT: nat := 4096

  /** A C string: the characters before its terminator. */
  type CString = s: string | '\0' !in s

  /** `strnlen` and `memcpy`: the text itself, or its first 4096 characters. */
  function Cut(text: CString): (c: CString)
    ensures c <= text && |c| == if |text| < 4096 then |text| else 4096
  {
    if |text| <= MAX_TEXT then text else text[..MAX_TEXT]
  }

  /** Appending to a queue that drops its oldest element when full. */
  function Append<T>(q: seq<T>, x: T): seq<T> {
    (if |q| == CAP then q[1..] else q) + [x]
  }

  datatype Op = Push(text: CString, memory: bool) | Pop | Stop

  /** A queue with its past. Accepted texts are numbered from 0; `queue` and `delivered` hold such
      numbers, and an eviction is the pair of the dropped text and the one it was dropped for. */
  datatype History = History(accepted: seq<CString>, queue: seq<nat>, delivered: seq<nat>,
                             evicted: seq<(nat, nat)>, stop: bool)

  const Start := History([], [], [], [], false)

  /** Refused: no text, no memory, or the queue has been stopped. */
  predicate Refused(h: History, op: Op) {
    op.Push? && (op.text == "" || !op.memory || h.stop)
  }

  function Apply(h: History, op: Op): History {
    match op
    case Push(text, _) =>
      if Refused(h, op) then h
      else
        var i := |h.accepted|;
        h.(accepted := h.accepted + [Cut(text)],
           queue := Append<nat>(h.queue, i),
           evicted := if |h.queue| == CAP then h.evicted + [(h.queue[0], i)] else h.evicted)
    case Pop => if h.queue == [] then h else h.(queue := h.queue[1..], delivered := h.delivered + [h.queue[0]])
    case Stop => h.(stop := true)
  }

  function Replay(ops: seq<Op>): History {
    if ops == [] then Start else Apply(Replay(ops[..|ops| - 1]), ops[|ops| - 1])
  }

  // ---- what every history satisfies

  /** The queue holds the last accepted texts, in order. */
  predicate HoldsTheLast(h: History) {
    && |h.queue| <= 64 && |h.queue| <= |h.accepted|
    && forall k :: 0 <= k < |h.queue| ==> h.queue[k] == |h.accepted| - |h.queue| + k
  }

  /** Delivery follows acceptance. */
  predicate DeliversInOrder(h: History) {
    && (forall i, j :: 0 <= i < j < |h.delivered| ==> h.delivered[i] < h.delivered[j])
    && (forall i :: 0 <= i < |h.delivered| ==> h.delivered[i] + |h.queue| < |h.accepted|)
  }

  /** Text i is dropped only at the acceptance of text i + 64. */
  predicate EvictsAtCapacity(h: History) {
    forall e :: e in h.evicted ==> e.1 == e.0 + 64 && e.1 < |h.accepted|
  }

  function Victims(evicted: seq<(nat, nat)>): multiset<nat> {
    if evicted == [] then multiset{} else Victims(evicted[..|evicted| - 1]) + multiset{evicted[|evicted| - 1].0}
  }

  /** How often text i has been delivered, dropped, or is still queued. */
  function Fate(h: History, i: nat): nat {
    multiset(h.delivered)[i] + Victims(h.evicted)[i] + multiset(h.queue)[i]
  }

  /** Every accepted text has exactly one fate, and nothing else has any. */
  ghost predicate Conserves(h: History) {
    forall i: nat :: Fate(h, i) == if i < |h.accepted| then 1 else 0
  }

  ghost predicate Sound(h: History) {
    HoldsTheLast(h) && DeliversInOrder(h) && EvictsAtCapacity(h) && Conserves(h)
  }

  lemma AcceptKeepsOrder(h: History, op: Op)
    requires HoldsTheLast(h) && DeliversInOrder(h) && EvictsAtCapacity(h)
    ensures var r := Apply(h, op); HoldsTheLast(r) && DeliversInOrder(r) && EvictsAtCapacity(r)
  {
  }

  lemma AppendCounts(q: seq<nat>, x: nat, i: nat)
    ensures multiset(Append<nat>(q, x))[i] + (if |q| == CAP && q[0] == i then 1 else 0) ==
            multiset(q)[i] + if x == i then 1 else 0
  {
    if |q| == CAP {
      assert q == [q[0]] + q[1..];
    }
  }

  lemma VictimsCount(evicted: seq<(nat, nat)>, e: (nat, nat), i: nat)
    ensures Victims(evicted + [e])[i] == Victims(evicted)[i] + if e.0 == i then 1 else 0
  {
    assert (evicted + [e])[..|evicted|] == evicted;
  }

  lemma AcceptKeepsFates(h: History, op: Op)
    requires HoldsTheLast(h) && Conserves(h)
    ensures Conserves(Apply(h, op))
  {
    var r := Apply(h, op);
    hide Append, Victims;
    forall i: nat ensures Fate(r, i) == if i < |r.accepted| then 1 else 0 {
      assert Fate(h, i) == if i < |h.accepted| then 1 else 0;
      if op.Push? && !Refused(h, op) {
        AppendCounts(h.queue, |h.accepted|, i);
        if |h.queue| == CAP {
          VictimsCount(h.evicted, (h.queue[0], |h.accepted|), i);
        }
      } else if op.Pop? && h.queue != [] {
        assert h.queue == [h.queue[0]] + h.queue[1..];
      }
    }
  }

  /** Over all histories: the queue holds the last accepted texts; deliveries are an increasing
      subsequence of them; a text is dropped only when the 64th after it is accepted; and none is
      lost or duplicated. */
  lemma {:induction false} EveryHistoryIsSound(ops: seq<Op>)
    ensures Sound(Replay(ops))
  {
    if ops != [] {
      EveryHistoryIsSound(ops[..|ops| - 1]);
      AcceptKeepsOrder(Replay(ops[..|ops| - 1]), ops[|ops| - 1]);
      AcceptKeepsFates(Replay(ops[..|ops| - 1]), ops[|ops| - 1]);
    }
  }

  /** The texts in the queue. */
  function Texts(h: History): seq<CString>
    requires HoldsTheLast(h)
  {
    h.accepted[|h.accepted| - |h.queue|..]
  }

  /** On texts, a push appends the cut text and drops the oldest of 64; a pop takes the oldest. */
  lemma TextsStep(h: History, op: Op)
    requires Sound(h)
    ensures HoldsTheLast(Apply(h, op))
    ensures var t, t' := Texts(h), Texts(Apply(h, op));
            match op
            case Push(text, _) => t' == if Refused(h, op) then t else Append(t, Cut(text))
            case Pop => t' == if t == [] then t else t[1..]
            case Stop => t' == t
  {
    hide Conserves, EvictsAtCapacity, DeliversInOrder, Victims, Cut, Append;
    AcceptKeepsOrder(h, op);
    if op.Push? && !Refused(h, op) {
      AppendToLast(h.accepted, |h.queue|, Cut(op.text));
      AppendSize<nat>(h.queue, |h.accepted|);
    }
  }

  lemma AppendSize<T>(q: seq<T>, x: T)
    ensures |Append(q, x)| == if |q| == CAP then CAP else |q| + 1
  {
  }

  /** The last n of a sequence, dropping the first of 64 for a new one. */
  lemma AppendToLast<T>(all: seq<T>, n: nat, x: T)
    requires n <= |all| && n <= CAP
    ensures (all + [x])[|all| + 1 - (if n == CAP then CAP else n + 1)..] == Append(all[|all| - n..], x)
  {
  }

  /** After a stop nothing is accepted any more. */
  lemma {:induction false} NothingAcceptedAfterStop(ops: seq<Op>, more: seq<Op>)
    requires Replay(ops).stop
    ensures Replay(ops + more).stop && Replay(ops + more).accepted == Replay(ops).accepted
    decreases |more|
  {
    var all, k := ops + more, |more|;
    if k == 0 {
      assert all == ops;
    } else {
      NothingAcceptedAfterStop(ops, more[..k - 1]);
      assert all[..|all| - 1] == ops + more[..k - 1] && all[|all| - 1] == more[k - 1];
    }
  }
}
