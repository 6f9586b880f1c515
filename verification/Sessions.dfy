/** Whole sessions of the speech service: any sequence of calls, worker turns and failures, and what has
    been spoken in the end. */
module Sessions {
  import opened Commands
  import opened Fifo
  import opened Options
  import opened Speech
  import opened SpeechQueue
  import opened Tokens

  /** What can happen: calls from the main thread with the answers of the system, and the worker's
      turns in between. */
  datatype Event = Init(env: Environment, answers: seq<bool>, speechdOpens: bool, threadStarts: bool)
                 | Say(str: Option<CString>, memory: bool) | Take | Speak(fallback: bool)
                 | Close(fallbacks: seq<bool>)

  // ---- what a session amounts to

  /** `backend` is that of the last successful init, `ops` what has been done to the queue since, `holds`
      whether the worker holds a text, `past` the operations of the cycles that have ended, and `copies`
      how many texts have been copied. */
  datatype Story = Story(ready: bool, backend: Backend, ops: seq<Op>, holds: bool, past: seq<seq<Op>>, copies: nat)

  const Beginning := Story(false, NoBackend, [], false, [], 0)

  function Pops(n: nat): seq<Op> {
    if n == 0 then [] else Pops(n - 1) + [Pop]
  }

  /** A stop, and a pop for every text that is still queued. */
  function Drained(ops: seq<Op>): seq<Op> {
    ops + [Stop] + Pops(|Replay(ops).queue|)
  }

  /** `speech_init` succeeds: there is a backend and the worker starts. */
  predicate Starts(useSpeechd: bool, e: Event)
    requires e.Init?
  {
    e.threadStarts && Chosen(useSpeechd, e.env, e.answers, e.speechdOpens) != NoBackend
  }

  /** One event on the story. */
  function Tell(useSpeechd: bool, t: Story, e: Event): Story {
    match e
    case Init(env, answers, speechdOpens, _) =>
      if !t.ready && Starts(useSpeechd, e) then
        t.(ready := true, backend := Chosen(useSpeechd, env, answers, speechdOpens), ops := [], holds := false)
      else t
    case Say(str, memory) =>
      if t.ready && str.Some? then
        t.(ops := t.ops + [Push(str.value, memory)],
           copies := t.copies + CopiesOf(Push(str.value, memory)))
      else t
    case Take =>
      if t.ready && !t.holds && Replay(t.ops).queue != [] then t.(ops := t.ops + [Pop], holds := true) else t
    case Speak(_) => t.(holds := false)
    case Close(_) =>
      if t.ready then
        t.(ready := false, backend := NoBackend, ops := [], holds := false, past := t.past + [Drained(t.ops)])
      else t
  }

  function TellAll(useSpeechd: bool, events: seq<Event>): Story {
    var n := |events|;
    if n == 0 then Beginning else Tell(useSpeechd, TellAll(useSpeechd, events[..n - 1]), events[n - 1])
  }

  /** The texts that a drop-oldest queue delivers under these operations. */
  function Delivered(ops: seq<Op>): seq<CString> {
    EveryHistoryIsSound(ops);
    DeliveredTexts(Replay(ops))
  }

  function DeliveredBy(runs: seq<seq<Op>>): seq<CString> {
    if runs == [] then [] else DeliveredBy(runs[..|runs| - 1]) + Delivered(runs[|runs| - 1])
  }

  lemma OneMore(ops: seq<Op>, op: Op)
    ensures Sound(Replay(ops)) && Sound(Replay(ops + [op])) && Replay(ops + [op]) == Apply(Replay(ops), op)
    ensures var h := Replay(ops);
            Delivered(ops + [op]) == if op.Pop? && h.queue != [] then Delivered(ops) + [Texts(h)[0]] else Delivered(ops)
  {
    hide Sound, Apply;
    EveryHistoryIsSound(ops);
    assert (ops + [op])[..|ops|] == ops;
    MirrorStep(Replay(ops), op);
  }

  /** Draining delivers everything that is queued, in order, and leaves nothing. */
  lemma DrainingDelivers(ops: seq<Op>)
    ensures Replay(Drained(ops)).queue == [] && Replay(Drained(ops)).accepted == Replay(ops).accepted
    ensures Sound(Replay(ops)) && Delivered(Drained(ops)) == Delivered(ops) + Texts(Replay(ops))
  {
    hide Replay, Delivered, Sound, Texts;
    OneMore(ops, Stop);
    TextsStep(Replay(ops), Stop);
    SoundSizes(Replay(ops));
    var t := Texts(Replay(ops));
    assert t[..|t|] == t;
    PopsDeliver(ops + [Stop], |Replay(ops).queue|);
  }

  lemma {:induction false} PopsDeliver(ops: seq<Op>, n: nat)
    requires n <= |Replay(ops).queue|
    ensures Sound(Replay(ops)) && Sound(Replay(ops + Pops(n)))
    ensures var h, r := Replay(ops), Replay(ops + Pops(n));
            && r.queue == h.queue[n..] && r.accepted == h.accepted
            && Texts(r) == Texts(h)[n..] && Delivered(ops + Pops(n)) == Delivered(ops) + Texts(h)[..n]
  {
    hide Replay, Delivered, Sound;
    EveryHistoryIsSound(ops);
    SoundSizes(Replay(ops));
    if n == 0 {
      assert ops + Pops(0) == ops;
    } else {
      PopsDeliver(ops, n - 1);
      var before, t := ops + Pops(n - 1), Texts(Replay(ops));
      assert before + [Pop] == ops + Pops(n);
      OnePop(before);
      assert t[..n] == t[..n - 1] + [t[n - 1..][0]];
    }
  }

  lemma OnePop(ops: seq<Op>)
    requires Replay(ops).queue != []
    ensures Sound(Replay(ops)) && Sound(Replay(ops + [Pop])) && |Texts(Replay(ops))| == |Replay(ops).queue|
    ensures var h, r := Replay(ops), Replay(ops + [Pop]);
            && r.queue == h.queue[1..] && r.accepted == h.accepted
            && Texts(r) == Texts(h)[1..] && Delivered(ops + [Pop]) == Delivered(ops) + [Texts(h)[0]]
  {
    hide Replay, Delivered, Sound;
    OneMore(ops, Pop);
    SoundSizes(Replay(ops));
    TextsStep(Replay(ops), Pop);
  }

  lemma SoundSizes(h: History)
    requires Sound(h)
    ensures HoldsTheLast(h) && |Texts(h)| == |h.queue|
  {
  }

  // ---- the service follows the story

  /** The text in the worker's hand. */
  ghost function Held(s: Service): seq<CString>
    requires s.Parts()
    reads s, s.queue, s.queue.items, s.heap, s.memory, s.piper, s.sink
  {
    if s.inHand.Some? then [s.heap.live[s.inHand.value]] else []
  }

  /** The service is where the story says, and has spoken what the story's queues have delivered, up to the
      text that is still in the worker's hand. */
  ghost predicate Follows(s: Service, t: Story)
    reads s, s.queue, s.queue.items, s.heap, s.memory, s.piper, s.sink
  {
    && s.Valid() && s.ready == t.ready && s.backend == t.backend && s.heap.next == t.copies && Sound(Replay(t.ops))
    && if !s.ready then t.backend == NoBackend && t.ops == [] && !t.holds && s.spoken == DeliveredBy(t.past)
       else
         && t.holds == s.inHand.Some? && !Replay(t.ops).stop && s.queue.Contents() == Texts(Replay(t.ops))
         && s.spoken + Held(s) == DeliveredBy(t.past) + Delivered(t.ops)
  }

  lemma NothingYet()
    ensures Sound(Replay([])) && !Replay([]).stop && Texts(Replay([])) == [] && Delivered([]) == []
  {
    EveryHistoryIsSound([]);
  }

  method DoInit(s: Service, e: Event, ghost t: Story) returns (ok: bool)
    requires e.Init? && Follows(s, t)
    modifies s, s.queue, s.queue.items, s.heap, s.memory, s.piper, s.sink
    ensures Follows(s, Tell(s.useSpeechd, t, e)) && (e.Init? ==> ok == Tell(s.useSpeechd, t, e).ready)
  {
    hide Replay, DeliveredBy, Sound, Texts, Delivered, TtsQueue.Owns, TtsCmd.Valid, TtsCmd.Args,
      Service.Commanded, PiperArgs, SinkArgs, Service.Running, Service.Quiet, Chosen;
    NothingYet();
    ok := s.Init(e.env, e.answers, e.speechdOpens, e.threadStarts);
  }

  method DoSay(s: Service, e: Event, ghost t: Story)
    requires e.Say? && Follows(s, t)
    modifies s.queue, s.queue.items, s.heap
    ensures Follows(s, Tell(s.useSpeechd, t, e))
  {
    hide Replay, DeliveredBy, Sound, Texts, Delivered, TtsQueue.Owns, TtsCmd.Valid, TtsCmd.Args,
      Service.Commanded, PiperArgs, SinkArgs, Service.Running, Service.Quiet, Append, Cut, TextsOf;
    if s.ready && e.str.Some? {
      OneMore(t.ops, Push(e.str.value, e.memory));
      TextsStep(Replay(t.ops), Push(e.str.value, e.memory));
    }
    s.Say(e.str, e.memory);
  }

  lemma Counted(s: Service)
    requires s.Parts()
    ensures s.queue.Shape() && |s.queue.Pointers()| == s.queue.count && s.queue.heap == s.heap
    ensures forall p :: p in s.queue.Pointers() ==> p in s.heap.live
    ensures s.inHand.Some? ==> s.inHand.value in s.heap.live
  {
    hide TtsCmd.Valid, Ring;
    assert forall p :: p in s.queue.Pointers() ==> p in Elements(s.queue.Pointers());
  }

  method DoTake(s: Service, ghost t: Story)
    requires Follows(s, t)
    modifies s, s.queue, s.queue.items
    ensures Follows(s, Tell(s.useSpeechd, t, Take))
  {
    hide Replay, DeliveredBy, Sound, Texts, Delivered, TtsQueue.Owns, TtsCmd.Valid, TtsCmd.Args,
      Service.Commanded, PiperArgs, SinkArgs, Service.Running, Service.Quiet, TextsOf;
    Counted(s);
    SoundSizes(Replay(t.ops));
    if s.ready && s.inHand == None && s.queue.count > 0 {
      OneMore(t.ops, Pop);
      TextsStep(Replay(t.ops), Pop);
      FirstText(s.queue.Pointers(), s.heap.live);
      assert s.spoken + [] == s.spoken;
      Joined(s.spoken, [], [Texts(Replay(t.ops))[0]], DeliveredBy(t.past), Delivered(t.ops));
      s.WorkerTakes();
    }
  }

  lemma FirstText(q: seq<Ptr>, live: map<Ptr, CString>)
    requires q != [] && forall p :: p in q ==> p in live
    ensures TextsOf(q[1..], live) == TextsOf(q, live)[1..] && TextsOf(q, live)[0] == live[q[0]]
  {
  }

  method DoSpeak(s: Service, fallback: bool, ghost t: Story)
    requires Follows(s, t)
    modifies s, s.heap
    ensures Follows(s, Tell(s.useSpeechd, t, Speak(fallback)))
  {
    hide Replay, DeliveredBy, Sound, Texts, Delivered, TtsQueue.Owns, TtsCmd.Valid, TtsCmd.Args,
      Service.Commanded, PiperArgs, SinkArgs, Service.Running, Service.Quiet;
    if s.ready && s.inHand.Some? {
      s.WorkerSpeaks(fallback);
    }
  }

  method DoClose(s: Service, fallbacks: seq<bool>, ghost t: Story)
    requires Follows(s, t)
    modifies s, s.queue, s.queue.items, s.heap, s.memory, s.piper, s.sink
    ensures Follows(s, Tell(s.useSpeechd, t, Close(fallbacks)))
  {
    hide Replay, DeliveredBy, Sound, Texts, Delivered, TtsQueue.Owns, TtsCmd.Valid, TtsCmd.Args,
      Service.Commanded, PiperArgs, SinkArgs, Service.Running, Service.Quiet, TextsOf;
    NothingYet();
    DrainingDelivers(t.ops);
    OneCycleMore(t.past, Drained(t.ops));
    Counted(s);
    ghost var spoken, held, queued := s.spoken, Held(s), s.queue.Contents();
    s.Close(fallbacks);
    if t.ready {
      Joined(spoken, held, queued, DeliveredBy(t.past), Delivered(t.ops));
    }
  }

  lemma Joined(spoken: seq<CString>, held: seq<CString>, queued: seq<CString>, past: seq<CString>, now: seq<CString>)
    requires spoken + held == past + now
    ensures spoken + (held + queued) == past + (now + queued)
  {
    assert spoken + (held + queued) == (spoken + held) + queued;
  }

  lemma OneCycleMore(past: seq<seq<Op>>, run: seq<Op>)
    ensures DeliveredBy(past + [run]) == DeliveredBy(past) + Delivered(run)
  {
    assert (past + [run])[..|past|] == past;
  }

  method Happen(s: Service, e: Event, ghost t: Story) returns (ok: bool)
    requires Follows(s, t)
    modifies s, s.queue, s.queue.items, s.heap, s.memory, s.piper, s.sink
    ensures Follows(s, Tell(s.useSpeechd, t, e)) && (e.Init? ==> ok == Tell(s.useSpeechd, t, e).ready)
  {
    hide Follows, Tell;
    ok := false;
    match e
    case Init(_, _, _, _) => ok := DoInit(s, e, t);
    case Say(_, _) => DoSay(s, e, t);
    case Take => DoTake(s, t);
    case Speak(fallback) => DoSpeak(s, fallback, t);
    case Close(fallbacks) => DoClose(s, fallbacks, t);
  }

  /** Any sequence of events, whatever failed on the way, and a final close. The lifecycle invariant holds
      throughout; nothing is left behind; and what has been spoken is, cycle by cycle, what a drop-oldest
      queue delivers. `oks` holds the results of the calls of `speech_init`. */
  method Session(useSpeechd: bool, events: seq<Event>) returns (s: Service, oks: seq<bool>)
    ensures s.Valid() && !s.ready && s.heap.live == map[] && s.memory.live == {}
    ensures var t := Tell(useSpeechd, TellAll(useSpeechd, events), Close([]));
            s.spoken == DeliveredBy(t.past) && s.heap.next == t.copies
    ensures |oks| == |events| && Reports(useSpeechd, events, oks)
  {
    hide Tell, TellAll, Follows, Service.Valid, DeliveredBy, Reports;
    s := new Service(useSpeechd);
    oks := [];
    Begins(s);
    ReportsNone(useSpeechd, events);
    for i := 0 to |events|
      invariant fresh(s) && fresh(s.queue) && fresh(s.queue.items) && fresh(s.heap) && fresh(s.piper)
      invariant fresh(s.memory) && fresh(s.sink)
      invariant s.useSpeechd == useSpeechd && |oks| == i && Follows(s, TellAll(useSpeechd, events[..i]))
      invariant Reports(useSpeechd, events, oks)
    {
      var ok := Happen(s, events[i], TellAll(useSpeechd, events[..i]));
      TellOne(useSpeechd, events[..i], events[i]);
      assert events[..i + 1] == events[..i] + [events[i]];
      ReportsMore(useSpeechd, events, oks, ok);
      oks := oks + [ok];
    }
    assert events[..|events|] == events;
    DoClose(s, [], TellAll(useSpeechd, events));
    NothingLeft(s, TellAll(useSpeechd, events));
  }

  /** For each of the first events that is an init, whether the service is ready after it. */
  predicate Reports(useSpeechd: bool, events: seq<Event>, oks: seq<bool>) {
    |oks| <= |events| &&
    forall i :: 0 <= i < |oks| && events[i].Init? ==> oks[i] == TellAll(useSpeechd, events[..i + 1]).ready
  }

  lemma ReportsNone(useSpeechd: bool, events: seq<Event>)
    ensures Reports(useSpeechd, events, [])
  {
  }

  lemma ReportsMore(useSpeechd: bool, events: seq<Event>, oks: seq<bool>, ok: bool)
    requires Reports(useSpeechd, events, oks) && |oks| < |events|
    requires events[|oks|].Init? ==> ok == TellAll(useSpeechd, events[..|oks| + 1]).ready
    ensures Reports(useSpeechd, events, oks + [ok])
  {
    hide TellAll;
  }

  lemma Begins(s: Service)
    requires s.Valid() && !s.ready && s.spoken == [] && s.heap.next == 0
    ensures Follows(s, TellAll(s.useSpeechd, []))
  {
    NothingYet();
    hide TtsQueue.Owns, TtsCmd.Valid, TtsCmd.Args, Service.Commanded, Replay, Sound;
  }

  lemma NothingLeft(s: Service, t: Story)
    requires Follows(s, Tell(s.useSpeechd, t, Close([])))
    ensures s.Valid() && !s.ready && s.heap.live == map[] && s.memory.live == {}
    ensures s.spoken == DeliveredBy(Tell(s.useSpeechd, t, Close([])).past)
    ensures s.heap.next == Tell(s.useSpeechd, t, Close([])).copies
  {
    hide TtsQueue.Owns, TtsCmd.Valid, Replay, Sound, DeliveredBy, Delivered, Texts, Service.Commanded;
    s.NoCommands();
  }

  lemma TellOne(useSpeechd: bool, events: seq<Event>, e: Event)
    ensures TellAll(useSpeechd, events + [e]) == Tell(useSpeechd, TellAll(useSpeechd, events), e)
  {
    assert (events + [e])[..|events|] == events;
  }

  /** Every text that the queue accepted has been delivered, or dropped for the 64th text after it. */
  ghost predicate Complete(ops: seq<Op>) {
    var h := Replay(ops);
    && Sound(h) && h.queue == []
    && forall i: nat :: i < |h.accepted| ==> multiset(h.delivered)[i] + Victims(h.evicted)[i] == 1
  }

  lemma DrainedIsComplete(ops: seq<Op>)
    ensures Complete(Drained(ops))
  {
    hide Replay, Victims, Drained, HoldsTheLast, DeliversInOrder, EvictsAtCapacity;
    DrainingDelivers(ops);
    EveryHistoryIsSound(Drained(ops));
    var h := Replay(Drained(ops));
    forall i: nat | i < |h.accepted| ensures multiset(h.delivered)[i] + Victims(h.evicted)[i] == 1 {
      assert Fate(h, i) == 1;
    }
  }

  /** In every story all cycles that have ended are complete: no text was lost but by the documented
      dropping. */
  lemma {:induction false} EveryCycleIsComplete(useSpeechd: bool, events: seq<Event>, k: nat)
    requires k < |TellAll(useSpeechd, events).past|
    ensures Complete(TellAll(useSpeechd, events).past[k])
    decreases |events|
  {
    hide Replay, Complete, Drained;
    var n := |events|;
    var t := TellAll(useSpeechd, events[..n - 1]);
    if k < |t.past| {
      EveryCycleIsComplete(useSpeechd, events[..n - 1], k);
    } else {
      DrainedIsComplete(t.ops);
    }
  }
}
