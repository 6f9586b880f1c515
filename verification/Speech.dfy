/** `speech_init`, `speech_say` and `speech_close` of src/utils.c with the globals they own: flags,
    backend, the two commands, the queue, and the worker's progress between their calls. */
module Speech {
  import opened Fifo
  import opened Tokens
  import opened Commands
  import opened Options
  import opened SpeechQueue

  datatype Backend = NoBackend | Piper | Speechd

  /** The backend of an environment: Piper when the sink has a command and there is memory for both commands,
      at two requests for each argument; otherwise speech-dispatcher, when it is built in and opens. */
  function Chosen(useSpeechd: bool, env: Environment, answers: seq<bool>, speechdOpens: bool): Backend {
    if SinkArgs(env) != [] && Grants(answers, 2 * (|PiperArgs(env)| + |SinkArgs(env)|)) then Piper
    else if useSpeechd && speechdOpens then Speechd
    else NoBackend
  }

  /** No request for the two commands is refused: two for each argument. */
  predicate Serves(answers: seq<bool>, env: Environment) {
    forall i :: 0 <= i < |answers| && i < 2 * (|PiperArgs(env)| + |SinkArgs(env)|) ==> answers[i]
  }

  /** Piper is preferred whenever its commands can be built. */
  lemma PiperFirst(useSpeechd: bool, env: Environment, answers: seq<bool>, opens: bool)
    ensures Chosen(useSpeechd, env, answers, opens) == Piper <==> SinkArgs(env) != [] && Serves(answers, env)
    ensures Chosen(useSpeechd, env, answers, opens) == Speechd <==>
              useSpeechd && opens && !(SinkArgs(env) != [] && Serves(answers, env))
  {
    hide PiperArgs, SinkArgs;
  }

  class Service {
    const useSpeechd: bool
    const heap: Heap
    const memory: Memory
    const queue: TtsQueue
    const piper: TtsCmd
    const sink: TtsCmd
    var ready: bool
    var workerStarted: bool
    var backend: Backend
    var connected: bool
    var inHand: Option<Ptr>
    var spoken: seq<CString>
    ghost var builtFrom: Environment

    /** The block the worker is speaking from. */
    ghost function Hand(): set<Ptr>
      reads this
    {
      if inHand.Some? then {inHand.value} else {}
    }

    /** The two commands own what has been allocated for argument vectors. */
    ghost predicate Commanded()
      reads memory, piper, sink
      ensures Commanded() ==> piper.Valid() && sink.Valid()
    {
      piper.Valid() && sink.Valid() && piper.Owns(memory, sink.Blocks()) && sink.Owns(memory, piper.Blocks())
    }

    /** Parts that are there all the time. */
    ghost predicate Parts()
      reads this, queue, queue.items, heap, memory, piper, sink
    {
      && queue.heap == heap && piper != sink
      && queue.Owns(Hand()) && Commanded()
    }

    /** Not ready: no backend, no worker, no connection, empty commands, no text alive. Ready: a worker
        and a backend; with Piper both commands are what the environment asked for, and not empty. */
    ghost predicate Valid()
      reads this, queue, queue.items, heap, memory, piper, sink
    {
      && Parts()
      && if ready then Running() else Quiet()
    }

    ghost predicate Quiet()
      requires Parts()
      reads this, queue, queue.items, heap, memory, piper, sink
    {
      && !workerStarted && backend == NoBackend && !connected && inHand == None
      && piper.Args() == [] && sink.Args() == [] && queue.Pointers() == [] && heap.live == map[]
    }

    ghost predicate Running()
      requires Parts()
      reads this, queue, queue.items, heap, memory, piper, sink
    {
      && workerStarted && !queue.stop && backend != NoBackend
      && (backend == Piper ==> piper.Args() == PiperArgs(builtFrom) && sink.Args() == SinkArgs(builtFrom) != [])
      && (backend == Speechd ==> useSpeechd && connected && piper.Args() == [] && sink.Args() == [])
    }

    /** Not ready: nothing is there. */
    lemma NotReadyIsOff()
      requires Valid() && !ready
      ensures backend == NoBackend && !workerStarted && !connected && inHand == None
      ensures piper.argv == None && sink.argv == None && queue.Pointers() == []
      ensures heap.live == map[] && memory.live == {}
    {
      hide Values, TtsCmd.Valid, TtsQueue.Owns;
      NoCommands();
    }

    /** Ready with Piper: both vectors have a first argument, and NULL behind the last. */
    lemma PiperVectors()
      requires Valid() && ready && backend == Piper
      ensures workerStarted && piper.argv.Some? && sink.argv.Some? && piper.argc > 0 && sink.argc > 0
      ensures piper.argc + 1 == |piper.argv.value.entries| && sink.argc + 1 == |sink.argv.value.entries|
      ensures piper.argv.value.entries[0].Some? && piper.argv.value.entries[piper.argc] == None
      ensures sink.argv.value.entries[0].Some? && sink.argv.value.entries[sink.argc] == None
    {
      hide TtsQueue.Owns, Values, TtsCmd.Valid, TtsCmd.Args, TokensOf, SinkArgs;
      piper.VectorShape();
      sink.VectorShape();
    }

    constructor (useSpeechd: bool)
      ensures Valid() && !ready && spoken == [] && this.useSpeechd == useSpeechd && heap.next == 0
      ensures fresh(queue) && fresh(queue.items) && fresh(heap) && fresh(memory) && fresh(piper) && fresh(sink)
    {
      this.useSpeechd := useSpeechd;
      var h := new Heap();
      heap := h;
      memory := new Memory();
      queue := new TtsQueue(h);
      piper := new TtsCmd();
      sink := new TtsCmd();
      ready, workerStarted, backend, connected, inHand := false, false, NoBackend, false, None;
      spoken := [];
      builtFrom := Environment(None, None, None, None);
    }

    /** The choice of a backend inside `speech_init`. */
    method ChooseBackend(env: Environment, speechdOpens: bool)
      requires Valid() && !ready
      modifies this`backend, this`connected, this`builtFrom, piper, sink, memory
      ensures Parts() && inHand == None && builtFrom == env
      ensures backend == NoBackend ==> !connected && piper.Args() == [] && sink.Args() == []
      ensures backend == Piper ==> !connected && piper.Args() == PiperArgs(env) && sink.Args() == SinkArgs(env) != []
      ensures backend == Speechd ==>
                useSpeechd && speechdOpens && connected && piper.Args() == [] && sink.Args() == []
      ensures backend == Chosen(useSpeechd, env, old(memory.answers), speechdOpens)
    {
      hide Values, TokensOf, PiperArgs, SinkArgs, TtsCmd.Valid, TtsCmd.Args, TtsCmd.Blocks, PartOf, TtsQueue.Owns,
        Grants, Left;
      GrantsMore(memory.answers, 2 * |PiperArgs(env)|, 2 * |SinkArgs(env)|);
      builtFrom := env;
      var built := BuildPiper(piper, env, memory, sink.Blocks());
      if built {
        built := BuildSink(sink, env, memory, piper.Blocks());
      }
      if built {
        backend := Piper;
      } else {
        FreeCommands();
        if useSpeechd && speechdOpens {
          connected := true;
          backend := Speechd;
        } else {
          backend := NoBackend;
        }
      }
    }

    method FreeCommands()
      requires piper != sink && Commanded()
      modifies piper, sink, memory`live
      ensures Commanded() && piper.Args() == [] && sink.Args() == []
    {
      hide Values, TtsCmd.Valid, TtsCmd.Args;
      piper.Free(memory, sink.Blocks());
      sink.Free(memory, {});
    }

    /** `speech_init`; `answers` are those of the allocator, `speechdOpens` and `threadStarts` those of
        `spd_open` and `pthread_create`. */
    method Init(env: Environment, answers: seq<bool>, speechdOpens: bool, threadStarts: bool) returns (ok: bool)
      requires Valid()
      modifies this, queue, queue.items, heap, memory, piper, sink
      ensures Valid() && ok == ready && spoken == old(spoken)
      ensures old(ready) ==> ok && unchanged(this) && unchanged(queue) && unchanged(queue.items) && unchanged(heap)
      ensures !old(ready) && ok ==> builtFrom == env && inHand == None && queue.Pointers() == []
      ensures !old(ready) ==> ok == (threadStarts && Chosen(useSpeechd, env, answers, speechdOpens) != NoBackend)
      ensures !old(ready) && ok ==> backend == Chosen(useSpeechd, env, answers, speechdOpens)
      ensures (!ok ==> backend == NoBackend) && heap.next == old(heap.next)
      ensures !old(ready) && threadStarts && SinkArgs(env) != [] && Serves(answers, env) ==> ok && backend == Piper
      ensures !old(ready) && ok && backend == Speechd ==>
                useSpeechd && speechdOpens && (SinkArgs(env) == [] || !Serves(answers, env))
      ensures !old(ready) && threadStarts && useSpeechd && speechdOpens ==> ok
    {
      hide Values, TokensOf, Chosen, PiperArgs, SinkArgs, TtsCmd.Valid, TtsCmd.Args, PartOf, Commanded,
        Serves;
      PiperFirst(useSpeechd, env, answers, speechdOpens);
      if ready {
        return true;
      }
      queue.Zero();
      EmptyOwns();
      Expect(answers);
      ChooseBackend(env, speechdOpens);
      if backend == NoBackend {
        queue.Destroy({});
        return false;
      }
      if !threadStarts {
        queue.Destroy({});
        Abandon();
        return false;
      }
      workerStarted := true;
      ready := true;
      return true;
    }

    /** What the allocator will answer. */
    method Expect(answers: seq<bool>)
      requires Commanded()
      modifies memory`answers
      ensures Commanded() && memory.answers == answers
    {
      hide TtsCmd.Valid, TtsCmd.Blocks;
      memory.answers := answers;
    }

    /** The end of `speech_init` when the thread does not start. */
    method Abandon()
      requires Commanded() && piper != sink && (backend == Speechd ==> useSpeechd)
      requires backend != Piper ==> piper.Args() == [] && sink.Args() == []
      requires backend == Piper ==> !connected
      modifies this`connected, this`backend, piper, sink, memory`live
      ensures Commanded() && piper.Args() == [] && sink.Args() == []
      ensures backend == NoBackend && (old(backend) != NoBackend ==> !connected)
    {
      hide Values, TtsCmd.Valid, TtsCmd.Args, Commanded;
      if backend == Piper {
        FreeCommands();
      }
      if useSpeechd && backend == Speechd {
        connected := false;
      }
      backend := NoBackend;
    }

    /** A zeroed queue over an empty heap owns nothing and everything there is. */
    lemma EmptyOwns()
      requires queue.Shape() && queue.Pointers() == [] && queue.heap == heap && heap.Valid() && heap.live == map[]
      ensures queue.Owns({})
    {
      assert Elements([]) == {};
    }

    /** `speech_say`. */
    method Say(str: Option<CString>, memory: bool)
      requires Valid()
      modifies queue, queue.items, heap
      ensures Valid()
      ensures ready && str.Some? && str.value != "" && memory ==>
                && queue.Contents() == Append(old(queue.Contents()), Cut(str.value))
                && Accepted(old(queue.Contents()), queue.Contents(), str.value)
      ensures !(ready && str.Some? && str.value != "" && memory) ==>
                queue.Pointers() == old(queue.Pointers()) && heap.live == old(heap.live)
      ensures inHand.Some? ==> heap.live[inHand.value] == old(heap.live)[inHand.value]
      ensures heap.next ==
                old(heap.next) + if ready && str.Some? && str.value != "" && memory then 1 else 0
    {
      hide Commanded, Values, TokensOf, PiperArgs, SinkArgs, TtsCmd.Valid, TtsCmd.Args, Append, Cut, Accepted;
      if !ready || str == None {
        return;
      }
      queue.Push(str, memory, Hand());
    }

    /** The worker takes the next item, when there is one. */
    method WorkerTakes()
      requires Valid() && ready && inHand == None && queue.count > 0
      modifies this`inHand, queue`head, queue`count, queue.items
      ensures Valid() && inHand == Some(old(queue.Pointers())[0])
      ensures queue.Pointers() == old(queue.Pointers())[1..]
    {
      hide Commanded, Values, TokensOf, PiperArgs, SinkArgs, TtsCmd.Valid, TtsCmd.Args;
      inHand := queue.Pop({});
    }

    /** The worker has spoken its item and frees it; a failing Piper may have opened the connection to
        speech-dispatcher on the way. */
    method SpeakHeld(fallback: bool)
      requires Parts() && inHand.Some?
      modifies this`inHand, this`connected, this`spoken, heap`live
      ensures Parts() && inHand == None && queue.Pointers() == old(queue.Pointers())
      ensures spoken == old(spoken) + [old(heap.live)[old(inHand).value]]
      ensures forall p :: p in queue.Pointers() ==> heap.live[p] == old(heap.live)[p]
      ensures connected == (old(connected) || (fallback && useSpeechd && backend == Piper))
    {
      hide Commanded, Values, TokensOf, PiperArgs, SinkArgs, TtsCmd.Valid, TtsCmd.Args, Ring, Queued;
      spoken := spoken + [heap.live[inHand.value]];
      heap.Free(inHand.value);
      inHand := None;
      if fallback && useSpeechd && backend == Piper {
        connected := true;
      }
    }

    /** The same between calls of the main thread. */
    method WorkerSpeaks(fallback: bool)
      requires Valid() && ready && inHand.Some?
      modifies this`inHand, this`connected, this`spoken, heap`live
      ensures Valid() && inHand == None && queue.Pointers() == old(queue.Pointers())
      ensures spoken == old(spoken) + [old(heap.live)[old(inHand).value]]
      ensures forall p :: p in queue.Pointers() ==> heap.live[p] == old(heap.live)[p]
      ensures connected == (old(connected) || (fallback && useSpeechd && backend == Piper))
    {
      hide Commanded, Values, TokensOf, PiperArgs, SinkArgs, TtsCmd.Valid, TtsCmd.Args, TtsQueue.Owns;
      SpeakHeld(fallback);
    }

    /** One round of the worker's loop after a stop: pop, speak, free, or leave. */
    method WorkerRound(fallback: bool) returns (more: bool)
      requires Parts() && inHand == None && queue.stop
      modifies this`inHand, this`connected, this`spoken, heap`live, queue`head, queue`count, queue.items
      ensures Parts() && inHand == None
      ensures more == (old(queue.Pointers()) != [])
      ensures !more ==> queue.Pointers() == [] && connected == old(connected)
      ensures more ==> connected == (old(connected) || (fallback && useSpeechd && backend == Piper))
      ensures spoken + queue.Contents() == old(spoken) + old(queue.Contents())
      ensures more ==> |queue.Pointers()| == |old(queue.Pointers())| - 1
    {
      hide Commanded, Values, TokensOf, PiperArgs, SinkArgs, TtsCmd.Valid, TtsCmd.Args, Ring, Queued, Distinct;
      ghost var q, live := queue.Pointers(), heap.live;
      var item := queue.Pop({});
      if item == None {
        return false;
      }
      inHand := item;
      SpeakHeld(fallback);
      HeadTail(q);
      TailTexts(q, live);
      HeadText(q, live);
      return true;
    }

    /** `pthread_join` after a stop: the worker speaks what it holds, then everything queued, and exits.
        `fallbacks` tells for which of these texts Piper fails; then the connection may come up. */
    method JoinWorker(fallbacks: seq<bool>)
      requires Parts() && queue.stop
      modifies this`inHand, this`connected, this`spoken, heap`live, queue`head, queue`count, queue.items
      ensures Parts() && inHand == None && queue.Pointers() == []
      ensures spoken == old(spoken) + old(Pending())
      ensures connected ==
                (old(connected) || (useSpeechd && backend == Piper && FallsBack(fallbacks, |old(Pending())|)))
    {
      hide Commanded, Values, TokensOf, PiperArgs, SinkArgs, TtsCmd.Valid, TtsCmd.Args, TextsOf, FallsBack;
      var i := SpeakHand(fallbacks);
      var more := true;
      while more
        invariant Parts() && inHand == None && queue.stop && (!more ==> queue.Pointers() == [])
        invariant spoken + queue.Contents() == old(spoken) + old(Pending())
        invariant i + |queue.Pointers()| == |old(Pending())|
        invariant connected == (old(connected) || (useSpeechd && backend == Piper && FallsBack(fallbacks, i)))
        decreases more, |queue.Pointers()|
      {
        FallbackOf(fallbacks, i);
        more := WorkerRound(i < |fallbacks| && fallbacks[i]);
        if more {
          i := i + 1;
        }
      }
      NoTexts(heap.live);
    }

    /** What the worker holds when it is stopped. */
    method SpeakHand(fallbacks: seq<bool>) returns (n: nat)
      requires Parts()
      modifies this`inHand, this`connected, this`spoken, heap`live
      ensures Parts() && inHand == None && queue.Pointers() == old(queue.Pointers())
      ensures spoken + queue.Contents() == old(spoken) + old(Pending())
      ensures n + |queue.Pointers()| == |old(Pending())|
      ensures connected == (old(connected) || (useSpeechd && backend == Piper && FallsBack(fallbacks, n)))
    {
      hide Commanded, Values, TokensOf, PiperArgs, SinkArgs, TtsCmd.Valid, TtsCmd.Args, TextsOf, FallsBack;
      NoneFallsBack(fallbacks);
      n := 0;
      if inHand.Some? {
        FallbackOf(fallbacks, 0);
        SpeakHeld(0 < |fallbacks| && fallbacks[0]);
        HandThenQueue(old(queue.Pointers()), old(heap.live), heap.live);
        n := 1;
      }
    }

    lemma HeadText(q: seq<Ptr>, live: map<Ptr, CString>)
      requires q != [] && forall p :: p in q ==> p in live
      ensures TextsOf(q, live) == [live[q[0]]] + TextsOf(q, live)[1..]
    {
    }

    lemma HandThenQueue(q: seq<Ptr>, live: map<Ptr, CString>, live': map<Ptr, CString>)
      requires forall p :: p in q ==> p in live && p in live' && live'[p] == live[p]
      ensures TextsOf(q, live') == TextsOf(q, live)
    {
    }

    lemma NoTexts(live: map<Ptr, CString>)
      ensures TextsOf([], live) == []
    {
    }

    /** The texts the worker has still to speak. */
    ghost function Pending(): seq<CString>
      requires Parts()
      reads this, queue, queue.items, heap, memory, piper, sink
    {
      (if inHand.Some? then [heap.live[inHand.value]] else []) + queue.Contents()
    }

    /** `speech_close`: everything accepted and not dropped has been spoken, in order, and nothing is
        left: no worker, no backend, no command, no connection, no text. */
    method Close(fallbacks: seq<bool>)
      requires Valid()
      modifies this, queue, queue.items, heap, memory, piper, sink
      ensures Valid() && !ready && heap.live == map[] && memory.live == {} && heap.next == old(heap.next)
      ensures backend == NoBackend
      ensures spoken == old(spoken) + if old(ready) then old(Pending()) else []
    {
      hide Commanded, Values, TokensOf, PiperArgs, SinkArgs, TtsCmd.Valid, TtsCmd.Args, TextsOf, Ring, Queued, Distinct;
      if !ready {
        NoCommands();
        return;
      }
      ready := false;
      queue.Stop(Hand());
      if workerStarted {
        JoinWorker(fallbacks);
        workerStarted := false;
      }
      queue.Destroy({});
      Release();
      NoCommands();
    }

    /** The rest of `speech_close`: commands, connection and backend. */
    method Release()
      requires Commanded() && piper != sink
      requires backend != Piper ==> piper.Args() == [] && sink.Args() == []
      modifies this`connected, this`backend, piper, sink, memory`live
      ensures Commanded() && piper.Args() == [] && sink.Args() == []
      ensures !connected && backend == NoBackend
    {
      hide TtsCmd.Valid, TtsCmd.Args, Values, Commanded;
      if backend == Piper {
        FreeCommands();
      }
      if connected {
        connected := false;
      }
      backend := NoBackend;
    }

    /** Empty commands hold no memory. */
    lemma NoCommands()
      requires Commanded() && piper.Args() == [] && sink.Args() == []
      ensures memory.live == {}
    {
      hide Values;
    }
  }

  /** One of the first `n` texts makes Piper fail. */
  predicate FallsBack(fallbacks: seq<bool>, n: nat) {
    exists i :: 0 <= i < n && i < |fallbacks| && fallbacks[i]
  }

  lemma NoneFallsBack(fallbacks: seq<bool>)
    ensures !FallsBack(fallbacks, 0)
  {
  }

  lemma FallbackOf(fallbacks: seq<bool>, n: nat)
    ensures FallsBack(fallbacks, n + 1) == (FallsBack(fallbacks, n) || (n < |fallbacks| && fallbacks[n]))
  {
  }
}
