/** The argument vectors of src/utils.c: growing, splitting into, and freeing a `struct tts_cmd`. */
module Commands {
  import opened Fifo
  import opened Options
  import opened Tokens

  type Block = nat

  /** A C string in a block of memory. */
  datatype Str = Str(block: Block, text: CString)

  /** The allocator behind the argument vectors: the answers that `malloc`, `strdup` and `realloc` will
      give, in order (afterwards there is always memory), and the numbers of the blocks that are live. */
  class Memory {
    var answers: seq<bool>
    var live: set<Block>
    var next: nat

    ghost predicate Valid()
      reads this
    {
      forall b :: b in live ==> b < next
    }

    constructor ()
      ensures Valid() && answers == [] && live == {}
    {
      answers := [];
      live := {};
      next := 0;
    }

    method Malloc() returns (b: Option<Block>)
      requires Valid()
      modifies this
      ensures Valid() && old(next) <= next
      ensures b.Some? ==> b.value == old(next) && live == old(live) + {b.value}
      ensures b == None ==> live == old(live)
      ensures b.Some? == Grants(old(answers), 1) && (b.Some? ==> answers == Left(old(answers), 1))
    {
      if answers != [] {
        var ok := answers[0];
        answers := answers[1..];
        if !ok {
          return None;
        }
      }
      b := Some(next);
      live := live + {next};
      next := next + 1;
    }

    method Free(b: Block)
      requires Valid() && b in live
      modifies this`live
      ensures Valid() && live == old(live) - {b}
    {
      live := live - {b};
    }

    /** `realloc`: a new block for the old one, or the old one stays. */
    method Realloc(was: Option<Block>) returns (b: Option<Block>)
      requires Valid() && (was.Some? ==> was.value in live)
      modifies this
      ensures Valid() && old(next) <= next
      ensures b.Some? ==> b.value == old(next)
                          && live == old(live) - (if was.Some? then {was.value} else {}) + {b.value}
      ensures b == None ==> live == old(live)
      ensures b.Some? == Grants(old(answers), 1) && (b.Some? ==> answers == Left(old(answers), 1))
    {
      b := Malloc();
      if b.Some? && was.Some? {
        Free(was.value);
      }
    }
  }

  /** The next `n` requests will be granted. */
  predicate Grants(answers: seq<bool>, n: nat) {
    forall i :: 0 <= i < n && i < |answers| ==> answers[i]
  }

  /** The answers after `n` requests. */
  function Left(answers: seq<bool>, n: nat): seq<bool> {
    if n <= |answers| then answers[n..] else []
  }

  lemma GrantsMore(answers: seq<bool>, m: nat, n: nat)
    ensures Grants(answers, m + n) <==> Grants(answers, m) && Grants(Left(answers, m), n)
    ensures Left(Left(answers, m), n) == Left(answers, m + n)
  {
    var rest := Left(answers, m);
    assert forall i :: 0 <= i < |rest| ==> rest[i] == answers[m + i];
    if Grants(answers, m) && Grants(rest, n) {
      forall i | 0 <= i < m + n && i < |answers| ensures answers[i] {
        if i >= m { assert rest[i - m] == answers[i]; }
      }
    }
  }

  lemma GrantsNothing(answers: seq<bool>)
    ensures Grants(answers, 0) && Left(answers, 0) == answers && Spent(answers, answers, 0)
  {
  }

  /** Two requests for each of `n` arguments have been granted. */
  predicate Spent(was: seq<bool>, now: seq<bool>, n: nat) {
    Grants(was, 2 * n) && now == Left(was, 2 * n)
  }

  lemma SpentMore(was: seq<bool>, now: seq<bool>, n: nat)
    requires Spent(was, now, n)
    ensures Grants(was, 2 * n + 2) <==> Grants(now, 2)
    ensures Grants(now, 2) ==> Spent(was, Left(now, 2), n + 1)
  {
    hide Grants, Left;
    GrantsMore(was, 2 * n, 2);
  }

  /** Requests are granted from the first on. */
  lemma GrantsFewer(answers: seq<bool>, m: nat, n: nat)
    requires m <= n && Grants(answers, n)
    ensures Grants(answers, m)
  {
  }

  /** `all` or an initial part of it. */
  predicate PartOf(part: seq<CString>, all: seq<CString>) {
    part <= all
  }

  /** The first `n` entries of a vector. */
  function Values(v: seq<Option<Str>>, n: nat): (a: seq<CString>)
    requires n <= |v| && forall i :: 0 <= i < n ==> v[i].Some?
    ensures |a| == n
  {
    seq(n, i requires 0 <= i < n => v[i].value.text)
  }

  /** Their blocks. */
  function StrBlocks(v: seq<Option<Str>>, n: nat): set<Block>
    requires n <= |v| && forall i :: 0 <= i < n ==> v[i].Some?
  {
    set i | 0 <= i < n :: v[i].value.block
  }

  ghost predicate DistinctBlocks(v: seq<Option<Str>>, n: nat)
    requires n <= |v| && forall i :: 0 <= i < n ==> v[i].Some?
  {
    forall i, j :: 0 <= i < j < n ==> v[i].value.block != v[j].value.block
  }

  lemma ValuesGrow(v: seq<Option<Str>>, n: nat, arg: Str)
    requires n < |v| && forall i :: 0 <= i < n ==> v[i].Some?
    ensures var w := v[n := Some(arg)];
            && Values(w, n + 1) == Values(v, n) + [arg.text]
            && StrBlocks(w, n + 1) == StrBlocks(v, n) + {arg.block}
            && (DistinctBlocks(v, n) && arg.block !in StrBlocks(v, n) ==> DistinctBlocks(w, n + 1))
  {
    var w := v[n := Some(arg)];
    assert w[n].value.block == arg.block;
    assert forall i :: 0 <= i < n ==> w[i] == v[i] && v[i].value.block in StrBlocks(v, n);
    assert forall i :: 0 <= i < n ==> w[i].value.block in StrBlocks(w, n + 1);
  }

  /** The entries of a vector matter up to `n` only. */
  lemma ValuesOf(v: seq<Option<Str>>, w: seq<Option<Str>>, n: nat)
    requires n <= |v| && n <= |w| && forall i :: 0 <= i < n ==> v[i].Some? && w[i] == v[i]
    ensures Values(w, n) == Values(v, n) && StrBlocks(w, n) == StrBlocks(v, n)
    ensures DistinctBlocks(w, n) == DistinctBlocks(v, n)
  {
    assert forall i :: 0 <= i < n ==> v[i].value.block in StrBlocks(v, n) && w[i].value.block in StrBlocks(w, n);
  }

  /** One argument more, and the NULL behind it. */
  lemma Grow(v: seq<Option<Str>>, n: nat, arg: Str)
    requires |v| == n + 1 && forall i :: 0 <= i < n ==> v[i].Some?
    ensures n == 0 ==> StrBlocks(v, n) == {} && DistinctBlocks(v, n)
    ensures var w := (v + [None])[n := Some(arg)][n + 1 := None];
            && |w| == n + 2 && w[n + 1] == None && (forall i :: 0 <= i <= n ==> w[i].Some?)
            && Values(w, n + 1) == Values(v, n) + [arg.text] && StrBlocks(w, n + 1) == StrBlocks(v, n) + {arg.block}
            && (DistinctBlocks(v, n) && arg.block !in StrBlocks(v, n) ==> DistinctBlocks(w, n + 1))
  {
    var more := v + [None];
    ValuesOf(v, more, n);
    ValuesGrow(more, n, arg);
    hide Values, StrBlocks, DistinctBlocks;
    ValuesOf(more[n := Some(arg)], more[n := Some(arg)][n + 1 := None], n + 1);
  }

  /** A vector in memory: its own block and its entries. */
  datatype Vector = Vector(block: Block, entries: seq<Option<Str>>)

  class TtsCmd {
    var argv: Option<Vector>
    var argc: nat

    /** NULL, or a NULL-terminated vector of at least one argument, all in blocks of their own. */
    ghost predicate Valid()
      reads this
    {
      match argv
      case None => argc == 0
      case Some(Vector(block, v)) =>
        && argc >= 1 && |v| == argc + 1 && v[argc] == None && (forall i :: 0 <= i < argc ==> v[i].Some?)
        && DistinctBlocks(v, argc) && block !in StrBlocks(v, argc)
    }

    ghost function Args(): (a: seq<CString>)
      requires Valid()
      reads this
      ensures a == [] <==> argv == None
    {
      if argv == None then [] else Values(argv.value.entries, argc)
    }

    ghost function Blocks(): (b: set<Block>)
      requires Valid()
      reads this
      ensures argv == None ==> b == {}
    {
      if argv == None then {} else {argv.value.block} + StrBlocks(argv.value.entries, argc)
    }

    /** The live blocks are the vector's, and the `others`, which somebody else holds. */
    ghost predicate Owns(mem: Memory, others: set<Block>)
      reads this, mem
      ensures Owns(mem, others) ==> Valid()
    {
      Valid() && mem.Valid() && Blocks() !! others && mem.live == Blocks() + others
    }

    constructor ()
      ensures Valid() && Args() == [] && Blocks() == {}
    {
      argv := None;
      argc := 0;
    }

    /** A vector that is not empty has its arguments in front and NULL behind them. */
    lemma VectorShape()
      requires Valid() && Args() != []
      ensures argv.Some? && argc == |Args()| && |argv.value.entries| == argc + 1 && argv.value.entries[argc] == None
      ensures forall i :: 0 <= i < argc ==> argv.value.entries[i].Some? && argv.value.entries[i].value.text == Args()[i]
    {
    }

    /** `argv_free`: every argument and the vector itself, each once. */
    method Free(mem: Memory, ghost others: set<Block>)
      requires Owns(mem, others)
      modifies this, mem`live
      ensures Owns(mem, others) && Args() == [] && Blocks() == {} && argc == 0 && mem.live == others
    {
      if argv != None {
        var block, v := argv.value.block, argv.value.entries;
        for i := 0 to argc
          invariant argv == Some(Vector(block, v)) && argc == old(argc) && Valid() && mem.Valid()
          invariant block !in others && StrBlocks(v, argc) !! others
          invariant mem.live == {block} + (StrBlocks(v, argc) - StrBlocks(v, i)) + others
        {
          NextBlock(v, argc, i);
          mem.Free(v[i].value.block);
        }
        mem.Free(block);
      }
      argv := None;
      argc := 0;
    }

    /** `argv_add_owned`: `realloc` to one entry more than is used, then the argument and the NULL. When
        there is no memory, the argument stays with the caller. */
    method AddOwned(arg: Option<Str>, mem: Memory, ghost others: set<Block>) returns (ok: bool)
      requires arg.Some? ==> arg.value.block !in others && Owns(mem, others + {arg.value.block})
      requires arg == None ==> Owns(mem, others)
      modifies this, mem
      ensures Owns(mem, if arg.Some? && !ok then others + {arg.value.block} else others)
      ensures Args() == if ok && arg.Some? then old(Args()) + [arg.value.text] else old(Args())
      ensures arg == None ==> !ok
      ensures arg.Some? ==> ok == Grants(old(mem.answers), 1)
      ensures ok ==> mem.answers == Left(old(mem.answers), 1)
    {
      hide Values, StrBlocks, DistinctBlocks, Grants, Left;
      if arg == None {
        return false;
      }
      var was := if argv == None then None else Some(argv.value.block);
      var tmp := mem.Realloc(was);
      if tmp == None {
        return false;
      }
      var entries := (if argv == None then [None] else argv.value.entries);
      Grow(entries, argc, arg.value);
      argv := Some(Vector(tmp.value, (entries + [None])[argc := arg][argc + 1 := None]));
      argc := argc + 1;
      return true;
    }

    /** `argv_add`: the copy is freed when it cannot be kept. */
    method Add(arg: Option<CString>, mem: Memory, ghost others: set<Block>) returns (ok: bool)
      requires Owns(mem, others)
      modifies this, mem
      ensures Owns(mem, others)
      ensures Args() == if ok && arg.Some? then old(Args()) + [arg.value] else old(Args())
      ensures arg == None ==> !ok
      ensures arg.Some? ==> ok == Grants(old(mem.answers), 2)
      ensures ok ==> mem.answers == Left(old(mem.answers), 2)
    {
      hide Valid, Args, Blocks, Grants, Left;
      GrantsMore(mem.answers, 1, 1);
      if arg == None {
        return false;
      }
      var dup := mem.Malloc();
      if dup == None {
        return false;
      }
      ok := AddOwned(Some(Str(dup.value, arg.value)), mem, others);
      if !ok {
        mem.Free(dup.value);
      }
    }

    /** `argv_add_split`: appends the tokens in order, at two requests each. If memory runs out, the vector
        is still NULL-terminated and holds its old entries and the tokens for which there was memory. */
    method AddSplit(args: Option<CString>, mem: Memory, ghost others: set<Block>) returns (ok: bool)
      requires Owns(mem, others)
      modifies this, mem
      ensures Owns(mem, others)
      ensures old(Args()) <= Args()
      ensures ok ==> Args() == old(Args()) + (if args == None then [] else TokensOf(args.value))
      ensures !ok ==> args.Some? && PartOf(Args()[|old(Args())|..], TokensOf(args.value))
      ensures var added := |Args()| - |old(Args())|;
              if ok then Spent(old(mem.answers), mem.answers, added)
              else Grants(old(mem.answers), 2 * added) && !Grants(old(mem.answers), 2 * added + 2)
                   && added < |TokensOf(args.value)|
    {
      hide TokensFrom, TokensOf, Values, Valid, Args, Blocks, Owns, PartOf, Grants, Left, Spent;
      if args == None || args.value == "" {
        GrantsNothing(mem.answers);
        NoTokens();
        return true;
      }
      ghost var added;
      ok, added := AddTokens(args.value, mem, others);
      PartialSplit(old(Args()), added, Args(), TokensOf(args.value));
    }

    /** The splitter's outer loop; `added` are the tokens that have been appended. */
    method AddTokens(s: CString, mem: Memory, ghost others: set<Block>) returns (ok: bool, ghost added: seq<CString>)
      requires Owns(mem, others)
      modifies this, mem
      ensures Owns(mem, others) && Args() == old(Args()) + added
      ensures ok ==> added == TokensOf(s) && Spent(old(mem.answers), mem.answers, |added|)
      ensures !ok ==> added < TokensOf(s)
      ensures !ok ==> Grants(old(mem.answers), 2 * |added|) && !Grants(old(mem.answers), 2 * |added| + 2)
    {
      hide TokensFrom, TokensOf, Values, Valid, Args, Blocks, Owns, Grants, Left, Spent;
      GrantsNothing(mem.answers);
      TokensFromStart(s);
      var p := 0;
      ghost var was: seq<CString> := Args();
      added, ok := [], true;
      while p < |s| && ok
        invariant 0 <= p <= |s| && Owns(mem, others) && Args() == was + added
        invariant ok ==> TokensOf(s) == added + TokensFrom(s, p) && Spent(old(mem.answers), mem.answers, |added|)
        invariant !ok ==> added < TokensOf(s)
        invariant !ok ==> Grants(old(mem.answers), 2 * |added|) && !Grants(old(mem.answers), 2 * |added| + 2)
        decreases |s| - p, ok
      {
        var q;
        q, ok, added := AddNext(s, p, mem, others, was, added, old(mem.answers));
        p := if ok then q else p;
      }
      NothingBehind(s, added);
    }

    /** One round of the splitter's outer loop: past the whitespace from `p` on, and the token there, if
        there is one, copied and appended. */
    method AddNext(s: CString, p: nat, mem: Memory, ghost others: set<Block>,
                   ghost was: seq<CString>, ghost done: seq<CString>, ghost answers: seq<bool>)
      returns (q: nat, ok: bool, ghost more: seq<CString>)
      requires Owns(mem, others) && p < |s| && Args() == was + done && TokensOf(s) == done + TokensFrom(s, p)
      requires Spent(answers, mem.answers, |done|)
      modifies this, mem
      ensures Owns(mem, others) && Args() == was + more
      ensures ok ==> p < q <= |s| && TokensOf(s) == more + TokensFrom(s, q)
      ensures ok ==> Spent(answers, mem.answers, |more|)
      ensures !ok ==> more < TokensOf(s) && Grants(answers, 2 * |more|) && !Grants(answers, 2 * |more| + 2)
    {
      hide TokensFrom, TokensOf, SkipSpace, SkipWord, Values, Valid, Args, Blocks, Owns, Grants, Left;
      SpentMore(answers, mem.answers, |done|);
      TokensStep(s, p);
      var start := PastSpace(s, p);
      if start == |s| {
        TokensStep(s, |s|);
        return |s|, true, done;
      }
      q := PastWord(s, start);
      var tok: CString := s[start..q];
      ok := Add(Some(tok), mem, others);
      more := if ok then done + [tok] else done;
      Regroup(was, done, tok, TokensFrom(s, q));
    }
  }

  lemma NextBlock(v: seq<Option<Str>>, n: nat, i: nat)
    requires i < n <= |v| && (forall k :: 0 <= k < n ==> v[k].Some?) && DistinctBlocks(v, n)
    ensures v[i].value.block in StrBlocks(v, n) && v[i].value.block !in StrBlocks(v, i)
    ensures StrBlocks(v, i + 1) == StrBlocks(v, i) + {v[i].value.block}
  {
  }

  lemma PartialSplit(was: seq<CString>, done: seq<CString>, now: seq<CString>, all: seq<CString>)
    requires now == was + done && done <= all
    ensures was <= now && PartOf(now[|was|..], all) && |now| - |was| == |done|
  {
    assert now[|was|..] == done;
  }

  lemma Regroup(was: seq<CString>, done: seq<CString>, tok: CString, rest: seq<CString>)
    ensures done + ([tok] + rest) == (done + [tok]) + rest
    ensures (was + done) + [tok] == was + (done + [tok])
  {
  }

  lemma NothingBehind(s: CString, done: seq<CString>)
    ensures done + TokensFrom(s, |s|) == done
  {
    TokensStep(s, |s|);
  }

  lemma TokensFromStart(s: CString)
    ensures TokensOf(s) == TokensFrom(s, 0)
  {
  }

  /** The inner loops of the splitter. */
  method PastSpace(s: CString, p: nat) returns (q: nat)
    requires p <= |s|
    ensures q == SkipSpace(s, p)
  {
    q := p;
    while q < |s| && IsSpace(s[q])
      invariant p <= q <= |s| && SkipSpace(s, q) == SkipSpace(s, p)
    {
      q := q + 1;
    }
  }

  method PastWord(s: CString, p: nat) returns (q: nat)
    requires p <= |s|
    ensures q == SkipWord(s, p)
  {
    q := p;
    while q < |s| && !IsSpace(s[q])
      invariant p <= q <= |s| && SkipWord(s, q) == SkipWord(s, p)
    {
      q := q + 1;
    }
  }

  // ---- the two commands

  /** The environment variables PIPER_BIN, PIPER_ARGS, PIPER_MODEL and PIPER_SINK. */
  datatype Environment = Environment(bin: Option<CString>, args: Option<CString>, model: Option<CString>,
                                     sink: Option<CString>)

  function OrElse(v: Option<CString>, default: CString): CString {
    if v == None || v.value == "" then default else v.value
  }

  function ModelArgs(model: Option<CString>): seq<CString> {
    if model == None || model.value == "" then [] else ["--model", model.value]
  }

  function PiperArgs(env: Environment): seq<CString> {
    [OrElse(env.bin, "piper")] + TokensOf(OrElse(env.args, "--output_file -")) + ModelArgs(env.model)
  }

  function SinkArgs(env: Environment): seq<CString> {
    TokensOf(OrElse(env.sink, "aplay -q"))
  }

  /** Not set, or empty. */
  predicate Unset(v: Option<CString>) { v == None || v.value == "" }

  /** What is set is taken as it is: the program, the tokens of its arguments, and the model behind its flag. */
  lemma GivenArgs(env: Environment)
    ensures !Unset(env.bin) && !Unset(env.args) && !Unset(env.model) ==>
              PiperArgs(env) == [env.bin.value] + TokensOf(env.args.value) + ["--model", env.model.value]
    ensures !Unset(env.bin) && !Unset(env.args) && Unset(env.model) ==>
              PiperArgs(env) == [env.bin.value] + TokensOf(env.args.value)
    ensures !Unset(env.sink) ==> SinkArgs(env) == TokensOf(env.sink.value)
  {
    hide TokensOf;
  }

  /** What is not set counts as its default. */
  lemma UnsetArgs(env: Environment, bin: CString, args: CString, sink: CString)
    requires bin == "piper" && args == "--output_file -" && sink == "aplay -q"
    ensures Unset(env.bin) ==> PiperArgs(env) == PiperArgs(env.(bin := Some(bin)))
    ensures Unset(env.args) ==> PiperArgs(env) == PiperArgs(env.(args := Some(args)))
    ensures Unset(env.sink) ==> SinkArgs(env) == SinkArgs(env.(sink := Some(sink)))
  {
    hide TokensOf;
  }

  /** `build_piper_cmd`, on an empty vector: two requests for each argument. */
  method BuildPiper(cmd: TtsCmd, env: Environment, mem: Memory, ghost others: set<Block>) returns (ok: bool)
    requires cmd.Owns(mem, others) && cmd.Args() == []
    modifies cmd, mem
    ensures cmd.Owns(mem, others) && PartOf(cmd.Args(), PiperArgs(env))
    ensures ok ==> cmd.Args() == PiperArgs(env)
    ensures ok == Grants(old(mem.answers), 2 * |PiperArgs(env)|)
    ensures ok ==> mem.answers == Left(old(mem.answers), 2 * |PiperArgs(env)|)
  {
    hide TokensOf, OrElse, Values, TtsCmd.Valid, TtsCmd.Args, TtsCmd.Blocks, Grants, Left;
    var bin, args := OrElse(env.bin, "piper"), OrElse(env.args, "--output_file -");
    ghost var tokens, more := TokensOf(args), ModelArgs(env.model);
    PiperNeeds(mem.answers, |tokens|, |more|);
    ok := cmd.Add(Some(bin), mem, others);
    if !ok {
      return;
    }
    assert cmd.Args() == [bin];
    ok := AddArgs(cmd, args, mem, others);
    if !ok {
      PartOfTokens(cmd.Args(), bin, tokens, more);
      return;
    }
    assert cmd.Args() == [bin] + tokens;
    ok := AddModel(cmd, env.model, mem, others);
    PartOfMore(cmd.Args(), [bin] + tokens, more);
  }

  /** What is needed for the first argument, for `n` and for `k` more. */
  lemma PiperNeeds(answers: seq<bool>, n: nat, k: nat)
    ensures var a, b := Left(answers, 2), Left(Left(answers, 2), 2 * n);
            && (Grants(answers, 2 * (1 + n + k)) <==> Grants(answers, 2) && Grants(a, 2 * n) && Grants(b, 2 * k))
            && Left(b, 2 * k) == Left(answers, 2 * (1 + n + k))
  {
    hide Grants, Left;
    GrantsMore(answers, 2, 2 * n);
    GrantsMore(answers, 2 + 2 * n, 2 * k);
    assert 2 + 2 * n + 2 * k == 2 * (1 + n + k);
  }

  /** `argv_add_split`, with what it needs. */
  method AddArgs(cmd: TtsCmd, args: CString, mem: Memory, ghost others: set<Block>) returns (ok: bool)
    requires cmd.Owns(mem, others)
    modifies cmd, mem
    ensures cmd.Owns(mem, others) && old(cmd.Args()) <= cmd.Args()
    ensures PartOf(cmd.Args()[|old(cmd.Args())|..], TokensOf(args))
    ensures ok ==> cmd.Args() == old(cmd.Args()) + TokensOf(args)
    ensures ok == Grants(old(mem.answers), 2 * |TokensOf(args)|)
    ensures ok ==> mem.answers == Left(old(mem.answers), 2 * |TokensOf(args)|)
  {
    hide TokensOf, Values, TtsCmd.Valid, TtsCmd.Args, TtsCmd.Blocks, TtsCmd.Owns, Grants, Left;
    ok := cmd.AddSplit(Some(args), mem, others);
    if !ok && Grants(old(mem.answers), 2 * |TokensOf(args)|) {
      ghost var added := |cmd.Args()| - |old(cmd.Args())|;
      GrantsFewer(old(mem.answers), 2 * added + 2, 2 * |TokensOf(args)|);
      assert false;
    }
  }

  /** The last two arguments, when there is a model. */
  method AddModel(cmd: TtsCmd, model: Option<CString>, mem: Memory, ghost others: set<Block>) returns (ok: bool)
    requires cmd.Owns(mem, others)
    modifies cmd, mem
    ensures cmd.Owns(mem, others) && old(cmd.Args()) <= cmd.Args()
    ensures PartOf(cmd.Args()[|old(cmd.Args())|..], ModelArgs(model))
    ensures ok ==> cmd.Args() == old(cmd.Args()) + ModelArgs(model)
    ensures ok == Grants(old(mem.answers), 2 * |ModelArgs(model)|)
    ensures ok ==> mem.answers == Left(old(mem.answers), 2 * |ModelArgs(model)|)
  {
    hide Values, TtsCmd.Valid, TtsCmd.Args, TtsCmd.Blocks, Grants, Left;
    GrantsNothing(mem.answers);
    GrantsMore(mem.answers, 2, 2);
    if model == None || model.value == "" {
      return true;
    }
    ok := cmd.Add(Some("--model"), mem, others);
    if !ok {
      return;
    }
    ok := cmd.Add(Some(model.value), mem, others);
  }

  lemma PartOfMore(a: seq<CString>, was: seq<CString>, more: seq<CString>)
    requires was <= a && PartOf(a[|was|..], more)
    ensures PartOf(a, was + more)
  {
    assert a == was + a[|was|..];
  }

  lemma PartOfTokens(a: seq<CString>, bin: CString, tokens: seq<CString>, more: seq<CString>)
    requires [bin] <= a && PartOf(a[1..], tokens)
    ensures PartOf(a, [bin] + tokens + more)
  {
    assert a == [bin] + a[1..];
  }

  /** `build_sink_cmd`, on an empty vector. */
  method BuildSink(cmd: TtsCmd, env: Environment, mem: Memory, ghost others: set<Block>) returns (ok: bool)
    requires cmd.Owns(mem, others) && cmd.Args() == []
    modifies cmd, mem
    ensures cmd.Owns(mem, others) && PartOf(cmd.Args(), SinkArgs(env))
    ensures ok ==> cmd.Args() == SinkArgs(env) && SinkArgs(env) != []
    ensures ok <==> SinkArgs(env) != [] && Grants(old(mem.answers), 2 * |SinkArgs(env)|)
  {
    hide TokensOf, Grants, Left;
    ok := AddArgs(cmd, OrElse(env.sink, "aplay -q"), mem, others);
    assert cmd.Args()[0..] == cmd.Args();
    if !ok {
      return;
    }
    if cmd.argc == 0 {
      return false;
    }
  }
}
