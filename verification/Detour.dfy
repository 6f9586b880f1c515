/** src/hook.c: the page arithmetic around `mprotect`, and the code that rewrites a function's entry
    and builds its trampoline, on the bytes of the process. */
module Detour {
  import opened Bytes
  import opened Decoder
  import opened HookSpace
  import opened Machine

  const PAGE: nat := 4096
  const TRAMPOLINE_SIZE: nat := 64

  // ---- pages

  /** `get_page_start`: the multiple of 4096 that is at most 4095 below the address. */
  function PageStart(a: nat): (p: nat)
    ensures p <= a < p + 4096 && p % 4096 == 0
  {
    if a - a % PAGE == a then a else a - a % PAGE
  }

  /** The pages that `change_range_prot` touches for a range. */
  function RangePages(addr: nat, len: nat): set<nat> {
    {PageStart(addr), PageStart(addr + len)}
  }

  /** The two pages cover the range and the byte after it whenever it has at most 4096 bytes. */
  lemma TwoPagesCover(addr: nat, len: nat, x: nat)
    requires len <= PAGE && addr <= x <= addr + len
    ensures PageStart(x) in RangePages(addr, len)
  {
  }

  /** They cover a longer range exactly when no page lies between its first and its last. */
  lemma TwoPagesCoverExactly(addr: nat, len: nat)
    ensures (forall x: nat :: addr <= x < addr + len ==> PageStart(x) in RangePages(addr, len))
            <==> PageStart(addr + len) <= PageStart(addr) + PAGE
  {
    if PageStart(addr + len) > PageStart(addr) + PAGE {
      assert PageStart(PageStart(addr) + PAGE) !in RangePages(addr, len);
    } else {
      forall x: nat | addr <= x < addr + len ensures PageStart(x) in RangePages(addr, len) {
        PageMonotone(addr, x);
        PageMonotone(x, addr + len);
      }
    }
  }

  lemma PageMonotone(a: nat, b: nat)
    requires a <= b
    ensures PageStart(a) <= PageStart(b)
    ensures PageStart(a) < PageStart(b) ==> PageStart(a) + PAGE <= PageStart(b)
  {
  }

  // ---- what is written

  /** The patched entry: `push rax; mov rax, hook; push rax; ret`. */
  function EntryBytes(hook: Word): (bs: seq<Byte>)
    ensures |bs| == 13
  {
    PushBytes(RAX) + EmitBytes(MovRax(hook)) + PushBytes(RAX) + EmitBytes(Ret)
  }

  function LowDword(w: Word): nat { w % TWO32 }
  function HighDword32(w: Word): nat { w / TWO32 }

  /** The way back behind the copied instructions: `push low; mov dword [rsp+4], high; ret`. */
  function TailBytes(resume: Word): (bs: seq<Byte>)
    ensures |bs| == 14
  {
    EmitBytes(Push32(LowDword(resume))) + EmitBytes(StoreHigh(HighDword32(resume))) + EmitBytes(Ret)
  }

  /** The block `lo..hi` does not meet the block `a..a+n`. */
  predicate Clear(lo: int, hi: int, a: int, n: int) {
    a + n <= lo || hi <= a
  }

  predicate Room(m: Mem, proc: nat, copy: nat, tramp: nat) {
    proc + copy <= |m| && tramp + copy + 14 <= |m| && 13 <= copy && Clear(proc, proc + copy, tramp, copy + 14)
  }

  /** Memory after the instructions have been copied. */
  function Copied(m: Mem, proc: nat, copy: nat, tramp: nat): Mem
    requires Room(m, proc, copy, tramp)
  {
    Put(m, tramp, m[proc..proc + copy])
  }

  /** Memory after a complete installation. */
  function Installed(m: Mem, proc: nat, copy: nat, hook: Word, tramp: nat): (r: Mem)
    requires Room(m, proc, copy, tramp)
    ensures |r| == |m|
  {
    Put(Put(Copied(m, proc, copy, tramp), proc, EntryBytes(hook)), tramp + copy, TailBytes(proc + copy))
  }

  /** With instructions of at most 15 bytes, 27 bytes of the function and 41 of the buffer are room enough. */
  lemma RoomEnough(m: Mem, proc: nat, tramp: nat, d: nat)
    requires proc + 27 <= |m| && tramp + 41 <= |m| && Clear(proc, proc + 27, tramp, 41)
    requires HookBoundary(At(m[proc..]), d)
    requires forall lens: seq<nat> :: Tiles(At(m[proc..]), 0, lens) && Sum(lens) == d ==> AtMost15(lens)
    ensures Room(m, proc, d, tramp) && d + 14 <= 41 < 64
  {
    hide At;
    var code := m[proc..];
    var lens :| Tiles(At(code), 0, lens) && Sum(lens) == d;
    HookSpaceBounds(code, lens);
  }

  lemma {:induction false} PutAppend(m: Mem, a: nat, x: seq<Byte>, y: seq<Byte>)
    requires a + |x| + |y| <= |m|
    ensures Put(Put(m, a, x), a + |x|, y) == Put(m, a, x + y)
  {
  }

  lemma PutNothing(m: Mem, a: nat)
    requires a <= |m|
    ensures Put(m, a, []) == m
  {
  }

  /** Installation leaves the patched entry at the function, the copied block with the way back in
      the trampoline, and every other byte of memory as it was. */
  lemma InstalledLayout(m: Mem, proc: nat, copy: nat, hook: Word, tramp: nat)
    requires Room(m, proc, copy, tramp)
    ensures var r := Installed(m, proc, copy, hook, tramp);
            && |r| == |m|
            && CodeAt(r, proc, EntryBytes(hook))
            && CodeAt(r, tramp, m[proc..proc + copy] + TailBytes(proc + copy))
            && forall x :: 0 <= x < |m| && !(proc <= x < proc + 13) && !(tramp <= x < tramp + copy + 14)
                 ==> r[x] == m[x]
  {
    var block, tail := m[proc..proc + copy], TailBytes(proc + copy);
    var c := Copied(m, proc, copy, tramp);
    var e := Put(c, proc, EntryBytes(hook));
    var r := Installed(m, proc, copy, hook, tramp);
    hide EntryBytes, TailBytes, Put;
    assert r[tramp..tramp + copy + 14] == block + tail by {
      forall i | 0 <= i < copy ensures r[tramp + i] == block[i] {
        assert c[tramp..tramp + copy][i] == c[tramp + i];
      }
      assert r[tramp + copy..tramp + copy + 14] == tail;
    }
    assert r[proc..proc + 13] == e[proc..proc + 13];
  }

  /** Neither copy nor installation touches a word that lies elsewhere. */
  lemma InstalledSpares(m: Mem, proc: nat, copy: nat, hook: Word, tramp: nat, at: nat)
    requires Room(m, proc, copy, tramp) && at + 8 <= |m|
    requires Clear(at, at + 8, proc, copy) && Clear(at, at + 8, tramp, copy + 14)
    ensures Copied(m, proc, copy, tramp)[at..at + 8] == m[at..at + 8]
    ensures Installed(m, proc, copy, hook, tramp)[at..at + 8] == m[at..at + 8]
  {
    hide EntryBytes, TailBytes, Put;
    InstalledLayout(m, proc, copy, hook, tramp);
  }

  // ---- the process

  class Process {
    const mem: array<Byte>
    const trampoline: nat
    const hook1: Word
    const kuk: nat
    const kuks: seq<Word>
    var writable: set<nat>

    /** The trampoline buffer is page-aligned; `kuk` is the address of the variable of that name, and
        `kuks` are the addresses of kuk0, kuk1 and kuk2. */
    predicate Valid() {
      && mem.Length < TWO64
      && |kuks| == 3
      && trampoline % PAGE == 0
      && trampoline + TRAMPOLINE_SIZE <= mem.Length
      && kuk + 8 <= mem.Length
    }

    predicate Writable(a: nat, n: nat)
      reads this
    {
      forall x :: a <= x < a + n ==> PageStart(x) in writable
    }

    /** The page that starts at the multiple of 4096 below each of its bytes has been made writable. */
    lemma WritableBytes(a: nat, n: nat, page: nat, x: nat)
      requires Writable(a, n) && a <= x < a + n && page % 4096 == 0 && page <= x < page + 4096
      ensures page in writable
    {
      assert PageStart(x) == page;
    }

    constructor (mem: array<Byte>, trampoline: nat, hook1: Word, kuk: nat, kuks: seq<Word>, writable: set<nat>)
      requires mem.Length < TWO64 && |kuks| == 3
      requires trampoline % PAGE == 0 && trampoline + TRAMPOLINE_SIZE <= mem.Length && kuk + 8 <= mem.Length
      ensures Valid() && this.mem == mem && this.trampoline == trampoline && this.hook1 == hook1
      ensures this.kuk == kuk && this.kuks == kuks && this.writable == writable
    {
      this.mem := mem;
      this.trampoline := trampoline;
      this.hook1 := hook1;
      this.kuk := kuk;
      this.kuks := kuks;
      this.writable := writable;
    }

    /** One `mprotect` of one page; `ok` is the answer of the system. */
    method Mprotect(page: nat, write: bool, ok: bool)
      modifies this`writable
      ensures writable == if !ok then old(writable)
                          else if write then old(writable) + {page} else old(writable) - {page}
    {
      if ok {
        writable := if write then writable + {page} else writable - {page};
      }
    }

    /** `change_range_prot`; the answers are those for the first and the last page. */
    method ChangeRangeProt(addr: nat, len: nat, write: bool, okFirst: bool, okLast: bool) returns (ok: bool)
      modifies this`writable
      ensures ok == (okFirst && (okLast || PageStart(addr) == PageStart(addr + len)))
      ensures write ==> old(writable) <= writable <= old(writable) + RangePages(addr, len)
      ensures write && ok ==> writable == old(writable) + RangePages(addr, len)
      ensures write && ok && len <= PAGE ==> Writable(addr, len)
    {
      var startPage := PageStart(addr);
      var endPage := PageStart(addr + len);
      Mprotect(startPage, write, okFirst);
      ok := okFirst;
      if startPage != endPage {
        Mprotect(endPage, write, okLast);
        ok := ok && okLast;
      }
      if write && ok && len <= PAGE {
        forall x | addr <= x < addr + len ensures PageStart(x) in writable {
          TwoPagesCover(addr, len, x);
        }
      }
    }

    /** A store of consecutive bytes; every byte must lie on a page that was made writable. */
    method Store(a: nat, bs: seq<Byte>)
      requires mem.Length < TWO64 && a + |bs| <= mem.Length && Writable(a, |bs|)
      modifies mem
      ensures mem[..] == Put(old(mem[..]), a, bs)
    {
      for i := 0 to |bs|
        invariant forall x :: 0 <= x < mem.Length ==>
                    mem[x] == if a <= x < a + i then bs[x - a] else old(mem[x])
      {
        mem[a + i] := bs[i];
      }
    }

    /** A store right behind what has been written since memory was `m`. */
    method StoreNext(ghost m: Mem, base: nat, ghost done: seq<Byte>, a: nat, bs: seq<Byte>)
      requires mem.Length < TWO64 && a == base + |done| && a + |bs| <= mem.Length && Writable(a, |bs|)
      requires |m| == mem.Length && mem[..] == Put(m, base, done)
      modifies mem
      ensures mem[..] == Put(m, base, done + bs)
    {
      Store(a, bs);
      PutAppend(m, base, done, bs);
    }

    /** The thirteen bytes of the new entry, in the order in which the source stores them. */
    method PatchEntry(proc: nat, hook: Word)
      requires mem.Length < TWO64 && proc + 13 <= mem.Length && Writable(proc, 13)
      modifies mem
      ensures mem[..] == Put(old(mem[..]), proc, EntryBytes(hook))
    {
      hide Put, ToLE, EntryBytes, PageStart;
      ghost var m: Mem := mem[..];
      ghost var one: seq<Byte> := [] + [0x50];
      ghost var three := one + [0x48] + [0xB8];
      ghost var imm := three + ToLE(hook, 8);
      PutNothing(m, proc);
      StoreNext(m, proc, [], proc, [0x50]);
      StoreNext(m, proc, one, proc + 1, [0x48]);
      StoreNext(m, proc, one + [0x48], proc + 2, [0xB8]);
      StoreNext(m, proc, three, proc + 3, ToLE(hook, 8));
      StoreNext(m, proc, imm, proc + 11, [0x50]);
      StoreNext(m, proc, imm + [0x50], proc + 12, [0xC3]);
      EntrySpelled(hook);
    }

    /** The fourteen bytes of the way back. */
    method WriteTail(at: nat, resume: Word)
      requires mem.Length < TWO64 && at + 14 <= mem.Length && Writable(at, 14)
      modifies mem
      ensures mem[..] == Put(old(mem[..]), at, TailBytes(resume))
    {
      hide Put, ToLE, TailBytes, PageStart;
      ghost var m: Mem := mem[..];
      ghost var push: seq<Byte> := [0x68] + ToLE(resume % TWO32, 4);
      ghost var mov := push + ToLE(0x042444C7, 4);
      PutNothing(m, at);
      StoreNext(m, at, [], at, [0x68]);
      StoreNext(m, at, [0x68], at + 1, ToLE(resume % TWO32, 4));
      StoreNext(m, at, push, at + 5, ToLE(0x042444C7, 4));
      StoreNext(m, at, mov, at + 9, ToLE(resume / TWO32, 4));
      StoreNext(m, at, mov + ToLE(resume / TWO32, 4), at + 13, [0xC3]);
      TailSpelled(resume);
    }

    /** The copy loop: byte by byte from the function to the trampoline. */
    method CopyOut(proc: nat, copy: nat)
      requires Valid() && Room(mem[..], proc, copy, trampoline) && Writable(trampoline, copy)
      modifies mem
      ensures mem[..] == Put(old(mem[..]), trampoline, old(mem[..])[proc..proc + copy])
    {
      hide Put, Writable;
      ghost var m: Mem := mem[..];
      var i := 0;
      PutNothing(m, trampoline);
      assert m[proc..proc + i] == [];
      while i < copy
        invariant 0 <= i <= copy && |m| == mem.Length
        invariant mem[..] == Put(m, trampoline, m[proc..proc + i])
      {
        CopyByte(m, proc, copy, i);
        i := i + 1;
      }
    }

    method CopyByte(ghost m: Mem, proc: nat, ghost copy: nat, i: nat)
      requires Valid() && Room(m, proc, copy, trampoline) && Writable(trampoline, copy) && i < copy
      requires |m| == mem.Length && mem[..] == Put(m, trampoline, m[proc..proc + i])
      modifies mem
      ensures mem[..] == Put(m, trampoline, m[proc..proc + i + 1])
    {
      hide Put, PageStart;
      SourceKept(m, proc, copy, trampoline, i);
      StoreNext(m, trampoline, m[proc..proc + i], trampoline + i, [mem[..][proc + i]]);
    }

    /** The rewriting proper: the new entry, then the way back. */
    method Rewrite(proc: nat, copy: nat, hook: Word)
      requires mem.Length < TWO64 && 13 <= copy
      requires proc + copy <= mem.Length && trampoline + copy + 14 <= mem.Length
      requires Writable(trampoline + copy, 14) && Writable(proc, 13)
      modifies mem
      ensures mem[..] == Put(Put(old(mem[..]), proc, EntryBytes(hook)), trampoline + copy,
                             TailBytes(proc + copy))
    {
      hide Put, EntryBytes, TailBytes, PageStart;
      PatchEntry(proc, hook);
      WriteTail(trampoline + copy, proc + copy);
    }

    /** `hook_proc`, x86_64 branch. A refused unprotect leaves only the copy behind. */
    method HookProc(proc: nat, copy: nat, hook: Word, okFirst: bool, okLast: bool) returns (res: int)
      requires Valid() && copy <= PAGE && Room(mem[..], proc, copy, trampoline)
      requires Writable(trampoline, copy + 14)
      modifies mem, this`writable
      ensures old(writable) <= writable
      ensures proc == 0 ==> res == 1 && mem[..] == old(mem[..])
      ensures proc != 0 ==>
                if okFirst && (okLast || PageStart(proc) == PageStart(proc + copy)) then
                  res == copy + 14 && mem[..] == Installed(old(mem[..]), proc, copy, hook, trampoline)
                else
                  res == -1 && mem[..] == Copied(old(mem[..]), proc, copy, trampoline)
    {
      if proc == 0 {
        return 1;
      }
      hide Put, EntryBytes, TailBytes, PageStart;
      ghost var m: Mem := mem[..];
      CopyOut(proc, copy);
      assert Room(mem[..], proc, copy, trampoline);
      var ok := ChangeRangeProt(proc, copy, true, okFirst, okLast);
      if !ok {
        return -1;
      }
      Rewrite(proc, copy, hook);
      return copy + 14;
    }

    /** The callback that hook number `n` selects. */
    function Callback(n: int): Word
      requires |kuks| == 3
    {
      if n == 0 then kuks[1] else if n == 1 then kuks[2] else if n == 2 then kuks[0] else 0
    }

    /** Memory once `kuk` holds the callback that hook number `n` selects. */
    ghost function Selected(n: int): Mem
      requires Valid()
      reads mem
    {
      Put(mem[..], kuk, ToLE(Callback(n), 8))
    }

    /** `hook`. The answers of the system are those for the trampoline's page and for the first and
        last page of the function. Hook number 0 selects kuk1, 1 selects kuk2, 2 selects kuk0, and any other
        none, whatever happens afterwards. True is returned for a NULL function and for a refused unprotect
        of the function as well; otherwise it means "installed". */
    method Hook(proc: nat, n: int, okBuffer: bool, okFirst: bool, okLast: bool) returns (r: bool)
      requires Valid() && proc <= mem.Length && Writable(kuk, 8)
      requires forall d: nat :: HookBoundary(At(Selected(n)[proc..]), d) ==>
                                  Room(Selected(n), proc, d, trampoline) && d + 14 <= PAGE
      modifies mem, this
      ensures Outcome(old(Selected(n)), mem[..], proc, okBuffer, okFirst, okLast, r)
      ensures Elsewhere(old(Selected(n)), proc) ==>
                mem[kuk..kuk + 8] == ToLE(if n == 0 then kuks[1] else if n == 1 then kuks[2]
                                          else if n == 2 then kuks[0] else 0, 8)
    {
      hide Copied, Installed, At, HookBoundary, PageStart, Put, Outcome, Elsewhere;
      Store(kuk, ToLE(Callback(n), 8));
      ghost var m: Mem := mem[..];
      assert m == old(Selected(n));
      r := Redirect(proc, okBuffer, okFirst, okLast);
      if Elsewhere(m, proc) {
        KukStays(m, mem[..], proc, okBuffer, okFirst, okLast, r);
        assert m[kuk..kuk + 8] == ToLE(Callback(n), 8);
      }
    }

    /** `kuk` lies neither in what is moved nor in the trampoline. */
    ghost predicate Elsewhere(m: Mem, proc: nat)
      requires proc <= |m|
    {
      forall d: nat :: HookBoundary(At(m[proc..]), d) ==>
                         Clear(kuk, kuk + 8, proc, d) && Clear(kuk, kuk + 8, trampoline, d + 14)
    }

    /** Memory `now` and result `r` of redirecting the function in memory `m`. */
    ghost predicate Outcome(m: Mem, now: seq<Byte>, proc: nat, okBuffer: bool, okFirst: bool, okLast: bool, r: bool)
      requires proc <= |m|
      requires forall d: nat :: HookBoundary(At(m[proc..]), d) ==> Room(m, proc, d, trampoline)
    {
      && ((forall d: nat :: !HookBoundary(At(m[proc..]), d)) ==> !r && now == m)
      && forall d: nat :: HookBoundary(At(m[proc..]), d) ==>
           if !okBuffer then !r && now == m
           else if proc == 0 then r && now == m
           else if okFirst && (okLast || PageStart(proc) == PageStart(proc + d)) then
             r && now == Installed(m, proc, d, hook1, trampoline)
           else
             r && now == Copied(m, proc, d, trampoline)
    }

    /** The rest of `hook`, once `kuk` is set. */
    method Redirect(proc: nat, okBuffer: bool, okFirst: bool, okLast: bool) returns (r: bool)
      requires Valid() && proc <= mem.Length
      requires forall d: nat :: HookBoundary(At(mem[proc..]), d) ==>
                                  Room(mem[..], proc, d, trampoline) && d + 14 <= PAGE
      modifies mem, this
      ensures Outcome(old(mem[..]), mem[..], proc, okBuffer, okFirst, okLast, r)
    {
      hide Copied, Installed, At, HookBoundary, PageStart, Put;
      assert mem[..][proc..] == mem[proc..];
      var space := GetHookSpace(mem[proc..]);
      if !space.Length? {
        assert forall d: nat :: !HookBoundary(At(mem[proc..]), d);
        return false;
      }
      var copy := space.n;
      HookBoundaryFrom13(At(mem[proc..]), copy);
      var ok := ChangeRangeProt(trampoline, 128, true, okBuffer, okBuffer);
      if !ok {
        return false;
      }
      BufferWritable(copy + 14);
      var res := HookProc(proc, copy, hook1, okFirst, okLast);
      if res != 0 {
        return true;
      }
      return false;
    }

    lemma KukStays(m: Mem, now: Mem, proc: nat, okBuffer: bool, okFirst: bool, okLast: bool, r: bool)
      requires Valid() && |m| == |now| == mem.Length && proc <= |m|
      requires forall d: nat :: HookBoundary(At(m[proc..]), d) ==> Room(m, proc, d, trampoline)
      requires Outcome(m, now, proc, okBuffer, okFirst, okLast, r) && Elsewhere(m, proc)
      ensures now[kuk..kuk + 8] == m[kuk..kuk + 8]
    {
      hide At, HookBoundary, PageStart, Installed, Copied;
      if d: nat :| HookBoundary(At(m[proc..]), d) {
        InstalledSpares(m, proc, d, hook1, trampoline, kuk);
      }
    }

    /** The buffer starts a page, so its page holds whatever is written to it. */
    lemma BufferWritable(n: nat)
      requires Valid() && RangePages(trampoline, 128) <= writable && n <= PAGE
      ensures Writable(trampoline, n)
    {
    }
  }

  /** The copy does not run into its own source. */
  lemma SourceKept(m: Mem, proc: nat, copy: nat, tramp: nat, i: nat)
    requires Room(m, proc, copy, tramp) && i < copy
    ensures Put(m, tramp, m[proc..proc + i])[proc + i] == m[proc + i]
    ensures m[proc..proc + i] + [m[proc + i]] == m[proc..proc + i + 1]
  {
  }

  lemma EntrySpelled(hook: Word)
    ensures var one: seq<Byte> := [] + [0x50];
            EntryBytes(hook) == one + [0x48] + [0xB8] + ToLE(hook, 8) + [0x50] + [0xC3]
  {
    hide ToLE;
    assert [] + [0x50] + [0x48] + [0xB8] == [0x50, 0x48, 0xB8];
    assert [0x50] + ([0x48, 0xB8] + ToLE(hook, 8)) == [0x50, 0x48, 0xB8] + ToLE(hook, 8);
  }

  lemma TailSpelled(resume: Word)
    ensures TailBytes(resume) ==
              [0x68] + ToLE(resume % TWO32, 4) + ToLE(0x042444C7, 4) + ToLE(resume / TWO32, 4) + [0xC3]
  {
    MovDword();
    hide ToLE;
    var lo, hi := ToLE(resume % TWO32, 4), ToLE(resume / TWO32, 4);
    var mov: seq<Byte> := [0xC7, 0x44, 0x24, 0x04];
    assert ([0x68] + lo) + (mov + hi) == ([0x68] + lo + mov) + hi;
  }

  lemma MovDword()
    ensures ToLE(0x042444C7, 4) == [0xC7, 0x44, 0x24, 0x04]
  {
    assert ToLE(0x042444C7, 4) == [0xC7] + ToLE(0x042444, 3);
    assert ToLE(0x042444, 3) == [0x44] + ToLE(0x0424, 2);
    assert ToLE(0x0424, 2) == [0x24] + ToLE(0x04, 1);
    assert ToLE(0x04, 1) == [0x04] + ToLE(0, 0);
  }
}
