/** The RIFF/WAVE header reader of src/utils.c over a descriptor that may return short reads and be
    interrupted (RIFF: 'Multimedia Programming Interface and Data Specifications 1.0', chapter 2). */
module Wav {
  import opened Bytes
  import opened Options

  // ---- the format

  const RIFF: seq<Byte> := [0x52, 0x49, 0x46, 0x46]
  const WAVE: seq<Byte> := [0x57, 0x41, 0x56, 0x45]
  const FMT: seq<Byte> := [0x66, 0x6D, 0x74, 0x20]
  const DATA: seq<Byte> := [0x64, 0x61, 0x74, 0x61]

  datatype WavInfo = WavInfo(format: nat, channels: nat, rate: nat, bits: nat)

  /** A chunk in front of the data: the format chunk, with the two fields that are not kept and any
      extension, or another chunk. `pad` is the byte that follows an odd-sized chunk. */
  datatype Chunk = Fmt(info: WavInfo, byteRate: nat, blockAlign: nat, extra: seq<Byte>, pad: seq<Byte>)
                 | Other(id: seq<Byte>, body: seq<Byte>, pad: seq<Byte>)

  predicate FieldsFit(i: WavInfo) {
    i.format < 0x1_0000 && i.channels < 0x1_0000 && i.rate < TWO32 && i.bits < 0x1_0000
  }

  function Size(c: Chunk): nat {
    if c.Fmt? then 16 + |c.extra| else |c.body|
  }

  predicate WellFormed(c: Chunk) {
    && Size(c) < TWO32 && |c.pad| == Size(c) % 2
    && match c
       case Fmt(info, byteRate, blockAlign, _, _) => FieldsFit(info) && byteRate < TWO32 && blockAlign < 0x1_0000
       case Other(id, _, _) => |id| == 4 && id != FMT && id != DATA
  }

  function Header(c: Chunk): seq<Byte> {
    (if c.Fmt? then FMT else c.id) + ToLE(Size(c), 4)
  }

  function Body(c: Chunk): seq<Byte> {
    match c
    case Fmt(i, byteRate, blockAlign, extra, _) =>
      (ToLE(i.format, 2) + ToLE(i.channels, 2) + ToLE(i.rate, 4) + ToLE(byteRate, 4) +
       ToLE(blockAlign, 2) + ToLE(i.bits, 2)) + extra
    case Other(_, body, _) => body
  }

  function ChunkBytes(c: Chunk): seq<Byte> {
    Header(c) + Body(c) + c.pad
  }

  function Concat(cs: seq<Chunk>): seq<Byte> {
    if cs == [] then [] else ChunkBytes(cs[0]) + Concat(cs[1..])
  }

  predicate AllWellFormed(cs: seq<Chunk>) {
    forall i :: 0 <= i < |cs| ==> WellFormed(cs[i])
  }

  /** The last format chunk decides; `info` is what was known before. */
  function LastFmt(cs: seq<Chunk>, info: Option<WavInfo>): Option<WavInfo> {
    if cs == [] then info else LastFmt(cs[1..], if cs[0].Fmt? then Some(cs[0].info) else info)
  }

  /** A file up to the first payload byte; the sizes of the file and of the data are not looked at. */
  function FileHead(riffSize: seq<Byte>, cs: seq<Chunk>, dataSize: seq<Byte>): seq<Byte> {
    RIFF + riffSize + WAVE + Concat(cs) + (DATA + dataSize)
  }

  // ---- what is read from a byte sequence

  function U16(s: seq<Byte>, at: nat): nat
    requires at + 2 <= |s|
  {
    FromLE(s[at..at + 2])
  }

  function U32(s: seq<Byte>, at: nat): nat
    requires at + 4 <= |s|
  {
    FromLE(s[at..at + 4])
  }

  /** The fields of the format chunk whose sixteen bytes start at `at`. */
  function FieldsAt(s: seq<Byte>, at: nat): WavInfo
    requires at + 16 <= |s|
  {
    WavInfo(U16(s, at), U16(s, at + 2), U32(s, at + 4), U16(s, at + 14))
  }

  /** The chunk walk from `at`: what is known of the format when the data header has been passed, and
      the offset behind it. */
  function Walk(s: seq<Byte>, at: nat, info: Option<WavInfo>): Option<(Option<WavInfo>, nat)>
    decreases |s| - at
  {
    if at + 8 > |s| then None
    else
      var id, size := s[at..at + 4], U32(s, at + 4);
      var end := at + 8 + size + size % 2;
      if id == DATA then Some((info, at + 8))
      else if id == FMT then
        if size < 16 || end > |s| then None else Walk(s, end, Some(FieldsAt(s, at + 8)))
      else if end > |s| then None else Walk(s, end, info)
  }

  function Parse(s: seq<Byte>, at: nat): Option<(WavInfo, nat)> {
    if at + 12 > |s| || s[at..at + 4] != RIFF || s[at + 8..at + 12] != WAVE then None
    else match Walk(s, at + 12, None)
         case Some((Some(info), end)) => Some((info, end))
         case _ => None
  }

  // ---- round trip

  lemma LEBack(v: nat, n: nat)
    requires (n == 2 && v < 0x1_0000) || (n == 4 && v < TWO32)
    ensures FromLE(ToLE(v, n)) == v
  {
    Pow256Values();
    FromToLE(v, n);
  }

  lemma ChunkSize(c: Chunk)
    requires WellFormed(c)
    ensures |Header(c)| == 8 && |Body(c)| == Size(c) && |ChunkBytes(c)| == 8 + Size(c) + Size(c) % 2
  {
    hide ToLE;
  }

  lemma HeaderRead(s: seq<Byte>, at: nat, c: Chunk)
    requires WellFormed(c) && at + 8 <= |s| && s[at..at + 8] == Header(c)
    ensures s[at..at + 4] == (if c.Fmt? then FMT else c.id) && U32(s, at + 4) == Size(c)
  {
    hide ToLE, FromLE, Size;
    var h := s[at..at + 8];
    assert s[at..at + 4] == h[..4] && s[at + 4..at + 8] == h[4..];
    LEBack(Size(c), 4);
  }

  lemma SubSlice(s: seq<Byte>, at: nat, n: nat, i: nat, j: nat)
    requires at + n <= |s| && i <= j <= n
    ensures s[at..at + n][i..j] == s[at + i..at + j]
  {
    var x, y := s[at..at + n][i..j], s[at + i..at + j];
    assert |x| == |y|;
    forall k | 0 <= k < |x| ensures x[k] == y[k] {
    }
  }

  lemma Glue(s: seq<Byte>, a: nat, b: nat, c: nat)
    requires a <= b <= c <= |s|
    ensures s[a..b] + s[b..c] == s[a..c]
  {
  }

  lemma SixParts(a: seq<Byte>, b: seq<Byte>, c: seq<Byte>, d: seq<Byte>, e: seq<Byte>, f: seq<Byte>, g: seq<Byte>)
    requires |a| == 2 && |b| == 2 && |c| == 4 && |d| == 4 && |e| == 2 && |f| == 2
    ensures var t := (a + b + c + d + e + f + g)[..16];
            t[0..2] == a && t[2..4] == b && t[4..8] == c && t[14..16] == f
  {
  }

  lemma FieldsRead(s: seq<Byte>, at: nat, c: Chunk)
    requires WellFormed(c) && c.Fmt? && at + 16 <= |s| && s[at..at + 16] == Body(c)[..16]
    ensures FieldsAt(s, at) == c.info
  {
    hide ToLE, FromLE;
    var i := c.info;
    LEBack(i.format, 2);
    LEBack(i.channels, 2);
    LEBack(i.rate, 4);
    LEBack(i.bits, 2);
    SixParts(ToLE(i.format, 2), ToLE(i.channels, 2), ToLE(i.rate, 4), ToLE(c.byteRate, 4), ToLE(c.blockAlign, 2),
             ToLE(i.bits, 2), c.extra);
    SubSlice(s, at, 16, 0, 2);
    SubSlice(s, at, 16, 2, 4);
    SubSlice(s, at, 16, 4, 8);
    SubSlice(s, at, 16, 14, 16);
  }

  /** One serialised chunk is walked over. */
  lemma WalkChunk(s: seq<Byte>, at: nat, c: Chunk, info: Option<WavInfo>)
    requires WellFormed(c) && at + |ChunkBytes(c)| <= |s| && s[at..at + |ChunkBytes(c)|] == ChunkBytes(c)
    ensures Walk(s, at, info) == Walk(s, at + |ChunkBytes(c)|, if c.Fmt? then Some(c.info) else info)
  {
    hide Header, Body, FieldsAt, U32;
    ChunkSize(c);
    var b := s[at..at + |ChunkBytes(c)|];
    assert s[at..at + 8] == b[..8] == Header(c);
    HeaderRead(s, at, c);
    if c.Fmt? {
      SubSlice(s, at, |ChunkBytes(c)|, 8, 24);
      assert b[8..24] == Body(c)[..16];
      FieldsRead(s, at + 8, c);
    }
  }

  lemma {:induction false} WalkChunks(s: seq<Byte>, at: nat, cs: seq<Chunk>, info: Option<WavInfo>)
    requires AllWellFormed(cs) && at + |Concat(cs)| <= |s| && s[at..at + |Concat(cs)|] == Concat(cs)
    ensures Walk(s, at, info) == Walk(s, at + |Concat(cs)|, LastFmt(cs, info))
    decreases |cs|
  {
    hide Walk, WellFormed, ChunkBytes;
    if cs != [] {
      var n, b := |ChunkBytes(cs[0])|, s[at..at + |Concat(cs)|];
      SubSlice(s, at, |b|, 0, n);
      SubSlice(s, at, |b|, n, |b|);
      assert b == ChunkBytes(cs[0]) + Concat(cs[1..]);
      WalkChunk(s, at, cs[0], info);
      WalkChunks(s, at + n, cs[1..], if cs[0].Fmt? then Some(cs[0].info) else info);
    }
  }

  lemma WalkData(s: seq<Byte>, at: nat, info: Option<WavInfo>)
    requires at + 8 <= |s| && s[at..at + 4] == DATA
    ensures Walk(s, at, info) == Some((info, at + 8))
  {
  }

  /** Reading back what was written: for any chunks in any order, the fields of the last format chunk
      and the offset of the first payload byte; without a format chunk, nothing. */
  lemma ParsesWritten(before: seq<Byte>, riffSize: seq<Byte>, cs: seq<Chunk>, dataSize: seq<Byte>, payload: seq<Byte>)
    requires |riffSize| == 4 && |dataSize| == 4 && AllWellFormed(cs)
    ensures Parse(before + FileHead(riffSize, cs, dataSize) + payload, |before|) ==
              match LastFmt(cs, None)
              case None => None
              case Some(info) => Some((info, |before| + |FileHead(riffSize, cs, dataSize)|))
  {
    hide Walk, AllWellFormed, Concat, LastFmt;
    var at, mid := |before|, Concat(cs);
    var s := before + FileHead(riffSize, cs, dataSize) + payload;
    assert s[at..at + 4] == RIFF && s[at + 8..at + 12] == WAVE;
    assert s[at + 12..at + 12 + |mid|] == mid;
    assert s[at + 12 + |mid|..at + 12 + |mid| + 4] == DATA;
    WalkChunks(s, at + 12, cs, None);
    WalkData(s, at + 12 + |mid|, LastFmt(cs, None));
  }

  // ---- the usual header, byte by byte

  lemma NumIs(s: seq<Byte>, at: nat)
    ensures at + 2 <= |s| ==> U16(s, at) == Num(s[at], s[at + 1], 0, 0)
    ensures at + 4 <= |s| ==> U32(s, at) == Num(s[at], s[at + 1], s[at + 2], s[at + 3])
  {
    if at + 2 <= |s| { NumOf(s[at..at + 2]); }
    if at + 4 <= |s| { NumOf(s[at..at + 4]); }
  }

  /** "RIFF", a size, "WAVE", "fmt ", 16, the fields, "data" and a size: the payload starts at byte 44, the
      format is at byte 20, the channels at 22, the rate at 24 and the bits at 34. */
  lemma UsualHeader(s: seq<Byte>)
    requires |s| >= 44 && s[0..4] == [0x52, 0x49, 0x46, 0x46] && s[8..12] == [0x57, 0x41, 0x56, 0x45]
    requires s[12..16] == [0x66, 0x6D, 0x74, 0x20] && s[16..20] == [16, 0, 0, 0]
    requires s[36..40] == [0x64, 0x61, 0x74, 0x61]
    ensures Parse(s, 0) == Some((WavInfo(Num(s[20], s[21], 0, 0), Num(s[22], s[23], 0, 0),
                                         Num(s[24], s[25], s[26], s[27]), Num(s[34], s[35], 0, 0)), 44))
  {
    hide Walk, U16, U32, FieldsAt, Num;
    NumIs(s, 16);
    SizeIs16(s[16], s[17], s[18], s[19], s[16..20]);
    WalkUnfolds(s, 12, None);
    WalkUnfolds(s, 36, Some(FieldsAt(s, 20)));
    FieldsSpelled(s, 20);
  }

  /** A chunk that is neither "fmt " nor "data" is passed over with its size, and one byte more if that is
      odd. */
  lemma OtherChunkPassed(s: seq<Byte>, at: nat, info: Option<WavInfo>)
    requires at + 8 <= |s| && s[at..at + 4] != [0x66, 0x6D, 0x74, 0x20] && s[at..at + 4] != [0x64, 0x61, 0x74, 0x61]
    ensures var n := Num(s[at + 4], s[at + 5], s[at + 6], s[at + 7]);
            var end := at + 8 + if n % 2 == 1 then n + 1 else n;
            Walk(s, at, info) == if end <= |s| then Walk(s, end, info) else None
  {
    hide Walk, U32, Num;
    NumIs(s, at + 4);
    WalkUnfolds(s, at, info);
  }

  /** A "fmt " chunk of at least sixteen bytes replaces what is known of the format; "data" ends the walk. */
  lemma OwnChunks(s: seq<Byte>, at: nat, info: Option<WavInfo>)
    requires at + 8 <= |s|
    ensures var n := Num(s[at + 4], s[at + 5], s[at + 6], s[at + 7]);
            var end := at + 8 + if n % 2 == 1 then n + 1 else n;
            s[at..at + 4] == [0x66, 0x6D, 0x74, 0x20] ==>
              Walk(s, at, info) ==
                if n >= 16 && end <= |s| then Walk(s, end, Some(FieldsAt(s, at + 8))) else None
    ensures s[at..at + 4] == [0x64, 0x61, 0x74, 0x61] ==> Walk(s, at, info) == Some((info, at + 8))
  {
    hide Walk, U32, Num;
    NumIs(s, at + 4);
    WalkUnfolds(s, at, info);
  }

  lemma SizeIs16(a: Byte, b: Byte, c: Byte, d: Byte, size: seq<Byte>)
    requires size == [a, b, c, d] && size == [16, 0, 0, 0]
    ensures Num(a, b, c, d) == 16
  {
  }

  lemma FieldsSpelled(s: seq<Byte>, at: nat)
    requires at + 16 <= |s|
    ensures FieldsAt(s, at) == WavInfo(Num(s[at], s[at + 1], 0, 0), Num(s[at + 2], s[at + 3], 0, 0),
                                       Num(s[at + 4], s[at + 5], s[at + 6], s[at + 7]),
                                       Num(s[at + 14], s[at + 15], 0, 0))
  {
    hide U16, U32, Num;
    NumIs(s, at);
    NumIs(s, at + 2);
    NumIs(s, at + 4);
    NumIs(s, at + 14);
  }

  // ---- and conversely

  /** A chunk that is walked over is a serialised chunk. */
  lemma ChunkRead(s: seq<Byte>, at: nat) returns (c: Chunk)
    requires at + 8 <= |s| && s[at..at + 4] != DATA
    requires var size := U32(s, at + 4); at + 8 + size + size % 2 <= |s| && (s[at..at + 4] == FMT ==> size >= 16)
    ensures WellFormed(c) && Size(c) == U32(s, at + 4) && c.Fmt? == (s[at..at + 4] == FMT)
    ensures at + |ChunkBytes(c)| <= |s| && s[at..at + |ChunkBytes(c)|] == ChunkBytes(c)
    ensures c.Fmt? ==> at + 24 <= |s| && c.info == FieldsAt(s, at + 8)
  {
    hide ToLE, FieldsAt, U32, Body, Size, WellFormed, ChunkBytes;
    var size := U32(s, at + 4);
    SizeRead(s, at + 4);
    if s[at..at + 4] == FMT {
      c := FmtRead(s, at + 8, size);
    } else {
      c := OtherRead(s, at, size);
    }
    GlueChunk(s, at, at + 8 + size, at + 8 + size + size % 2, c);
  }

  lemma SizeRead(s: seq<Byte>, at: nat)
    requires at + 4 <= |s|
    ensures U32(s, at) < TWO32 && ToLE(U32(s, at), 4) == s[at..at + 4]
  {
    Pow256Values();
    ToFromLE(s[at..at + 4]);
  }

  lemma GlueChunk(s: seq<Byte>, at: nat, b: nat, end: nat, c: Chunk)
    requires at + 8 <= b <= end <= |s| && (if c.Fmt? then FMT else c.id) == s[at..at + 4]
    requires ToLE(Size(c), 4) == s[at + 4..at + 8] && Body(c) == s[at + 8..b] && c.pad == s[b..end]
    ensures ChunkBytes(c) == s[at..end] && |ChunkBytes(c)| == end - at
  {
    hide Body, Size, ToLE;
    Glue(s, at, at + 4, at + 8);
    Glue(s, at, at + 8, b);
    Glue(s, at, b, end);
  }

  lemma OtherRead(s: seq<Byte>, at: nat, size: nat) returns (c: Chunk)
    requires size < TWO32 && at + 8 + size + size % 2 <= |s| && s[at..at + 4] != FMT && s[at..at + 4] != DATA
    ensures WellFormed(c) && c.Other? && c.id == s[at..at + 4] && Size(c) == size
    ensures Body(c) == s[at + 8..at + 8 + size] && c.pad == s[at + 8 + size..at + 8 + size + size % 2]
  {
    c := Other(s[at..at + 4], s[at + 8..at + 8 + size], s[at + 8 + size..at + 8 + size + size % 2]);
  }

  lemma FmtRead(s: seq<Byte>, at: nat, size: nat) returns (c: Chunk)
    requires 16 <= size < TWO32 && at + size + size % 2 <= |s|
    ensures WellFormed(c) && c.Fmt? && Size(c) == size && Body(c) == s[at..at + size]
    ensures c.pad == s[at + size..at + size + size % 2] && c.info == FieldsAt(s, at)
  {
    hide ToLE, FromLE;
    Pow256Values();
    ToFromLE(s[at..at + 2]);
    ToFromLE(s[at + 2..at + 4]);
    ToFromLE(s[at + 4..at + 8]);
    ToFromLE(s[at + 8..at + 12]);
    ToFromLE(s[at + 12..at + 14]);
    ToFromLE(s[at + 14..at + 16]);
    c := Fmt(FieldsAt(s, at), U32(s, at + 8), U16(s, at + 12), s[at + 16..at + size],
             s[at + size..at + size + size % 2]);
    Glue(s, at, at + 2, at + 4);
    Glue(s, at, at + 4, at + 8);
    Glue(s, at, at + 8, at + 12);
    Glue(s, at, at + 12, at + 14);
    Glue(s, at, at + 14, at + 16);
    Glue(s, at, at + 16, at + size);
  }

  /** One step of the walk passes one serialised chunk. */
  lemma WalkedChunk(s: seq<Byte>, at: nat, info: Option<WavInfo>) returns (c: Chunk)
    requires Walk(s, at, info).Some? && s[at..at + 4] != DATA
    ensures WellFormed(c) && |ChunkBytes(c)| >= 8
    ensures at + |ChunkBytes(c)| <= |s| && s[at..at + |ChunkBytes(c)|] == ChunkBytes(c)
    ensures Walk(s, at, info) == Walk(s, at + |ChunkBytes(c)|, if c.Fmt? then Some(c.info) else info)
  {
    hide WellFormed, ChunkBytes, FieldsAt, U32;
    c := ChunkRead(s, at);
    ChunkSize(c);
  }

  lemma {:induction false} WalkedIsWritten(s: seq<Byte>, at: nat, info: Option<WavInfo>) returns (cs: seq<Chunk>)
    requires Walk(s, at, info).Some?
    ensures AllWellFormed(cs) && LastFmt(cs, info) == Walk(s, at, info).value.0
    ensures Spells(s, at, cs, Walk(s, at, info).value.1)
    decreases |s| - at
  {
    hide WellFormed, ChunkBytes, Walk, Concat, LastFmt, AllWellFormed, Spells;
    WalkNeedsEight(s, at, info);
    if s[at..at + 4] == DATA {
      cs := [];
      NoChunks(info);
      WalkData(s, at, info);
      SpellsNone(s, at);
    } else {
      var c := WalkedChunk(s, at, info);
      var next := at + |ChunkBytes(c)|;
      var rest := WalkedIsWritten(s, next, if c.Fmt? then Some(c.info) else info);
      cs := [c] + rest;
      MoreChunks(c, rest, info);
      SpellsMore(s, at, c, rest, Walk(s, at, info).value.1);
    }
  }

  /** The bytes from `at` to `end` are the chunks and a data header. */
  ghost predicate Spells(s: seq<Byte>, at: nat, cs: seq<Chunk>, end: nat) {
    at + |Concat(cs)| + 8 == end <= |s| && s[at..end - 8] == Concat(cs) && s[end - 8..end - 4] == DATA
  }

  lemma SpellsNone(s: seq<Byte>, at: nat)
    requires at + 8 <= |s| && s[at..at + 4] == DATA
    ensures Spells(s, at, [], at + 8)
  {
  }

  lemma SpellsMore(s: seq<Byte>, at: nat, c: Chunk, cs: seq<Chunk>, end: nat)
    requires at + |ChunkBytes(c)| <= |s| && s[at..at + |ChunkBytes(c)|] == ChunkBytes(c)
    requires Spells(s, at + |ChunkBytes(c)|, cs, end) && WellFormed(c) && AllWellFormed(cs)
    ensures Spells(s, at, [c] + cs, end)
  {
    hide ChunkBytes, WellFormed, AllWellFormed, Concat;
    MoreChunks(c, cs, None);
    Glue(s, at, at + |ChunkBytes(c)|, end - 8);
  }

  lemma NoChunks(info: Option<WavInfo>)
    ensures AllWellFormed([]) && LastFmt([], info) == info && Concat([]) == []
  {
  }

  lemma MoreChunks(c: Chunk, cs: seq<Chunk>, info: Option<WavInfo>)
    requires WellFormed(c) && AllWellFormed(cs)
    ensures AllWellFormed([c] + cs) && Concat([c] + cs) == ChunkBytes(c) + Concat(cs)
    ensures LastFmt([c] + cs, info) == LastFmt(cs, if c.Fmt? then Some(c.info) else info)
  {
    hide WellFormed, ChunkBytes;
    var all := [c] + cs;
    assert all[0] == c && all[1..] == cs;
  }

  lemma WalkNeedsEight(s: seq<Byte>, at: nat, info: Option<WavInfo>)
    requires Walk(s, at, info).Some?
    ensures at + 8 <= |s|
  {
  }

  /** Success means that the consumed bytes are a file head with a format chunk before the data. */
  lemma ParsedIsWritten(s: seq<Byte>, at: nat) returns (cs: seq<Chunk>)
    requires Parse(s, at).Some?
    ensures var (info, end) := Parse(s, at).value;
            && at + 12 <= end - 8 && end <= |s|
            && AllWellFormed(cs) && LastFmt(cs, None) == Some(info)
            && s[at..end] == FileHead(s[at + 4..at + 8], cs, s[end - 4..end])
  {
    hide Walk, AllWellFormed, Concat, LastFmt;
    cs := WalkedIsWritten(s, at + 12, None);
    Pieces(s, at, Parse(s, at).value.1);
  }

  lemma Pieces(s: seq<Byte>, at: nat, end: nat)
    requires at + 12 <= end - 8 && end <= |s|
    ensures s[at..end] == s[at..at + 4] + s[at + 4..at + 8] + s[at + 8..at + 12] + s[at + 12..end - 8]
                          + (s[end - 8..end - 4] + s[end - 4..end])
  {
    Glue(s, at, at + 4, at + 8);
    Glue(s, at, at + 8, at + 12);
    Glue(s, at, at + 12, end - 8);
    Glue(s, end - 8, end - 4, end);
    Glue(s, at, end - 8, end);
  }

  // ---- the descriptor

  /** How a call of `read` goes: interrupted (EINTR), another error, or at most `k` bytes (at least
      one, unless the stream is at its end). */
  datatype Outcome = Interrupted | Fails | Short(k: nat)

  datatype ReadResult = Error(eintr: bool) | Got(bytes: seq<Byte>)

  predicate Steady(script: seq<Outcome>) {
    Fails !in script
  }

  function Min(a: nat, b: nat): nat { if a < b then a else b }

  /** The bytes to come and a finite script of outcomes; afterwards reads are complete. */
  class Descriptor {
    const data: seq<Byte>
    var pos: nat
    var script: seq<Outcome>

    ghost predicate Valid()
      reads this
    {
      pos <= |data|
    }

    constructor (data: seq<Byte>, script: seq<Outcome>)
      ensures Valid() && this.data == data && this.script == script && pos == 0
    {
      this.data := data;
      this.script := script;
      pos := 0;
    }

    method Read(len: nat) returns (r: ReadResult)
      requires Valid() && len > 0
      modifies this
      ensures Valid() && old(pos) <= pos
      ensures r.Error? ==> pos == old(pos) && |script| < |old(script)|
      ensures r.Got? ==> pos - old(pos) == |r.bytes| <= len && r.bytes == data[old(pos)..pos]
      ensures r.Got? && r.bytes == [] ==> pos == |data|
      ensures |script| <= |old(script)|
      ensures Steady(old(script)) ==> Steady(script) && (r.Error? ==> r.eintr)
    {
      var most := len;
      if script != [] {
        var o := script[0];
        script := script[1..];
        if o.Interrupted? {
          return Error(true);
        }
        if o.Fails? {
          return Error(false);
        }
        most := Min(len, if o.k == 0 then 1 else o.k);
      }
      var n := Min(most, |data| - pos);
      r := Got(data[pos..pos + n]);
      pos := pos + n;
    }

    /** `read_exact`: fills the first `len` bytes of the buffer. */
    method ReadExact(buf: array<Byte>, len: nat) returns (ok: bool)
      requires Valid() && len <= buf.Length
      modifies this, buf
      ensures Valid() && old(pos) <= pos
      ensures ok ==> pos == old(pos) + len && buf[..len] == data[old(pos)..pos]
      ensures Steady(old(script)) ==> Steady(script) && (ok <==> old(pos) + len <= |data|)
    {
      hide Steady;
      var off := 0;
      while off < len
        invariant 0 <= off <= len && Valid() && pos == old(pos) + off
        invariant buf[..off] == data[old(pos)..pos]
        invariant Steady(old(script)) ==> Steady(script)
        decreases len - off, |script|
      {
        ghost var at := pos;
        var res := Read(len - off);
        match res
        case Error(eintr) =>
          if !eintr {
            return false;
          }
        case Got(bytes) =>
          if bytes == [] {
            return false;
          }
          Fill(buf, off, bytes);
          off := off + |bytes|;
          Glue(data, old(pos), at, pos);
      }
      return true;
    }

    /** `skip_bytes`: reads and forgets, 512 bytes at a time. */
    method SkipBytes(len: nat) returns (ok: bool)
      requires Valid()
      modifies this
      ensures Valid() && old(pos) <= pos
      ensures ok ==> pos == old(pos) + len
      ensures Steady(old(script)) ==> Steady(script) && (ok <==> old(pos) + len <= |data|)
    {
      hide Steady;
      var tmp := new Byte[512];
      var left := len;
      while left > 0
        invariant 0 <= left <= len && Valid() && pos == old(pos) + (len - left)
        invariant Steady(old(script)) ==> Steady(script)
      {
        var chunk := Min(left, 512);
        var got := ReadExact(tmp, chunk);
        if !got {
          return false;
        }
        left := left - chunk;
      }
      return true;
    }
  }

  method Fill(buf: array<Byte>, off: nat, bytes: seq<Byte>)
    requires off + |bytes| <= buf.Length
    modifies buf
    ensures buf[..off + |bytes|] == old(buf[..off]) + bytes
  {
    forall i | 0 <= i < |bytes| {
      buf[off + i] := bytes[i];
    }
  }

  /** `le16` and `le32`. */
  function Le16(p: seq<Byte>): nat
    requires |p| >= 2
  {
    var a: nat, b: nat := p[0], p[1];
    a + 0x100 * b
  }

  function Le32(p: seq<Byte>): nat
    requires |p| >= 4
  {
    var a: nat, b: nat, c: nat, d: nat := p[0], p[1], p[2], p[3];
    a + 0x100 * b + 0x1_0000 * c + 0x100_0000 * d
  }

  lemma LeIsFromLE(p: seq<Byte>)
    ensures |p| == 2 ==> Le16(p) == FromLE(p)
    ensures |p| == 4 ==> Le32(p) == FromLE(p)
  {
    if |p| == 2 {
      assert FromLE(p[1..]) == p[1] + 256 * FromLE(p[1..][1..]);
    } else if |p| == 4 {
      assert p[1..][1..] == p[2..] && p[2..][1..] == p[3..];
      assert FromLE(p[3..]) == p[3] + 256 * FromLE(p[3..][1..]);
      assert FromLE(p[2..]) == p[2] + 256 * FromLE(p[3..]);
      assert FromLE(p[1..]) == p[1] + 256 * FromLE(p[2..]);
    }
  }

  // ---- the header reader

  /** A format chunk behind its header: sixteen bytes of fields, the extension, the pad byte. */
  method ReadFmt(fd: Descriptor, size: nat) returns (ok: bool, info: WavInfo)
    requires fd.Valid() && size >= 16
    modifies fd
    ensures fd.Valid() && old(fd.pos) <= fd.pos
    ensures ok ==> fd.pos == old(fd.pos) + size + size % 2 && info == FieldsAt(fd.data, old(fd.pos))
    ensures Steady(old(fd.script)) ==> Steady(fd.script) && (ok <==> old(fd.pos) + size + size % 2 <= |fd.data|)
  {
    hide Steady, FromLE;
    info := WavInfo(0, 0, 0, 0);
    var fmt := new Byte[16];
    ok := fd.ReadExact(fmt, 16);
    if !ok {
      return;
    }
    info := FieldsOf(fmt[..], fd.data, old(fd.pos));
    if size > 16 {
      ok := fd.SkipBytes(size - 16);
      if !ok {
        return;
      }
    }
    if size % 2 == 1 {
      ok := fd.SkipBytes(1);
    }
  }

  /** The four kept fields, taken from the buffer with `le16` and `le32`. */
  method FieldsOf(fmt: seq<Byte>, ghost s: seq<Byte>, ghost at: nat) returns (info: WavInfo)
    requires |fmt| == 16 && at + 16 <= |s| && fmt == s[at..at + 16]
    ensures info == FieldsAt(s, at)
  {
    hide FromLE;
    info := WavInfo(Le16(fmt[0..2]), Le16(fmt[2..4]), Le32(fmt[4..8]), Le16(fmt[14..16]));
    LeIsFromLE(fmt[0..2]);
    LeIsFromLE(fmt[2..4]);
    LeIsFromLE(fmt[4..8]);
    LeIsFromLE(fmt[14..16]);
    SubSlice(s, at, 16, 0, 2);
    SubSlice(s, at, 16, 2, 4);
    SubSlice(s, at, 16, 4, 8);
    SubSlice(s, at, 16, 14, 16);
  }

  /** Any other chunk behind its header. */
  method SkipChunk(fd: Descriptor, size: nat) returns (ok: bool)
    requires fd.Valid()
    modifies fd
    ensures fd.Valid() && old(fd.pos) <= fd.pos
    ensures ok ==> fd.pos == old(fd.pos) + size + size % 2
    ensures Steady(old(fd.script)) ==> Steady(fd.script) && (ok <==> old(fd.pos) + size + size % 2 <= |fd.data|)
  {
    hide Steady;
    ok := fd.SkipBytes(size);
    if ok && size % 2 == 1 {
      ok := fd.SkipBytes(1);
    }
  }

  function Known(got: bool, info: WavInfo): Option<WavInfo> {
    if got then Some(info) else None
  }

  /** `wav_read_header`. Success means that the bytes parse, with these fields and up to this position;
      without hard read errors, failure means that they do not. How the bytes were split over reads, or
      how often a read was interrupted, does not show. */
  method WavReadHeader(fd: Descriptor) returns (ok: bool, info: WavInfo)
    requires fd.Valid()
    modifies fd
    ensures fd.Valid()
    ensures ok ==> Parse(fd.data, old(fd.pos)) == Some((info, fd.pos))
    ensures Steady(old(fd.script)) && !ok ==> Parse(fd.data, old(fd.pos)) == None
  {
    hide Walk, Steady, FromLE;
    ghost var start := fd.pos;
    info := WavInfo(0, 0, 0, 0);
    var hdr := new Byte[12];
    ok := fd.ReadExact(hdr, 12);
    if !ok {
      return;
    }
    SubSlice(fd.data, start, 12, 0, 4);
    SubSlice(fd.data, start, 12, 8, 12);
    assert hdr[..12][0..4] == hdr[0..4] && hdr[..12][8..12] == hdr[8..12];
    if hdr[0..4] != RIFF || hdr[8..12] != WAVE {
      return false, info;
    }
    var gotFmt;
    ok, gotFmt, info := WalkFrom(fd);
    ok := ok && gotFmt;
  }

  /** The chunk loop, up to the data header or a failure. */
  method WalkFrom(fd: Descriptor) returns (gotData: bool, gotFmt: bool, info: WavInfo)
    requires fd.Valid()
    modifies fd
    ensures fd.Valid()
    ensures gotData ==> Walk(fd.data, old(fd.pos), None) == Some((Known(gotFmt, info), fd.pos))
    ensures Steady(old(fd.script)) && !gotData ==> Walk(fd.data, old(fd.pos), None) == None
  {
    hide Walk, Steady, FromLE;
    info := WavInfo(0, 0, 0, 0);
    gotFmt, gotData := false, false;
    while !gotData
      invariant fd.Valid() && old(fd.pos) <= fd.pos
      invariant Steady(old(fd.script)) ==> Steady(fd.script)
      invariant !gotData ==> Walk(fd.data, old(fd.pos), None) == Walk(fd.data, fd.pos, Known(gotFmt, info))
      invariant gotData ==> Walk(fd.data, old(fd.pos), None) == Some((Known(gotFmt, info), fd.pos))
      decreases !gotData, |fd.data| - fd.pos
    {
      ghost var at := fd.pos;
      var ok, id, size := ReadChunkHeader(fd);
      WalkUnfolds(fd.data, at, Known(gotFmt, info));
      if !ok {
        return;
      }
      if id == FMT {
        if size < 16 {
          return;
        }
        var fields;
        ok, fields := ReadFmt(fd, size);
        if !ok {
          return;
        }
        gotFmt, info := true, fields;
      } else if id == DATA {
        gotData := true;
      } else {
        ok := SkipChunk(fd, size);
        if !ok {
          return;
        }
      }
    }
  }

  method ReadChunkHeader(fd: Descriptor) returns (ok: bool, id: seq<Byte>, size: nat)
    requires fd.Valid()
    modifies fd
    ensures fd.Valid() && old(fd.pos) <= fd.pos
    ensures ok ==> fd.pos == old(fd.pos) + 8 <= |fd.data|
    ensures ok ==> id == fd.data[old(fd.pos)..old(fd.pos) + 4] && size == U32(fd.data, old(fd.pos) + 4)
    ensures Steady(old(fd.script)) ==> Steady(fd.script) && (ok <==> old(fd.pos) + 8 <= |fd.data|)
  {
    hide Steady, FromLE;
    ghost var at := fd.pos;
    id, size := [], 0;
    var chunk := new Byte[8];
    ok := fd.ReadExact(chunk, 8);
    if !ok {
      return;
    }
    id := chunk[0..4];
    size := Le32(chunk[4..8]);
    LeIsFromLE(chunk[4..8]);
    assert chunk[..8][0..4] == chunk[0..4] && chunk[..8][4..8] == chunk[4..8];
    SubSlice(fd.data, at, 8, 0, 4);
    SubSlice(fd.data, at, 8, 4, 8);
  }

  lemma WalkUnfolds(s: seq<Byte>, at: nat, info: Option<WavInfo>)
    ensures at + 8 > |s| ==> Walk(s, at, info) == None
    ensures at + 8 <= |s| ==>
              var id, size := s[at..at + 4], U32(s, at + 4);
              var end := at + 8 + size + size % 2;
              && (id == DATA ==> Walk(s, at, info) == Some((info, at + 8)))
              && (id == FMT && (size < 16 || end > |s|) ==> Walk(s, at, info) == None)
              && (id == FMT && size >= 16 && end <= |s| ==>
                    Walk(s, at, info) == Walk(s, end, Some(FieldsAt(s, at + 8))))
              && (id != FMT && id != DATA ==> Walk(s, at, info) == if end > |s| then None else Walk(s, end, info))
  {
    hide FieldsAt, U32;
  }
}
