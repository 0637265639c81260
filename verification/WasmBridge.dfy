/** The WebAssembly memory bridge: the host's page-granular bump allocator, the
    length-prefixed strings it stores, and the decoder that reads results back. */
module WasmBridge {
  import opened Wrappers

  type Byte = x: int | 0 <= x < 256

  const PAGE := 65_536

  /** The most pages any memory can have (WebAssembly Core Specification, section 4.2.8). */
  const PAGE_LIMIT := 65_536

  /** Payloads of this length and more are not read through their length prefix. */
  const PREFIX_LIMIT := 1_000_000

  const TWO_32 := 0x1_0000_0000

  // ----- values

  /** A linear memory: its bytes and the page count it may not exceed. */
  datatype Mem = Mem(bytes: seq<Byte>, maximum: nat) {
    predicate Valid() {
      maximum <= PAGE_LIMIT && |bytes| % PAGE == 0 && |bytes| <= maximum * PAGE
    }

    function Pages(): nat {
      |bytes| / PAGE
    }
  }

  function Zeros(n: nat): (z: seq<Byte>)
    ensures |z| == n
  {
    seq(n, _ => 0)
  }

  /** Pages that hold `size` bytes; a guest may pass a negative 32-bit size. */
  function PagesFor(size: int): int {
    (size + (PAGE - 1)) / PAGE
  }

  /** `granted` is the engine's answer to a growth request that is within the limits. */
  function Grown(m: Mem, delta: nat, granted: bool): Option<Mem> {
    if granted && m.Pages() + delta <= m.maximum then Some(m.(bytes := m.bytes + Zeros(delta * PAGE))) else None
  }

  datatype Allocation = Allocation(mem: Mem, ptr: nat)

  function Alloc(m: Mem, maxPages: nat, size: int, granted: bool): Result<Allocation> {
    var needed := PagesFor(size);
    if needed <= 0 then Ok(Allocation(m, m.Pages() * PAGE))
    else if m.Pages() + needed > maxPages then Err("maw_alloc denied")
    else match Grown(m, needed, granted)
      case None => Err("grow failed")
      case Some(g) => Ok(Allocation(g, m.Pages() * PAGE))
  }

  function Spliced(bytes: seq<Byte>, at: nat, data: seq<Byte>): (r: seq<Byte>)
    requires at + |data| <= |bytes|
    ensures |r| == |bytes|
  {
    bytes[..at] + data + bytes[at + |data|..]
  }

  /** A 32-bit number in little-endian order; larger numbers wrap. */
  function LE32(n: nat): (r: seq<Byte>)
    ensures |r| == 4
  {
    [n % 256, n / 256 % 256, n / 65_536 % 256, n / 16_777_216 % 256]
  }

  function U32(b: seq<Byte>): nat
    requires |b| == 4
  {
    b[0] as int + 256 * (b[1] as int) + 65_536 * (b[2] as int) + 16_777_216 * (b[3] as int)
  }

  lemma BytesOf(n: nat)
    ensures n / 65_536 == n / 256 / 256 && n / 16_777_216 == n / 65_536 / 256
    ensures n == 256 * (n / 256) + n % 256
  {
  }

  lemma BelowTwo32(n: nat, d: nat, u: nat)
    requires n == d * TWO_32 + u && u < TWO_32
    ensures n % TWO_32 == u
  {
  }

  lemma {:induction false} U32OfLE32(n: nat)
    ensures U32(LE32(n)) == n % 4_294_967_296
  {
    var b := LE32(n);
    var u := b[0] as int + 256 * (b[1] as int) + 65_536 * (b[2] as int) + 16_777_216 * (b[3] as int);
    BytesOf(n);
    BytesOf(n / 256);
    BytesOf(n / 65_536);
    BytesOf(n / 16_777_216);
    BelowTwo32(n, n / 16_777_216 / 256, u);
  }

  /** Length prefix and payload lie at `ptr`. */
  predicate StoredAt(bytes: seq<Byte>, ptr: nat, text: seq<Byte>) {
    && ptr + 4 + |text| <= |bytes|
    && bytes[ptr..ptr + 4] == LE32(|text|)
    && bytes[ptr + 4..ptr + 4 + |text|] == text
  }

  /** Where the scan for a terminating zero byte stops. */
  function ScanEnd(bytes: seq<Byte>, from: nat): (end: nat)
    requires from <= |bytes|
    ensures from <= end <= |bytes|
    ensures forall i :: from <= i < end ==> bytes[i] != 0
    ensures end == |bytes| || bytes[end] == 0
    decreases |bytes| - from
  {
    if from < |bytes| && bytes[from] != 0 then ScanEnd(bytes, from + 1) else from
  }

  /** What the result readers make of the pointer a plugin returns. */
  function Decoded(bytes: seq<Byte>, ptr: int): Result<seq<Byte>> {
    if ptr <= 0 then Ok([])
    else if ptr + 4 > |bytes| then Err("out of bounds")
    else
      var len := U32(bytes[ptr..ptr + 4]);
      if 0 < len < PREFIX_LIMIT then
        if ptr + 4 + len > |bytes| then Err("out of bounds") else Ok(bytes[ptr + 4..ptr + 4 + len])
      else
        Ok(bytes[ptr..ScanEnd(bytes, ptr)])
  }

  /** A string without a length prefix that a zero byte or the end of memory terminates is read as it
      is, unless its first four bytes pass for a prefix. */
  lemma TerminatedIsDecoded(bytes: seq<Byte>, ptr: nat, text: seq<Byte>)
    requires 0 < ptr && ptr + 4 <= |bytes| && ptr + |text| <= |bytes|
    requires bytes[ptr..ptr + |text|] == text && 0 !in text
    requires ptr + |text| == |bytes| || bytes[ptr + |text|] == 0
    requires var b := bytes[ptr..ptr + 4];
             var len := b[0] as int + 256 * (b[1] as int) + 65_536 * (b[2] as int) + 16_777_216 * (b[3] as int);
             len == 0 || len >= 1_000_000
    ensures Decoded(bytes, ptr) == Ok(text)
  {
    var end := ScanEnd(bytes, ptr);
    assert forall i :: ptr <= i < ptr + |text| ==> bytes[i] == text[i - ptr];
    assert end == ptr + |text|;
  }

  /** The null pointer and negative ones read as the empty string. A read fails exactly when the four
      bytes of a prefix are not all there, or give a length below a million that runs past the end. */
  lemma ReadFailsExactly(bytes: seq<Byte>, ptr: int)
    ensures ptr <= 0 ==> Decoded(bytes, ptr) == Ok([])
    ensures ptr > 0 ==>
              (Decoded(bytes, ptr).Err? <==>
               || ptr + 4 > |bytes|
               || exists len :: 0 < len < 1_000_000 && ptr + 4 + len > |bytes| && bytes[ptr..ptr + 4] == LE32(len))
  {
    if 0 < ptr && ptr + 4 <= |bytes| {
      var prefix := bytes[ptr..ptr + 4];
      LE32OfU32(prefix);
      forall len: nat | prefix == LE32(len) && len < TWO_32 ensures U32(prefix) == len { SmallU32(len); }
    }
  }

  /** Every four bytes are the prefix of the length they are read as. */
  lemma LE32OfU32(b: seq<Byte>)
    requires |b| == 4
    ensures LE32(U32(b)) == b && U32(b) < TWO_32
  {
    var n := U32(b);
    var high := b[1] as int + 256 * (b[2] as int) + 65_536 * (b[3] as int);
    var top := b[2] as int + 256 * (b[3] as int);
    LowByte(n, b[0], high);
    LowByte(high, b[1], top);
    LowByte(top, b[2], b[3]);
    BytesOf(n);
    assert n / 256 == high && n / 65_536 == top && n / 16_777_216 == b[3] as int;
  }

  lemma LowByte(n: nat, low: Byte, high: nat)
    requires n == low as int + 256 * high
    ensures n % 256 == low && n / 256 == high
  {
  }

  // ----- the round trip

  /** A stored string is read back as itself exactly when it is shorter than the prefix limit
      and not stored at address 0; the empty string comes back from anywhere. */
  lemma StoredIsDecoded(bytes: seq<Byte>, ptr: nat, text: seq<Byte>)
    requires StoredAt(bytes, ptr, text)
    requires |bytes| <= 4_294_967_296
    ensures Decoded(bytes, ptr) == Ok(text) <==> text == [] || (ptr > 0 && |text| < 1_000_000)
  {
    if ptr > 0 {
      PrefixIsLength(bytes, ptr, text);
      if |text| == 0 {
        assert text == [];
        EmptyTextEndsAtOnce(bytes, ptr);
        assert bytes[ptr..ptr] == [];
      } else if |text| >= PREFIX_LIMIT {
        LongTextIsNotItsOwnShift(bytes, ptr, text);
      }
    }
  }

  lemma PrefixIsLength(bytes: seq<Byte>, ptr: nat, text: seq<Byte>)
    requires StoredAt(bytes, ptr, text) && |bytes| <= TWO_32
    ensures U32(bytes[ptr..ptr + 4]) == |text|
  {
    SmallU32(|text|);
  }

  lemma SmallU32(n: nat)
    requires n < TWO_32
    ensures U32(LE32(n)) == n
  {
    U32OfLE32(n);
  }

  lemma EmptyTextEndsAtOnce(bytes: seq<Byte>, ptr: nat)
    requires StoredAt(bytes, ptr, [])
    ensures ScanEnd(bytes, ptr) == ptr
  {
    assert bytes[ptr] == bytes[ptr..ptr + 4][0] == LE32(0)[0] == 0;
  }

  /** A long text would have to repeat itself every four bytes and end in a zero. */
  lemma LongTextIsNotItsOwnShift(bytes: seq<Byte>, ptr: nat, text: seq<Byte>)
    requires StoredAt(bytes, ptr, text) && |text| >= PREFIX_LIMIT
    ensures bytes[ptr..ScanEnd(bytes, ptr)] != text
  {
    var end := ScanEnd(bytes, ptr);
    if end == ptr + |text| {
      // the scan would have stopped at this byte, so it is zero
      assert bytes[end] == 0;
      assert bytes[end] == bytes[ptr + 4..ptr + 4 + |text|][|text| - 4] == text[|text| - 4];
      assert bytes[ptr..end][|text| - 4] == bytes[end - 4] != 0;
    }
  }

  // ----- the allocator over a run

  datatype Block = Block(ptr: nat, size: nat)

  datatype Bridge = Bridge(mem: Mem, maxPages: nat, blocks: seq<Block>)

  datatype Op =
    | Allocate(size: int, granted: bool)
    | Store(text: seq<Byte>, granted: bool)
    | GuestWrite(block: nat, offset: nat, data: seq<Byte>)

  function Size(size: int): nat {
    if size < 0 then 0 else size
  }

  /** One call. A call that throws leaves the memory as it was; a guest writes inside a
      block it was given. */
  function Step(b: Bridge, op: Op): Bridge {
    match op
    case Allocate(size, granted) =>
      (match Alloc(b.mem, b.maxPages, size, granted)
       case Err(_) => b
       case Ok(a) => b.(mem := a.mem, blocks := b.blocks + [Block(a.ptr, Size(size))]))
    case Store(text, granted) =>
      (match Alloc(b.mem, b.maxPages, 4 + |text|, granted)
       case Err(_) => b
       case Ok(a) =>
         if a.ptr + 4 + |text| > |a.mem.bytes| then b
         else b.(mem := a.mem.(bytes := Spliced(a.mem.bytes, a.ptr, LE32(|text|) + text)),
                 blocks := b.blocks + [Block(a.ptr, 4 + |text|)]))
    case GuestWrite(k, offset, data) =>
      if k < |b.blocks| && offset + |data| <= b.blocks[k].size
         && b.blocks[k].ptr + b.blocks[k].size <= |b.mem.bytes|
      then b.(mem := b.mem.(bytes := Spliced(b.mem.bytes, b.blocks[k].ptr + offset, data)))
      else b
  }

  function Run(b: Bridge, ops: seq<Op>): Bridge
    decreases ops
  {
    if ops == [] then b else Run(Step(b, ops[0]), ops[1..])
  }

  /** Blocks lie inside memory, in the order they were given out, without overlap. */
  ghost predicate Inv(b: Bridge) {
    && b.mem.Valid()
    && (forall i :: 0 <= i < |b.blocks| ==> b.blocks[i].ptr + b.blocks[i].size <= |b.mem.bytes|)
    && (forall i, j :: 0 <= i < j < |b.blocks| ==> b.blocks[i].ptr + b.blocks[i].size <= b.blocks[j].ptr)
  }

  lemma PagesForHolds(size: int)
    ensures size <= PagesFor(size) * PAGE
    ensures PagesFor(size) * PAGE < size + PAGE
    ensures PagesFor(size) > 0 <==> size > 0
  {
  }

  /** An allocation of `n` pages' worth succeeds exactly when the engine grants it and both page limits
      have room for `n` more, and takes exactly those; nothing is taken for no bytes. */
  lemma {:induction false} AllocSucceedsExactly(m: Mem, maxPages: nat, size: int, granted: bool, n: nat)
    requires m.Valid()
    ensures size <= 0 ==> Alloc(m, maxPages, size, granted) == Ok(Allocation(m, |m.bytes|))
    ensures 0 < size && 65_536 * n - 65_536 < size <= 65_536 * n ==>
              var r := Alloc(m, maxPages, size, granted);
              && (r.Ok? <==> granted && |m.bytes| + 65_536 * n <= 65_536 * m.maximum
                             && |m.bytes| + 65_536 * n <= 65_536 * maxPages)
              && (r.Ok? ==> r.value.ptr == |m.bytes| && |r.value.mem.bytes| == |m.bytes| + 65_536 * n)
  {
    PagesForHolds(size);
    assert |m.bytes| == m.Pages() * PAGE;
  }

  /** An allocation that succeeds records its block; one that fails does nothing. */
  lemma {:induction false} AllocateDoes(b: Bridge, size: int, granted: bool)
    requires Inv(b)
    ensures match Alloc(b.mem, b.maxPages, size, granted)
            case Ok(a) =>
              Step(b, Allocate(size, granted))
              == Bridge(a.mem, b.maxPages, b.blocks + [Block(|b.mem.bytes|, if size > 0 then size else 0)])
            case Err(_) => Step(b, Allocate(size, granted)) == b
  {
    hide Alloc;
    if Alloc(b.mem, b.maxPages, size, granted).Ok? { AllocIsFresh(b.mem, b.maxPages, size, granted); }
  }

  /** A store for which the allocation succeeds records its block and leaves the string there. */
  lemma {:induction false} StoreDoes(b: Bridge, text: seq<Byte>, granted: bool)
    requires Inv(b)
    ensures match Alloc(b.mem, b.maxPages, 4 + |text|, granted)
            case Ok(_) =>
              && Step(b, Store(text, granted)).blocks == b.blocks + [Block(|b.mem.bytes|, 4 + |text|)]
              && StoredAt(Step(b, Store(text, granted)).mem.bytes, |b.mem.bytes|, text)
            case Err(_) => Step(b, Store(text, granted)) == b
  {
    hide Alloc, StoredAt, LE32, Spliced;
    if Alloc(b.mem, b.maxPages, 4 + |text|, granted).Ok? {
      AllocIsFresh(b.mem, b.maxPages, 4 + |text|, granted);
      var a := Alloc(b.mem, b.maxPages, 4 + |text|, granted).value;
      SplicedIsStored(a.mem.bytes, a.ptr, text);
    }
  }

  /** A guest's write arrives where it was aimed and nowhere else; one that is aimed outside the block
      does nothing. */
  lemma {:induction false} GuestWriteDoes(b: Bridge, k: nat, offset: nat, data: seq<Byte>)
    requires Inv(b)
    ensures var after := Step(b, GuestWrite(k, offset, data));
            if k < |b.blocks| && offset + |data| <= b.blocks[k].size then
              var at := b.blocks[k].ptr + offset;
              && after.blocks == b.blocks && |after.mem.bytes| == |b.mem.bytes|
              && after.mem.bytes[at..at + |data|] == data
              && forall i :: 0 <= i < |b.mem.bytes| && !(at <= i < at + |data|) ==>
                   after.mem.bytes[i] == b.mem.bytes[i]
            else after == b
  {
  }

  /** A block starts where memory ended, fits in it, and growth respects both page limits. */
  lemma AllocIsFresh(m: Mem, maxPages: nat, size: int, granted: bool)
    requires m.Valid() && Alloc(m, maxPages, size, granted).Ok?
    ensures var a := Alloc(m, maxPages, size, granted).value;
            && a.mem.Valid() && a.mem.maximum == m.maximum
            && a.ptr == |m.bytes|
            && m.bytes <= a.mem.bytes
            && a.ptr + Size(size) <= |a.mem.bytes|
            && (a.mem == m || a.mem.Pages() <= maxPages)
            && (forall i :: |m.bytes| <= i < |a.mem.bytes| ==> a.mem.bytes[i] == 0)
  {
    PagesForHolds(size);
    var needed := PagesFor(size);
    assert |m.bytes| == m.Pages() * PAGE;
    if needed > 0 {
      assert |m.bytes| + needed * PAGE == (m.Pages() + needed) * PAGE;
      assert (m.Pages() + needed) * PAGE <= m.maximum * PAGE;
    }
  }

  /** What one call does to memory: nothing below the old end, except a guest's own block. */
  lemma StepFrames(b: Bridge, op: Op)
    requires Inv(b)
    ensures Inv(Step(b, op))
    ensures Step(b, op).mem.maximum == b.mem.maximum && Step(b, op).maxPages == b.maxPages
    ensures b.blocks <= Step(b, op).blocks
    ensures |b.mem.bytes| <= |Step(b, op).mem.bytes|
    ensures Step(b, op).mem.Pages() <= b.mem.Pages() || Step(b, op).mem.Pages() <= b.maxPages
    ensures forall i :: 0 <= i < |b.mem.bytes| ==>
              || Step(b, op).mem.bytes[i] == b.mem.bytes[i]
              || (op.GuestWrite? && op.block < |b.blocks|
                  && b.blocks[op.block].ptr <= i < b.blocks[op.block].ptr + b.blocks[op.block].size)
  {
    hide Alloc, LE32;
    match op {
      case Allocate(size, granted) =>
        if Alloc(b.mem, b.maxPages, size, granted).Ok? {
          AllocIsFresh(b.mem, b.maxPages, size, granted);
        }
      case Store(text, granted) =>
        if Alloc(b.mem, b.maxPages, 4 + |text|, granted).Ok? {
          AllocIsFresh(b.mem, b.maxPages, 4 + |text|, granted);
        }
      case GuestWrite(_, _, _) =>
    }
  }

  /** Over any run: blocks stay inside memory and disjoint, and memory stays in its limits. */
  lemma {:induction false} RunKeepsInv(b: Bridge, ops: seq<Op>)
    requires Inv(b)
    ensures Inv(Run(b, ops))
    ensures b.blocks <= Run(b, ops).blocks
    ensures Run(b, ops).mem.Pages() <= b.mem.Pages() || Run(b, ops).mem.Pages() <= b.maxPages
    decreases ops
  {
    if ops != [] {
      StepFrames(b, ops[0]);
      RunKeepsInv(Step(b, ops[0]), ops[1..]);
    }
  }

  function BlockBytes(b: Bridge, k: nat): seq<Byte>
    requires k < |b.blocks| && b.blocks[k].ptr + b.blocks[k].size <= |b.mem.bytes|
  {
    b.mem.bytes[b.blocks[k].ptr..b.blocks[k].ptr + b.blocks[k].size]
  }

  lemma StepFramesBlock(b: Bridge, op: Op, k: nat)
    requires Inv(b) && k < |b.blocks| && Inv(Step(b, op))
    requires op.GuestWrite? ==> op.block != k
    ensures k < |Step(b, op).blocks| && Step(b, op).blocks[k] == b.blocks[k]
    ensures BlockBytes(Step(b, op), k) == BlockBytes(b, k)
  {
    StepFrames(b, op);
    var c := Step(b, op);
    var lo, hi := b.blocks[k].ptr, b.blocks[k].ptr + b.blocks[k].size;
    forall i | lo <= i < hi
      ensures c.mem.bytes[i] == b.mem.bytes[i]
    {
      if op.GuestWrite? && op.block < |b.blocks| {
        assert op.block < k || k < op.block;
      }
    }
  }

  /** A block's bytes change only when the guest writes to that block. */
  lemma {:induction false} BlockIsFramed(b: Bridge, ops: seq<Op>, k: nat)
    requires Inv(b) && k < |b.blocks| && Inv(Run(b, ops))
    requires forall op :: op in ops && op.GuestWrite? ==> op.block != k
    ensures k < |Run(b, ops).blocks| && Run(b, ops).blocks[k] == b.blocks[k]
    ensures BlockBytes(Run(b, ops), k) == BlockBytes(b, k)
    decreases ops
  {
    if ops != [] {
      assert ops[0] in ops;
      StepFrames(b, ops[0]);
      StepFramesBlock(b, ops[0], k);
      BlockIsFramed(Step(b, ops[0]), ops[1..], k);
    }
  }

  /** A string stored by the bridge is still there, and still decodes, after any later calls. */
  lemma StoredStringSurvives(b: Bridge, text: seq<Byte>, n: nat, later: seq<Op>)
    requires Inv(b) && 65_536 * n - 65_536 < 4 + |text| <= 65_536 * n
    requires |b.mem.bytes| + 65_536 * n <= 65_536 * b.mem.maximum && |b.mem.bytes| + 65_536 * n <= 65_536 * b.maxPages
    requires forall op :: op in later && op.GuestWrite? ==> op.block != |b.blocks|
    ensures var end := Run(Step(b, Store(text, true)), later);
            var ptr := |b.mem.bytes|;
            && StoredAt(end.mem.bytes, ptr, text)
            && (Decoded(end.mem.bytes, ptr) == Ok(text) <==> text == [] || (ptr > 0 && |text| < 1_000_000))
  {
    var s := Step(b, Store(text, true));
    var k := |b.blocks|;
    var ptr := |b.mem.bytes|;
    AllocSucceedsExactly(b.mem, b.maxPages, 4 + |text|, true, n);
    StepFrames(b, Store(text, true));
    StoreDoes(b, text, true);
    assert s.blocks[k] == Block(ptr, 4 + |text|);
    hide Alloc, Step, Run, Inv, StoredAt, Decoded;
    RunKeepsInv(s, later);
    BlockIsFramed(s, later, k);
    var end := Run(s, later);
    StoredInSameBytes(s.mem.bytes, end.mem.bytes, ptr, text);
    StoredIsDecoded(end.mem.bytes, ptr, text);
  }

  lemma SplicedIsStored(bytes: seq<Byte>, ptr: nat, text: seq<Byte>)
    requires ptr + 4 + |text| <= |bytes|
    ensures StoredAt(Spliced(bytes, ptr, LE32(|text|) + text), ptr, text)
  {
  }

  lemma StoredInSameBytes(x: seq<Byte>, y: seq<Byte>, ptr: nat, text: seq<Byte>)
    requires StoredAt(x, ptr, text) && ptr + 4 + |text| <= |y|
    requires x[ptr..ptr + (4 + |text|)] == y[ptr..ptr + (4 + |text|)]
    ensures StoredAt(y, ptr, text)
  {
    var n := 4 + |text|;
    assert x[ptr..ptr + 4] == x[ptr..ptr + n][..4];
    assert y[ptr..ptr + 4] == y[ptr..ptr + n][..4];
    assert x[ptr + 4..ptr + n] == x[ptr..ptr + n][4..];
    assert y[ptr + 4..ptr + n] == y[ptr..ptr + n][4..];
  }

  // ----- the code that works on the memory in place

  /** A growable memory: growing replaces the buffer by a longer one. */
  class Memory {
    var buffer: array<Byte>
    const maximum: nat

    constructor (pages: nat, maximum: nat)
      requires pages <= maximum <= 65_536
      ensures fresh(buffer) && this.maximum == maximum
      ensures Contents() == Mem(Zeros(pages * PAGE), maximum) && Contents().Valid()
    {
      this.maximum := maximum;
      buffer := new Byte[pages * PAGE](_ => 0);
      new;
      assert buffer[..] == Zeros(pages * PAGE);
      assert pages * PAGE <= maximum * PAGE;
    }

    ghost function Contents(): Mem
      reads this, buffer
    {
      Mem(buffer[..], maximum)
    }

    method Grow(delta: nat, granted: bool) returns (ok: bool)
      requires Contents().Valid()
      modifies this
      ensures ok == Grown(old(Contents()), delta, granted).Some?
      ensures ok ==> fresh(buffer) && Contents() == Grown(old(Contents()), delta, granted).value
      ensures !ok ==> buffer == old(buffer) && Contents() == old(Contents())
    {
      var pages := buffer.Length / PAGE;
      if !granted || pages + delta > maximum {
        return false;
      }
      var was := buffer;
      var longer := new Byte[was.Length + delta * PAGE](_ => 0);
      forall i | 0 <= i < was.Length { longer[i] := was[i]; }
      buffer := longer;
      assert longer[..] == was[..] + Zeros(delta * PAGE);
      return true;
    }

    /** The host allocator offered to modules that export none. */
    method MawAlloc(maxPages: nat, size: int, granted: bool) returns (r: Result<nat>)
      requires Contents().Valid()
      modifies this
      ensures match Alloc(old(Contents()), maxPages, size, granted)
              case Ok(a) => r == Ok(a.ptr) && Contents() == a.mem
              case Err(e) => r == Err(e) && Contents() == old(Contents())
      ensures buffer == old(buffer) || fresh(buffer)
    {
      var currentPages := buffer.Length / PAGE;
      var needed := PagesFor(size);
      if needed > 0 {
        if currentPages + needed > maxPages {
          return Err("maw_alloc denied");
        }
        var ok := Grow(needed, granted);
        if !ok {
          return Err("grow failed");
        }
      }
      return Ok(currentPages * PAGE);
    }

    /** Stores a length prefix and the payload at `ptr`. A pointer too close to the end of
        memory throws, possibly after the prefix was written. */
    method StoreAt(ptr: nat, text: seq<Byte>) returns (ok: bool)
      modifies buffer
      ensures ok == (ptr + 4 + |text| <= buffer.Length)
      ensures ok ==> buffer[..] == Spliced(old(buffer[..]), ptr, LE32(|text|) + text)
      ensures !ok ==> buffer[..] == if ptr + 4 <= buffer.Length then Spliced(old(buffer[..]), ptr, LE32(|text|))
                                    else old(buffer[..])
    {
      if ptr + 4 > buffer.Length {
        return false;
      }
      var prefix := LE32(|text|);
      forall i | 0 <= i < 4 { buffer[ptr + i] := prefix[i]; }
      if ptr + 4 + |text| > buffer.Length {
        return false;
      }
      forall i | 0 <= i < |text| { buffer[ptr + 4 + i] := text[i]; }
      return true;
    }

    /** Allocates with the host allocator and stores the string there. */
    method WriteString(maxPages: nat, text: seq<Byte>, granted: bool) returns (r: Result<nat>)
      requires Contents().Valid()
      modifies this, buffer
      ensures match Alloc(old(Contents()), maxPages, 4 + |text|, granted)
              case Err(_) => r.Err? && Contents() == old(Contents())
              case Ok(a) =>
                && r == Ok(a.ptr)
                && a.ptr == old(buffer.Length) && a.ptr + 4 + |text| <= |a.mem.bytes|
                && Contents() == a.mem.(bytes := Spliced(a.mem.bytes, a.ptr, LE32(|text|) + text))
                && StoredAt(Contents().bytes, a.ptr, text)
      ensures Contents().Valid()
    {
      r := MawAlloc(maxPages, 4 + |text|, granted);
      if r.Ok? {
        AllocIsFresh(old(Contents()), maxPages, 4 + |text|, granted);
        var stored := StoreAt(r.value, text);
        SplicedIsStored(Alloc(old(Contents()), maxPages, 4 + |text|, granted).value.mem.bytes, r.value, text);
      }
    }

    /** Decodes the result a plugin's entry point returned: length prefix first, then the
        null-terminated fallback. */
    method ReadResult(resultPtr: int) returns (r: Result<seq<Byte>>)
      ensures r == Decoded(buffer[..], resultPtr)
    {
      if resultPtr <= 0 {
        return Ok([]);
      }
      if resultPtr + 4 > buffer.Length {
        return Err("out of bounds");
      }
      var len := U32(buffer[resultPtr..resultPtr + 4]);
      assert buffer[..][resultPtr..resultPtr + 4] == buffer[resultPtr..resultPtr + 4];
      if 0 < len < PREFIX_LIMIT {
        if resultPtr + 4 + len > buffer.Length {
          return Err("out of bounds");
        }
        assert buffer[..][resultPtr + 4..resultPtr + 4 + len] == buffer[resultPtr + 4..resultPtr + 4 + len];
        return Ok(buffer[resultPtr + 4..resultPtr + 4 + len]);
      }
      var end := resultPtr;
      while end < buffer.Length && buffer[end] != 0
        invariant resultPtr <= end <= buffer.Length
        invariant ScanEnd(buffer[..], resultPtr) == ScanEnd(buffer[..], end)
      {
        end := end + 1;
      }
      assert buffer[..][resultPtr..end] == buffer[resultPtr..end];
      return Ok(buffer[resultPtr..end]);
    }
  }
}
