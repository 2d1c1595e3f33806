/**
 * `convertL2P` of vm_test/mysoln/vm.cpp: translation of a logical address through a segment
 * descriptor and a single page table into a physical address, with the checks in the order the
 * function makes them. Raw words are natural numbers below `2^16`, `2^32` or `2^64`; each bit-field
 * struct is decoded from its raw word by division and remainder, least significant field first.
 *
 * The function is modelled as written, with `limit_hi << 4` and a page granularity of `2 << 12`;
 * `Reading.Intended` gives the reading those two expressions evidently stand for (a 20-bit limit
 * and 4 KiB granules), and the lemmas at the end compare the two.
 */
module Translate {
  import opened Bits

  type U16 = x: nat | x < 0x1_0000
  type U32 = x: nat | x < 0x1_0000_0000
  type U64 = x: nat | x < 0x1_0000_0000_0000_0000

  /** `Selector`: requested privilege level (2 bits), table indicator (1 bit), index (13 bits). */
  datatype Selector = Selector(rpl: nat, isLdt: bool, index: nat)

  function Bit(b: bool): nat {
    if b then 1 else 0
  }

  function DecodeSelector(raw: U16): (s: Selector)
    ensures s.rpl < 4 && s.index < 0x2000
  {
    var rpl := raw % 4;
    var r := raw / 4;
    var isLdt := r % 2 == 1;
    var index := r / 2 % 0x2000;
    Selector(rpl, isLdt, index)
  }

  function EncodeSelector(s: Selector): nat {
    s.rpl + 4 * (Bit(s.isLdt) + 2 * s.index)
  }

  lemma SelectorRoundTrip(raw: U16)
    ensures EncodeSelector(DecodeSelector(raw)) == raw
  {
  }

  lemma SelectorFieldsRoundTrip(s: Selector)
    requires s.rpl < 4 && s.index < 0x2000
    ensures EncodeSelector(s) < 0x1_0000
    ensures DecodeSelector(EncodeSelector(s)) == s
  {
  }

  /** `Segment`, a descriptor: limit 15:0, base 23:0, 7 bits not used here, present, limit 19:16,
      3 bits not used here, granularity, base 31:24. */
  datatype Segment = Segment(limitLow: nat, baseLow: nat, unused2: nat, present: bool, limitHi: nat,
                             unused1: nat, inPages: bool, baseHi: nat)

  predicate SegmentFits(s: Segment) {
    && s.limitLow < 0x1_0000 && s.baseLow < 0x100_0000 && s.unused2 < 0x80
    && s.limitHi < 0x10 && s.unused1 < 8 && s.baseHi < 0x100
  }

  function DecodeSegment(raw: U64): (s: Segment)
    ensures SegmentFits(s)
  {
    var limitLow := raw % 0x1_0000;
    var r1 := raw / 0x1_0000;
    var baseLow := r1 % 0x100_0000;
    var r2 := r1 / 0x100_0000;
    var unused2 := r2 % 0x80;
    var r3 := r2 / 0x80;
    var present := r3 % 2 == 1;
    var r4 := r3 / 2;
    var limitHi := r4 % 0x10;
    var r5 := r4 / 0x10;
    var unused1 := r5 % 8;
    var r6 := r5 / 8;
    var inPages := r6 % 2 == 1;
    var baseHi := r6 / 2 % 0x100;
    Segment(limitLow, baseLow, unused2, present, limitHi, unused1, inPages, baseHi)
  }

  function EncodeSegment(s: Segment): nat {
    s.limitLow + 0x1_0000 * (s.baseLow + 0x100_0000 * (s.unused2 + 0x80 * (Bit(s.present)
      + 2 * (s.limitHi + 0x10 * (s.unused1 + 8 * (Bit(s.inPages) + 2 * s.baseHi))))))
  }

  lemma SegmentRoundTrip(raw: U64)
    ensures EncodeSegment(DecodeSegment(raw)) == raw
  {
    var r1 := raw / 0x1_0000;
    var r2 := r1 / 0x100_0000;
    var r3 := r2 / 0x80;
    var r4 := r3 / 2;
    var r5 := r4 / 0x10;
    var r6 := r5 / 8;
    assert r6 / 2 < 0x100;
    assert r6 == r6 % 2 + 2 * (r6 / 2 % 0x100);
    assert r5 == r5 % 8 + 8 * r6;
    assert r4 == r4 % 0x10 + 0x10 * r5;
    assert r3 == r3 % 2 + 2 * r4;
    assert r2 == r2 % 0x80 + 0x80 * r3;
    assert r1 == r1 % 0x100_0000 + 0x100_0000 * r2;
  }

  lemma SegmentFieldsRoundTrip(s: Segment)
    requires SegmentFits(s)
    ensures EncodeSegment(s) < 0x1_0000_0000_0000_0000
    ensures DecodeSegment(EncodeSegment(s)) == s
  {
    var t6 := Bit(s.inPages) + 2 * s.baseHi;
    var t5 := s.unused1 + 8 * t6;
    var t4 := s.limitHi + 0x10 * t5;
    var t3 := Bit(s.present) + 2 * t4;
    var t2 := s.unused2 + 0x80 * t3;
    var t1 := s.baseLow + 0x100_0000 * t2;
    var raw := s.limitLow + 0x1_0000 * t1;
    assert t6 < 0x200 && t5 < 0x1000 && t4 < 0x1_0000 && t3 < 0x2_0000 && t2 < 0x100_0000;
    assert t1 < 0x1_0000_0000_0000;
    assert raw == EncodeSegment(s);
    assert raw % 0x1_0000 == s.limitLow && raw / 0x1_0000 == t1;
    assert t1 % 0x100_0000 == s.baseLow && t1 / 0x100_0000 == t2;
    assert t2 % 0x80 == s.unused2 && t2 / 0x80 == t3;
    assert t3 / 2 == t4 && t4 / 0x10 == t5 && t5 / 8 == t6;
  }

  /** Each decoded field is the slice of the descriptor at its bit position: limit 15:0 at bit 0,
      base 23:0 at bit 16, present at bit 47, limit 19:16 at bit 48, granularity at bit 55 and
      base 31:24 at bit 56. */
  lemma SegmentBitPositions(raw: U64)
    ensures var s := DecodeSegment(raw);
      && s.limitLow == raw % 0x1_0000
      && s.baseLow == raw / 0x1_0000 % 0x100_0000
      && s.present == (raw / 0x8000_0000_0000 % 2 == 1)
      && s.limitHi == raw / 0x1_0000_0000_0000 % 0x10
      && s.inPages == (raw / 0x80_0000_0000_0000 % 2 == 1)
      && s.baseHi == raw / 0x100_0000_0000_0000
  {
    var r1 := raw / 0x1_0000;
    var r2 := r1 / 0x100_0000;
    assert r2 == raw / 0x100_0000_0000;
    var r3 := r2 / 0x80;
    assert r3 == raw / 0x8000_0000_0000;
    var r4 := r3 / 2;
    assert r4 == raw / 0x1_0000_0000_0000;
    var r6 := r4 / 0x10 / 8;
    assert r6 == raw / 0x80_0000_0000_0000;
    assert r6 / 2 == raw / 0x100_0000_0000_0000;
  }

  /** `LinearAddress`: offset in the page (12 bits), page-table index (10), directory index (10). */
  datatype LinearAddress = LinearAddress(offset: nat, tableIndex: nat, dirIndex: nat)

  function DecodeLinear(raw: U32): (a: LinearAddress)
    ensures a.offset < 0x1000 && a.tableIndex < 0x400 && a.dirIndex < 0x400
  {
    var offset := raw % 0x1000;
    var r := raw / 0x1000;
    var tableIndex := r % 0x400;
    var dirIndex := r / 0x400 % 0x400;
    LinearAddress(offset, tableIndex, dirIndex)
  }

  function EncodeLinear(a: LinearAddress): nat {
    a.offset + 0x1000 * (a.tableIndex + 0x400 * a.dirIndex)
  }

  lemma LinearRoundTrip(raw: U32)
    ensures EncodeLinear(DecodeLinear(raw)) == raw
  {
    var r := raw / 0x1000;
    assert r / 0x400 < 0x400;
    assert r == r % 0x400 + 0x400 * (r / 0x400 % 0x400);
  }

  lemma LinearFieldsRoundTrip(a: LinearAddress)
    requires a.offset < 0x1000 && a.tableIndex < 0x400 && a.dirIndex < 0x400
    ensures EncodeLinear(a) < 0x1_0000_0000
    ensures DecodeLinear(EncodeLinear(a)) == a
  {
    var r := a.tableIndex + 0x400 * a.dirIndex;
    assert r < 0x10_0000;
    var raw := a.offset + 0x1000 * r;
    assert raw % 0x1000 == a.offset && raw / 0x1000 == r;
    assert r % 0x400 == a.tableIndex && r / 0x400 == a.dirIndex;
  }

  /** `MemorySystem`: the selector and the four tables, as raw words. Page-directory and page-table
      entries are used only through their raw words. */
  datatype MemorySystem = MemorySystem(selector: U16, gdt: seq<U64>, ldt: seq<U64>,
                                       pageDir: seq<U32>, pageTable: seq<U32>)

  /** Why a translation fails. The first five are the `runtime_error`s the function throws;
      `Wraparound` is the failed assertion that the linear address did not wrap. */
  datatype Fault = NullSelector | SegmentNotPresent | LimitExceeded | Wraparound
                 | PageTableNotPresent | PageNotPresent

  datatype Result = Ok(physical: U32) | Err(fault: Fault)

  /** The program as written, or the reading its two suspicious expressions evidently stand for. */
  datatype Reading = AsWritten | Intended

  /** Index 0 of the GDT: the null selector. */
  predicate IsNull(sel: Selector) {
    sel.index == 0 && !sel.isLdt
  }

  /** The descriptor table the selector's table indicator chooses. */
  function TableOf(m: MemorySystem, sel: Selector): seq<U64> {
    if sel.isLdt then m.ldt else m.gdt
  }

  /** `limit_hi << 4 | limit_low` as written; `limit_hi << 16 | limit_low` as intended. */
  function Limit(seg: Segment, r: Reading): nat {
    match r
    case AsWritten => Or(Shl(seg.limitHi, 4), seg.limitLow)
    case Intended => Or(Shl(seg.limitHi, 16), seg.limitLow)
  }

  /** The factor a set granularity bit scales the limit by: `2 << 12` as written, `1 << 12` as
      intended. */
  function Granule(r: Reading): nat {
    match r
    case AsWritten => Shl(2, 12)
    case Intended => Shl(1, 12)
  }

  /** `seg_size`: offsets below it are inside the segment. */
  function SegmentSize(seg: Segment, r: Reading): nat {
    (Limit(seg, r) + 1) * (if seg.inPages then Granule(r) else 1)
  }

  /** `base_hi << 24 | base_low`. With `base_hi` of 128 or more the shift overflows `int`, which the
      source leaves undefined. */
  function BaseAddress(seg: Segment): (b: nat)
    requires SegmentFits(seg) && seg.baseHi < 0x80
    ensures b == seg.baseHi * 0x100_0000 + seg.baseLow
    ensures b < 0x8000_0000
  {
    Pow2Values();
    OrDisjoint(seg.baseHi, seg.baseLow, 24);
    ShlIsMul(seg.baseHi, 24);
    Or(Shl(seg.baseHi, 24), seg.baseLow)
  }

  /** `base_addr + laddr` stored into the 32-bit `LinearAddress`. */
  function Linear(seg: Segment, laddr: U32): U32
    requires SegmentFits(seg) && seg.baseHi < 0x80
  {
    (BaseAddress(seg) + laddr) % 0x1_0000_0000
  }

  /** `raw_data & 1`: the present bit of a page-directory or page-table entry. */
  predicate Present(entry: U32) {
    entry % 2 == 1
  }

  /** The page walk reads only entries that exist. */
  predicate WalkDefined(m: MemorySystem, lin: U32) {
    var a := DecodeLinear(lin);
    a.dirIndex < |m.pageDir| && (Present(m.pageDir[a.dirIndex]) ==> a.tableIndex < |m.pageTable|)
  }

  /** From the descriptor on, the translation is defined: the base shift does not overflow once
      it is reached, and the page walk reads only entries that exist once it is reached. */
  predicate SegmentDefined(m: MemorySystem, seg: Segment, laddr: U32, r: Reading)
    requires SegmentFits(seg)
  {
    || !seg.present
    || SegmentSize(seg, r) <= laddr
    || (seg.baseHi < 0x80 && (Linear(seg, laddr) < BaseAddress(seg) || WalkDefined(m, Linear(seg, laddr))))
  }

  /** What the source demands of its input: the selector names an existing descriptor unless it
      is the null selector, and so on down the checks. */
  predicate Defined(m: MemorySystem, laddr: U32, r: Reading) {
    var sel := DecodeSelector(m.selector);
    || IsNull(sel)
    || (sel.index < |TableOf(m, sel)| && SegmentDefined(m, DecodeSegment(TableOf(m, sel)[sel.index]), laddr, r))
  }

  /** Steps 2 and 2.1: the page-directory entry must be present, then the page-table entry; the
      physical address is the frame of the page-table entry plus the offset. */
  function Walk(m: MemorySystem, lin: U32): (res: Result)
    requires WalkDefined(m, lin)
  {
    var a := DecodeLinear(lin);
    if !Present(m.pageDir[a.dirIndex]) then Err(PageTableNotPresent)
    else
      var pageData := m.pageTable[a.tableIndex];
      if !Present(pageData) then Err(PageNotPresent)
      else
        var pageBase := pageData / 0x1000 * 0x1000;
        Ok(a.offset + pageBase)
  }

  /** The descriptor the selector chooses. */
  function Descriptor(m: MemorySystem): (seg: Segment)
    requires var sel := DecodeSelector(m.selector); !IsNull(sel) && sel.index < |TableOf(m, sel)|
    ensures SegmentFits(seg)
  {
    var sel := DecodeSelector(m.selector);
    DecodeSegment(TableOf(m, sel)[sel.index])
  }

  /** `convertL2P(m, laddr)`, under reading `r`. */
  function ConvertL2P(m: MemorySystem, laddr: U32, r: Reading): (res: Result)
    requires Defined(m, laddr, r)
    ensures r == AsWritten ==> res != Err(Wraparound)
  {
    var sel := DecodeSelector(m.selector);
    if IsNull(sel) then Err(NullSelector)
    else
      var seg := Descriptor(m);
      if !seg.present then Err(SegmentNotPresent)
      else if SegmentSize(seg, r) <= laddr then Err(LimitExceeded)
      else
        SegmentSizeBound(seg, r);
        var base := BaseAddress(seg);
        var lin := Linear(seg, laddr);
        if lin < base then Err(Wraparound)
        else Walk(m, lin)
  }

  /** The checks run in a fixed order and the first that fails decides the fault: null selector,
      present bit, limit, wraparound, page-directory entry, page-table entry. */
  lemma FaultOrder(m: MemorySystem, laddr: U32, r: Reading)
    requires Defined(m, laddr, r)
    ensures var sel := DecodeSelector(m.selector);
      && (ConvertL2P(m, laddr, r) == Err(NullSelector) <==> IsNull(sel))
      && (ConvertL2P(m, laddr, r) == Err(SegmentNotPresent) <==> !IsNull(sel) && !Descriptor(m).present)
      && (ConvertL2P(m, laddr, r) == Err(LimitExceeded) <==>
            !IsNull(sel) && Descriptor(m).present && SegmentSize(Descriptor(m), r) <= laddr)
      && (ConvertL2P(m, laddr, r) == Err(Wraparound) <==>
            && !IsNull(sel) && Descriptor(m).present && laddr < SegmentSize(Descriptor(m), r)
            && BaseAddress(Descriptor(m)) + laddr >= 0x1_0000_0000)
  {
    var sel := DecodeSelector(m.selector);
    if !IsNull(sel) && Descriptor(m).present && laddr < SegmentSize(Descriptor(m), r) {
      LinearWraps(Descriptor(m), laddr);
    }
  }

  /** Once the segment checks pass, the result is the page walk of `base + laddr`, which decides
      the remaining two faults (`WalkFaults`). */
  lemma PageFaultOrder(m: MemorySystem, laddr: U32, r: Reading)
    requires Defined(m, laddr, r)
    ensures var sel := DecodeSelector(m.selector);
      !IsNull(sel) && Descriptor(m).present && laddr < SegmentSize(Descriptor(m), r)
      && BaseAddress(Descriptor(m)) + laddr < 0x1_0000_0000 ==>
        var lin := BaseAddress(Descriptor(m)) + laddr;
        WalkDefined(m, lin) && ConvertL2P(m, laddr, r) == Walk(m, lin)
  {
    var sel := DecodeSelector(m.selector);
    if !IsNull(sel) && Descriptor(m).present && laddr < SegmentSize(Descriptor(m), r) {
      LinearWraps(Descriptor(m), laddr);
    }
  }

  /** The walk fails at the page directory exactly when the entry for bits 31:22 is absent, and
      at the page table exactly when that entry is present and the entry for bits 21:12 is not. */
  lemma WalkFaults(m: MemorySystem, lin: U32)
    requires WalkDefined(m, lin)
    ensures lin / 0x40_0000 < |m.pageDir|
    ensures Walk(m, lin) == Err(PageTableNotPresent) <==> !Present(m.pageDir[lin / 0x40_0000])
    ensures Walk(m, lin) == Err(PageNotPresent) <==>
      && Present(m.pageDir[lin / 0x40_0000])
      && lin / 0x1000 % 0x400 < |m.pageTable|
      && !Present(m.pageTable[lin / 0x1000 % 0x400])
  {
    var a := DecodeLinear(lin);
    assert a.dirIndex == lin / 0x40_0000;
    assert a.tableIndex == lin / 0x1000 % 0x400;
  }

  /** The table indicator alone decides which table is read: with TI set the GDT may be anything,
      and with TI clear the LDT may be anything, without changing the translation. */
  lemma TableChoice(m: MemorySystem, laddr: U32, r: Reading, other: seq<U64>)
    requires Defined(m, laddr, r)
    ensures DecodeSelector(m.selector).isLdt ==>
      Defined(m.(gdt := other), laddr, r) && ConvertL2P(m.(gdt := other), laddr, r) == ConvertL2P(m, laddr, r)
    ensures !DecodeSelector(m.selector).isLdt ==>
      Defined(m.(ldt := other), laddr, r) && ConvertL2P(m.(ldt := other), laddr, r) == ConvertL2P(m, laddr, r)
  {
    var sel := DecodeSelector(m.selector);
    var m' := if sel.isLdt then m.(gdt := other) else m.(ldt := other);
    assert TableOf(m', sel) == TableOf(m, sel);
    if !IsNull(sel) && sel.index < |TableOf(m, sel)| {
      assert Descriptor(m') == Descriptor(m);
    }
  }

  /** The assertion fails exactly when `base_addr + laddr` does not fit 32 bits; otherwise the
      linear address is that sum. */
  lemma LinearWraps(seg: Segment, laddr: U32)
    requires SegmentFits(seg) && seg.baseHi < 0x80
    ensures Linear(seg, laddr) < BaseAddress(seg) <==> BaseAddress(seg) + laddr >= 0x1_0000_0000
    ensures BaseAddress(seg) + laddr < 0x1_0000_0000 ==> Linear(seg, laddr) == BaseAddress(seg) + laddr
  {
  }

  /** Index 0 of the LDT is an ordinary descriptor: only the GDT's index 0 is the null selector. */
  lemma LdtIndexZeroAccepted(m: MemorySystem, laddr: U32, r: Reading)
    requires Defined(m, laddr, r)
    requires DecodeSelector(m.selector).isLdt && DecodeSelector(m.selector).index == 0
    ensures ConvertL2P(m, laddr, r) != Err(NullSelector)
    ensures Descriptor(m) == DecodeSegment(m.ldt[0])
  {
  }

  /** The requested privilege level has no effect: selectors that differ only in their two RPL
      bits translate every address alike. */
  lemma RplIgnored(m: MemorySystem, laddr: U32, r: Reading, rpl: nat)
    requires Defined(m, laddr, r) && rpl < 4
    ensures var m' := m.(selector := m.selector / 4 * 4 + rpl);
      Defined(m', laddr, r) && ConvertL2P(m', laddr, r) == ConvertL2P(m, laddr, r)
  {
    var m' := m.(selector := m.selector / 4 * 4 + rpl);
    var s, s' := DecodeSelector(m.selector), DecodeSelector(m'.selector);
    assert s'.isLdt == s.isLdt && s'.index == s.index;
    if !IsNull(s) {
      assert Descriptor(m') == Descriptor(m);
    }
  }

  /** A successful translation passed every segment check: it is inside the segment and the
      linear address is `base + laddr` without wraparound; the rest is the page walk. */
  lemma TranslationInSegment(m: MemorySystem, laddr: U32, r: Reading)
    requires Defined(m, laddr, r) && ConvertL2P(m, laddr, r).Ok?
    ensures !IsNull(DecodeSelector(m.selector)) && Descriptor(m).present
    ensures laddr < SegmentSize(Descriptor(m), r)
    ensures Descriptor(m).baseHi < 0x80 && BaseAddress(Descriptor(m)) + laddr < 0x1_0000_0000
    ensures WalkDefined(m, BaseAddress(Descriptor(m)) + laddr)
    ensures ConvertL2P(m, laddr, r) == Walk(m, BaseAddress(Descriptor(m)) + laddr)
  {
    LinearWraps(Descriptor(m), laddr);
  }

  /** A successful page walk found both entries present and keeps the offset inside the page: the
      physical address is the page-table entry's frame plus the linear address's low 12 bits. */
  lemma WalkInPage(m: MemorySystem, lin: U32)
    requires WalkDefined(m, lin) && Walk(m, lin).Ok?
    ensures lin / 0x40_0000 < |m.pageDir| && Present(m.pageDir[lin / 0x40_0000])
    ensures lin / 0x1000 % 0x400 < |m.pageTable| && Present(m.pageTable[lin / 0x1000 % 0x400])
    ensures Walk(m, lin).physical % 0x1000 == lin % 0x1000
    ensures Walk(m, lin).physical / 0x1000 == m.pageTable[lin / 0x1000 % 0x400] / 0x1000
  {
    var a := DecodeLinear(lin);
    assert a.dirIndex == lin / 0x40_0000;
    var pageData := m.pageTable[a.tableIndex];
    DivModUnique(Walk(m, lin).physical, pageData / 0x1000, a.offset);
  }

  /** `p == 4096 * q + off` with `off < 4096` determines both parts. */
  lemma DivModUnique(p: nat, q: nat, off: nat)
    requires off < 0x1000 && p == q * 0x1000 + off
    ensures p % 0x1000 == off && p / 0x1000 == q
  {
  }

  // ---- The two expressions that disagree with the descriptor format ----

  /** As written, the limit never reaches 64 KiB: `limit_hi << 4` lands on bits 4 to 7, which
      `limit_low` already covers, so bits 16 to 19 of the 20-bit limit are never set. */
  lemma AsWrittenLimitBelow64K(seg: Segment)
    requires SegmentFits(seg)
    ensures Limit(seg, AsWritten) < 0x1_0000
  {
    ShlIsMul(seg.limitHi, 4);
    Pow2Values();
    OrBelow(Shl(seg.limitHi, 4), seg.limitLow, 16);
  }

  /** The 20-bit limit of the descriptor format: `limit_hi` above `limit_low`. */
  lemma IntendedLimit(seg: Segment)
    requires SegmentFits(seg)
    ensures Limit(seg, Intended) == seg.limitHi * 0x1_0000 + seg.limitLow
  {
    Pow2Values();
    OrDisjoint(seg.limitHi, seg.limitLow, 16);
    ShlIsMul(seg.limitHi, 16);
  }

  /** As written, a set granularity bit scales the limit by 8192, twice the 4 KiB page size. */
  lemma AsWrittenGranule()
    ensures Granule(AsWritten) == 0x2000
  {
    ShlIsMul(2, 12);
    Pow2Values();
  }

  /** The limit is at least `limit_low` and fits 16 bits as written, 20 bits as intended; as
      intended, its low 16 bits are exactly `limit_low`. */
  lemma LimitBound(seg: Segment, r: Reading)
    requires SegmentFits(seg)
    ensures seg.limitLow <= Limit(seg, r)
    ensures r == Intended ==> Limit(seg, r) % 0x1_0000 == seg.limitLow
    ensures Limit(seg, r) < (if r == AsWritten then 0x1_0000 else 0x10_0000)
  {
    match r
    case AsWritten =>
      AsWrittenLimitBelow64K(seg);
      OrAtLeast(Shl(seg.limitHi, 4), seg.limitLow);
    case Intended =>
      IntendedLimit(seg);
  }

  /** A segment holds at least one byte and at most 512 MiB as written, 4 GiB as intended. */
  lemma SegmentSizeBound(seg: Segment, r: Reading)
    requires SegmentFits(seg)
    ensures 0 < SegmentSize(seg, r) <= (if r == AsWritten then 0x2000_0000 else 0x1_0000_0000)
  {
    LimitBound(seg, r);
    var l := Limit(seg, r);
    if !seg.inPages {
      assert SegmentSize(seg, r) == l + 1;
    } else if r == AsWritten {
      AsWrittenGranule();
      assert SegmentSize(seg, r) == (l + 1) * 0x2000;
    } else {
      ShlIsMul(1, 12);
      Pow2Values();
      assert SegmentSize(seg, r) == (l + 1) * 0x1000;
    }
  }

  /** As intended, a page-granular segment covers `limit + 1` pages of 4 KiB: the last offset
      inside it is `limit * 4096 + 4095`. */
  lemma IntendedGranule(seg: Segment, laddr: nat)
    requires seg.inPages
    ensures laddr < SegmentSize(seg, Intended) <==> laddr <= Limit(seg, Intended) * 0x1000 + 0xFFF
  {
    ShlIsMul(1, 12);
    Pow2Values();
  }

  /** A descriptor at GDT index 1: present, byte-granular, base 0, `limit_hi` 1 and `limit_low`
      0, so a 20-bit limit of 65536. Directory and table entry 0 are present, frame 0. */
  function ShortLimitSystem(): MemorySystem {
    MemorySystem(8, [0, 0x1_8000_0000_0000], [], [1], [1])
  }

  /** The selector of that system chooses the descriptor at GDT index 1, whose limit reads as 16
      as written and as 65536 as intended. */
  lemma ShortLimitDescriptor() returns (seg: Segment)
    ensures var m := ShortLimitSystem(); var sel := DecodeSelector(m.selector);
      && !IsNull(sel) && sel.index < |TableOf(m, sel)| && seg == Descriptor(m)
    ensures seg == Segment(0, 0, 0, true, 1, 0, false, 0)
    ensures Limit(seg, AsWritten) == 0x10 && Limit(seg, Intended) == 0x1_0000 && BaseAddress(seg) == 0
  {
    SelectorEight();
    seg := Segment(0, 0, 0, true, 1, 0, false, 0);
    ShortLimitWord();
    ShlIsMul(1, 4);
    Pow2Values();
    IntendedLimit(seg);
  }

  /** The descriptor word of that system decodes to its fields. */
  lemma ShortLimitWord()
    ensures DecodeSegment(0x1_8000_0000_0000) == Segment(0, 0, 0, true, 1, 0, false, 0)
  {
    var r3 := 0x1_8000_0000_0000 / 0x1_0000 / 0x100_0000 / 0x80;
    assert r3 == 0x3;
  }


  /** Selector 8: index 1 of the GDT, RPL 0. */
  lemma SelectorEight()
    ensures DecodeSelector(8) == Selector(0, false, 1)
  {
  }

  /** Offset 0x11 of that segment: rejected as written, where the limit is read as 16, and
      translated as intended. */
  lemma LimitHiShiftedTooLittle()
    ensures Defined(ShortLimitSystem(), 0x11, AsWritten)
      && ConvertL2P(ShortLimitSystem(), 0x11, AsWritten) == Err(LimitExceeded)
    ensures Defined(ShortLimitSystem(), 0x11, Intended)
      && ConvertL2P(ShortLimitSystem(), 0x11, Intended) == Ok(0x11)
  {
    var seg := ShortLimitDescriptor();
    assert SegmentSize(seg, AsWritten) == 0x11;
    assert SegmentSize(seg, Intended) == 0x1_0001;
    assert Linear(seg, 0x11) == 0x11;
    assert DecodeLinear(0x11) == LinearAddress(0x11, 0, 0);
  }

  /** A page-granular descriptor at GDT index 1 with limit 0 and base 0: one page of 4 KiB.
      Directory entry 0 is present, and table entry 1 maps frame 2. */
  function OnePageSystem(): MemorySystem {
    MemorySystem(8, [0, 0x80_8000_0000_0000], [], [1], [1, 0x2001])
  }

  /** The selector of that system chooses the one-page descriptor, whose limit is 0 in both
      readings. */
  lemma OnePageDescriptor() returns (seg: Segment)
    ensures var m := OnePageSystem(); var sel := DecodeSelector(m.selector);
      && !IsNull(sel) && sel.index < |TableOf(m, sel)| && seg == Descriptor(m)
    ensures seg == Segment(0, 0, 0, true, 0, 0, true, 0)
    ensures Limit(seg, AsWritten) == 0 && Limit(seg, Intended) == 0 && BaseAddress(seg) == 0
  {
    SelectorEight();
    seg := Segment(0, 0, 0, true, 0, 0, true, 0);
    OnePageWord();
    ShlIsMul(0, 4);
    IntendedLimit(seg);
  }

  /** The descriptor word of that system decodes to its fields. */
  lemma OnePageWord()
    ensures DecodeSegment(0x80_8000_0000_0000) == Segment(0, 0, 0, true, 0, 0, true, 0)
  {
    var r3 := 0x80_8000_0000_0000 / 0x1_0000 / 0x100_0000 / 0x80;
    assert r3 == 0x101;
  }


  /** Offset 4096 of a one-page segment, the first byte past it: accepted as written, where the
      segment is read as 8192 bytes long, and rejected as intended. */
  lemma PageGranuleDoubled()
    ensures Defined(OnePageSystem(), 0x1000, AsWritten)
      && ConvertL2P(OnePageSystem(), 0x1000, AsWritten) == Ok(0x2000)
    ensures Defined(OnePageSystem(), 0x1000, Intended)
      && ConvertL2P(OnePageSystem(), 0x1000, Intended) == Err(LimitExceeded)
  {
    var seg := OnePageDescriptor();
    AsWrittenGranule();
    IntendedGranule(seg, 0x1000);
    assert SegmentSize(seg, AsWritten) == 0x2000;
    assert Linear(seg, 0x1000) == 0x1000;
    assert DecodeLinear(0x1000) == LinearAddress(0, 1, 0);
    assert Walk(OnePageSystem(), 0x1000) == Ok(0x2000);
  }
}
