/**
 decode_mcu of components/gui/GUI/JPEG/jdhuff.c: one MCU's worth of coefficients from the bit stream,
 with nothing committed when the data runs out on the way.
 */
module McuDecode {
  import opened Bits
  import opened Huffman
  import opened HuffTables
  import opened BitReader
  import opened HuffDecode
  import opened ZigzagOrder

  /** HUFF_EXTEND: the signed value of `n` bits. */
  function Extend(v: int, n: int): int
    requires n > 0
  {
    if v < Pow2(n - 1) then v - Pow2(n) + 1 else v
  }

  /** Values of size `n` are the numbers with `n` bits and either sign; negative ones are coded one less. */
  lemma ExtendMeans(v: int, n: int)
    requires 1 <= n && 0 <= v < Pow2(n)
    ensures var x := Extend(v, n);
            && Pow2(n - 1) <= (if x < 0 then -x else x) < Pow2(n)
            && v == if x > 0 then x else x + Pow2(n) - 1
  {
    Pow2Step(n - 1);
  }

  /** The cast to a 16-bit JCOEF. */
  function Coef(v: int): (c: int)
    ensures -32768 <= c < 32768
    ensures -32768 <= v < 32768 ==> c == v
  {
    (v + 32768) % 65536 - 32768
  }

  /** An assignment to coefficient `index` of block `block`. */
  datatype Write = Write(block: int, index: int, value: int)

  /** What a part of the decoding did: stuck for data after some assignments, or done. */
  datatype Out = Stop(writes: seq<Write>, r: Reader) | Done(writes: seq<Write>, r: Reader)

  function After(ws: seq<Write>, o: Out): Out {
    o.(writes := ws + o.writes)
  }

  // ----- one block -----

  /** The AC coefficients from zigzag position `k` on. */
  function AcFrom(t: Table, d: Derived, input: seq<Byte>, r: Reader, blk: int, needed: bool, k: int): (o: Out)
    requires InUse(t, d) && r.Ok(input) && 1 <= k
    ensures o.r.Ok(input)
    decreases 80 - k
  {
    if k >= 64 then Done([], r)
    else
      match Fetch(t, d, input, r)
      case NoSymbol => Stop([], r)
      case Decoded(s, r1) =>
        var run, size := s / 16, s % 16;
        if size != 0 then
          match Get(input, r1, size)
          case Stuck => Stop([], r1)
          case Got(v, r2) =>
            var ws := if needed then [Write(blk, Natural(k + run), Coef(Extend(v, size)))] else [];
            After(ws, AcFrom(t, d, input, r2, blk, needed, k + run + 1))
        else if run != 15 then Done([], r1)
        else AcFrom(t, d, input, r1, blk, needed, k + 16)
  }

  /** One round of the AC loop. */
  lemma AcStep(t: Table, d: Derived, input: seq<Byte>, r: Reader, blk: int, needed: bool, k: int)
    requires InUse(t, d) && r.Ok(input) && 1 <= k < 64
    ensures var o := AcFrom(t, d, input, r, blk, needed, k);
            match Fetch(t, d, input, r)
            case NoSymbol => o == Stop([], r)
            case Decoded(s, r1) =>
              var run, size := s / 16, s % 16;
              0 <= run <= 15 && 0 <= size <= 15 &&
              if size != 0 then
                match Get(input, r1, size)
                case Stuck => o == Stop([], r1)
                case Got(v, r2) =>
                  var ws := if needed then [Write(blk, Natural(k + run), Coef(Extend(v, size)))] else [];
                  o == After(ws, AcFrom(t, d, input, r2, blk, needed, k + run + 1))
              else if run != 15 then o == Done([], r1)
              else o == AcFrom(t, d, input, r1, blk, needed, k + 16)
  {
    hide InUse, Fetch, Get, Coef, Extend, Natural;
  }

  datatype Diff = NoDiff(r: Reader) | Diff(value: int, r: Reader)

  /** The DC difference. */
  function DcDiff(t: Table, d: Derived, input: seq<Byte>, r: Reader): (o: Diff)
    requires InUse(t, d) && DcSymbols(t) && r.Ok(input)
    ensures o.r.Ok(input)
  {
    DecodeSmall(t, d, input, r);
    match Fetch(t, d, input, r)
    case NoSymbol => NoDiff(r)
    case Decoded(s, r1) =>
      if s == 0 then Diff(0, r1)
      else
        match Get(input, r1, s)
        case Stuck => NoDiff(r1)
        case Got(v, r2) => Diff(Extend(v, s), r2)
  }

  /** A DC table only yields symbols up to 15. */
  lemma DecodeSmall(t: Table, d: Derived, input: seq<Byte>, r: Reader)
    requires InUse(t, d) && DcSymbols(t) && r.Ok(input)
    ensures Fetch(t, d, input, r).Decoded? ==> Fetch(t, d, input, r).value <= 15
  {
    DecodeAgrees(t, d, input, r);
    hide Fetch, DerivedOk, Index, Length, First, Serial;
    var w := Upcoming(input, r);
    NextSmall(t, w);
  }

  lemma NextSmall(t: Table, w: seq<bool>)
    requires t.Typed() && Legal(t.bits) && DcSymbols(t) && |w| == 17
    ensures Next(t, w).value <= 15
  {
    var p := SerialSound(t, w, 1);
    if Next(t, w).length <= 16 { NextInverts(t, w, p); }
  }

  // ----- the blocks of an MCU -----

  /** What start_pass_huff_decoder sets up for each block: tables, component, and whether values matter. */
  datatype Slot = Slot(dcTable: Table, dcDerived: Derived, acTable: Table, acDerived: Derived, comp: int,
      dcNeeded: bool, acNeeded: bool)

  ghost predicate SlotOk(s: Slot, comps: int) {
    InUse(s.dcTable, s.dcDerived) && DcSymbols(s.dcTable) && InUse(s.acTable, s.acDerived) && 0 <= s.comp < comps
  }

  ghost predicate SlotsOk(slots: seq<Slot>, comps: int) {
    forall i :: 0 <= i < |slots| ==> SlotOk(slots[i], comps)
  }

  /** The outcome for an MCU: also the new DC predictions. */
  datatype McuOut = Wait(writes: seq<Write>, r: Reader) | Complete(writes: seq<Write>, r: Reader, dc: seq<int>)

  function AfterMcu(ws: seq<Write>, o: McuOut): McuOut {
    o.(writes := ws + o.writes)
  }

  /** Block number `blk`, starting from the DC predictions `dc`. */
  function Block(s: Slot, input: seq<Byte>, r: Reader, dc: seq<int>, blk: int): (o: McuOut)
    requires SlotOk(s, |dc|) && r.Ok(input)
    ensures o.r.Ok(input) && (o.Complete? ==> |o.dc| == |dc|)
  {
    match DcDiff(s.dcTable, s.dcDerived, input, r)
    case NoDiff(r1) => Wait([], r1)
    case Diff(v, r1) =>
      var dc1 := if s.dcNeeded then dc[s.comp := v + dc[s.comp]] else dc;
      var ws := if s.dcNeeded then [Write(blk, 0, Coef(v + dc[s.comp]))] else [];
      match AcFrom(s.acTable, s.acDerived, input, r1, blk, s.acNeeded, 1)
      case Stop(ws2, r2) => Wait(ws + ws2, r2)
      case Done(ws2, r2) => Complete(ws + ws2, r2, dc1)
  }

  function BlocksFrom(slots: seq<Slot>, input: seq<Byte>, r: Reader, dc: seq<int>, blk: int): (o: McuOut)
    requires SlotsOk(slots, |dc|) && r.Ok(input) && 0 <= blk <= |slots|
    ensures o.r.Ok(input) && (o.Complete? ==> |o.dc| == |dc|)
    decreases |slots| - blk
  {
    if blk == |slots| then Complete([], r, dc)
    else
      match Block(slots[blk], input, r, dc, blk)
      case Wait(ws, r1) => Wait(ws, r1)
      case Complete(ws, r1, dc1) => AfterMcu(ws, BlocksFrom(slots, input, r1, dc1, blk + 1))
  }

  /** decode_mcu after restart processing: a starved segment leaves the MCU alone. */
  function Mcu(slots: seq<Slot>, input: seq<Byte>, r: Reader, dc: seq<int>): (o: McuOut)
    requires SlotsOk(slots, |dc|) && r.Ok(input)
    ensures o.r.Ok(input) && (o.Complete? ==> |o.dc| == |dc|)
  {
    if r.starved then Complete([], r, dc) else BlocksFrom(slots, input, r, dc, 0)
  }

  // ----- no stray writes -----

  ghost predicate Inside(ws: seq<Write>, blocks: int) {
    forall i :: 0 <= i < |ws| ==> 0 <= ws[i].block < blocks && 0 <= ws[i].index < 64 && -32768 <= ws[i].value < 32768
  }

  lemma InsideCons(w: Write, ws: seq<Write>, blocks: int)
    requires Inside(ws, blocks) && 0 <= w.block < blocks && 0 <= w.index < 64 && -32768 <= w.value < 32768
    ensures Inside([w] + ws, blocks) && [] + ws == ws
  {
  }

  lemma InsideNone(blocks: int)
    ensures Inside([], blocks)
  {
  }

  lemma {:induction false} AcInside(t: Table, d: Derived, input: seq<Byte>, r: Reader, blk: int, needed: bool, k: int,
      blocks: int)
    requires InUse(t, d) && r.Ok(input) && 1 <= k && 0 <= blk < blocks
    ensures Inside(AcFrom(t, d, input, r, blk, needed, k).writes, blocks)
    decreases 80 - k
  {
    hide InUse, Fetch, Get, Natural, Coef, Extend, Inside;
    InsideNone(blocks);
    if k < 64 {
      match Fetch(t, d, input, r)
      case NoSymbol =>
      case Decoded(s, r1) =>
        var run, size := s / 16, s % 16;
        if size != 0 {
          match Get(input, r1, size)
          case Stuck =>
          case Got(v, r2) =>
            AcInside(t, d, input, r2, blk, needed, k + run + 1, blocks);
            var w := Write(blk, Natural(k + run), Coef(Extend(v, size)));
            InsideCons(w, AcFrom(t, d, input, r2, blk, needed, k + run + 1).writes, blocks);
        } else if run == 15 {
          AcInside(t, d, input, r1, blk, needed, k + 16, blocks);
        }
    }
  }

  lemma {:induction false} BlocksInside(slots: seq<Slot>, input: seq<Byte>, r: Reader, dc: seq<int>, blk: int)
    requires SlotsOk(slots, |dc|) && r.Ok(input) && 0 <= blk <= |slots|
    ensures Inside(BlocksFrom(slots, input, r, dc, blk).writes, |slots|)
    decreases |slots| - blk
  {
    hide InUse, DcDiff, AcFrom;
    if blk < |slots| {
      var s := slots[blk];
      assert SlotOk(s, |dc|);
      match DcDiff(s.dcTable, s.dcDerived, input, r)
      case NoDiff(r1) =>
      case Diff(v, r1) => AcInside(s.acTable, s.acDerived, input, r1, blk, s.acNeeded, 1, |slots|);
      match Block(s, input, r, dc, blk)
      case Wait(_, _) =>
      case Complete(_, r1, dc1) => BlocksInside(slots, input, r1, dc1, blk + 1);
    }
  }

  /** Whatever the data, every assignment stays inside a 64-entry block of the MCU. */
  lemma McuInside(slots: seq<Slot>, input: seq<Byte>, r: Reader, dc: seq<int>)
    requires SlotsOk(slots, |dc|) && r.Ok(input)
    ensures Inside(Mcu(slots, input, r, dc).writes, |slots|)
  {
    BlocksInside(slots, input, r, dc, 0);
  }
}
