/**
 What decode_mcu means: the coefficients are a function of the bits of the segment alone, read one code
 after the other as sections F.2.2.1 and F.2.2.2 of ITU-T T.81 say.  Buffer, lookahead table and marker
 handling do not show.
 */
module McuMeaning {
  import opened Bits
  import opened Huffman
  import opened HuffTables
  import opened BitReader
  import opened HuffDecode
  import opened ZigzagOrder
  import opened McuDecode
  import opened McuChunks

  /** `m` bits from position `n` of the endless stream. */
  function Span(s: seq<bool>, n: nat, m: nat): (w: seq<bool>)
    ensures |w| == m
  {
    seq(m, i requires 0 <= i => At(s, n + i))
  }

  function SymbolFrom(t: Table, s: seq<bool>, n: nat): (y: Symbol)
    requires t.Typed() && Legal(t.bits)
    ensures 1 <= y.length <= 17 && 0 <= y.value <= 255
  {
    Next(t, Span(s, n, 17))
  }

  /** Assignments made and bits taken. */
  datatype Ref = Ref(writes: seq<Write>, n: nat)

  function AcRef(t: Table, s: seq<bool>, n: nat, blk: int, needed: bool, k: int): (o: Ref)
    requires t.Typed() && Legal(t.bits) && 1 <= k
    ensures o.n >= n
    decreases 80 - k
  {
    if k >= 64 then Ref([], n)
    else
      var sym := SymbolFrom(t, s, n);
      var n1, run, size := n + sym.length, sym.value / 16, sym.value % 16;
      if size != 0 then
        var v := Extend(Val(Span(s, n1, size)), size);
        var rest := AcRef(t, s, n1 + size, blk, needed, k + run + 1);
        Ref((if needed then [Write(blk, Natural(k + run), Coef(v))] else []) + rest.writes, rest.n)
      else if run != 15 then Ref([], n1)
      else AcRef(t, s, n1, blk, needed, k + 16)
  }

  datatype DcOut = DcOut(value: int, n: nat)

  function DcRef(t: Table, s: seq<bool>, n: nat): (o: DcOut)
    requires t.Typed() && Legal(t.bits)
    ensures o.n >= n
  {
    var sym := SymbolFrom(t, s, n);
    var n1 := n + sym.length;
    if sym.value == 0 then DcOut(0, n1)
    else DcOut(Extend(Val(Span(s, n1, sym.value)), sym.value), n1 + sym.value)
  }

  datatype McuRefOut = McuRefOut(writes: seq<Write>, n: nat, dc: seq<int>)

  function McuRef(slots: seq<Slot>, s: seq<bool>, n: nat, dc: seq<int>, blk: int): (o: McuRefOut)
    requires 0 <= blk <= |slots|
    requires forall i :: 0 <= i < |slots| ==> Usable(slots[i], |dc|)
    ensures o.n >= n
    decreases |slots| - blk
  {
    if blk == |slots| then McuRefOut([], n, dc)
    else
      var slot := slots[blk];
      assert Usable(slot, |dc|);
      var d := DcRef(slot.dcTable, s, n);
      var v := d.value + dc[slot.comp];
      var a := AcRef(slot.acTable, s, d.n, blk, slot.acNeeded, 1);
      var dc1 := if slot.dcNeeded then dc[slot.comp := v] else dc;
      var rest := McuRef(slots, s, a.n, dc1, blk + 1);
      McuRefOut((if slot.dcNeeded then [Write(blk, 0, Coef(v))] else []) + a.writes + rest.writes, rest.n, rest.dc)
  }

  predicate Usable(s: Slot, comps: int) {
    s.dcTable.Typed() && Legal(s.dcTable.bits) && s.acTable.Typed() && Legal(s.acTable.bits) && 0 <= s.comp < comps
  }

  lemma SpanWindow(s: seq<bool>, n: nat, a: seq<bool>, m: nat)
    requires Past(s, n, a)
    ensures Window(a, m) == Span(s, n, m)
  {
    forall i | 0 <= i < m ensures Window(a, m)[i] == Span(s, n, m)[i] {
      assert At(a, i) == At(s, n + i);
    }
  }

  /** The reader is at bit `n` of the stream; insufficient_data says whether that is past its end. */
  ghost predicate On(s: seq<bool>, n: nat, input: seq<Byte>, r: Reader) {
    && r.Ok(input) && Past(s, n, Ahead(input, r))
    && (r.starved <==> |s| < n) && (!r.starved ==> |Ahead(input, r)| == |s| - n)
  }

  lemma OnNext(s: seq<bool>, n: nat, input: seq<Byte>, r: Reader, m: nat, r': Reader)
    requires On(s, n, input, r) && r'.Ok(input) && Past(Ahead(input, r), m, Ahead(input, r')) && Spent(input, r, m, r')
    ensures On(s, n + m, input, r')
  {
    hide Ahead;
    PastTrans(s, n, Ahead(input, r), m, Ahead(input, r'));
  }

  /** A symbol fetched is the one at the reader's position in the stream. */
  lemma FetchMeans(t: Table, d: Derived, input: seq<Byte>, r: Reader, s: seq<bool>, n: nat)
    requires InUse(t, d) && On(s, n, input, r)
    ensures var y := SymbolFrom(t, s, n);
            match Fetch(t, d, input, r)
            case NoSymbol => |s| < n + y.length + 25
            case Decoded(v, r1) => v == y.value && On(s, n + y.length, input, r1)
  {
    hide Fetch, Next, Past, Ahead, DerivedOk, Legal, AtEnd;
    DecodeAgrees(t, d, input, r);
    SpanWindow(s, n, Ahead(input, r), 17);
    match Fetch(t, d, input, r)
    case NoSymbol => NotStarved(input, r);
    case Decoded(v, r1) => OnNext(s, n, input, r, SymbolFrom(t, s, n).length, r1);
  }

  lemma GetMeans(input: seq<Byte>, r: Reader, m: int, s: seq<bool>, n: nat)
    requires On(s, n, input, r) && 0 <= m <= MIN_GET_BITS
    ensures match Get(input, r, m)
            case Stuck => |s| < n + 25
            case Got(v, r1) => v == Val(Span(s, n, m)) && On(s, n + m, input, r1)
  {
    hide Get, Past, Ahead, Val, AtEnd;
    GetKeeps(input, r, m);
    GetSpent(input, r, m);
    SpanWindow(s, n, Ahead(input, r), m);
    match Get(input, r, m)
    case Stuck =>
    case Got(v, r1) => OnNext(s, n, input, r, m, r1);
  }

  lemma {:induction false} AcMeans(t: Table, d: Derived, input: seq<Byte>, r: Reader, s: seq<bool>, n: nat, blk: int,
                                   needed: bool, k: int)
    requires InUse(t, d) && On(s, n, input, r) && 1 <= k
    ensures var o := AcRef(t, s, n, blk, needed, k);
            match AcFrom(t, d, input, r, blk, needed, k)
            case Stop(_, _) => |s| < o.n + 25
            case Done(ws, r') => ws == o.writes && On(s, o.n, input, r')
    decreases 80 - k
  {
    hide InUse, Fetch, Get, Natural, Coef, Extend, On, Span, Val, AcFrom, AcRef;
    TableFacts(t, d);
    OnOk(s, n, input, r);
    if k >= 64 {
      AcOver(t, d, input, r, blk, needed, k);
      AcRefOver(t, s, n, blk, needed, k);
    } else {
      AcStep(t, d, input, r, blk, needed, k);
      AcRefStep(t, s, n, blk, needed, k);
      FetchMeans(t, d, input, r, s, n);
      match Fetch(t, d, input, r)
      case NoSymbol =>
      case Decoded(v, r1) =>
        var n1, run, size := n + SymbolFrom(t, s, n).length, v / 16, v % 16;
        if size != 0 {
          GetMeans(input, r1, size, s, n1);
          match Get(input, r1, size)
          case Stuck =>
          case Got(x, r2) => AcMeans(t, d, input, r2, s, n1 + size, blk, needed, k + run + 1);
        } else if run == 15 {
          AcMeans(t, d, input, r1, s, n1, blk, needed, k + 16);
        }
    }
  }

  lemma AcRefOver(t: Table, s: seq<bool>, n: nat, blk: int, needed: bool, k: int)
    requires t.Typed() && Legal(t.bits) && k >= 64
    ensures AcRef(t, s, n, blk, needed, k) == Ref([], n)
  {
  }

  lemma AcRefStep(t: Table, s: seq<bool>, n: nat, blk: int, needed: bool, k: int)
    requires t.Typed() && Legal(t.bits) && 1 <= k < 64
    ensures var o, sym := AcRef(t, s, n, blk, needed, k), SymbolFrom(t, s, n);
            var n1, run, size := n + sym.length, sym.value / 16, sym.value % 16;
            && o.n >= n1 + size && 0 <= run <= 15 && 0 <= size <= 15
            && if size != 0 then
                 var v := Extend(Val(Span(s, n1, size)), size);
                 var rest := AcRef(t, s, n1 + size, blk, needed, k + run + 1);
                 o == Ref((if needed then [Write(blk, Natural(k + run), Coef(v))] else []) + rest.writes, rest.n)
               else if run != 15 then o == Ref([], n1)
               else o == AcRef(t, s, n1, blk, needed, k + 16)
  {
    hide Natural, Coef, Extend, Span, Val, Next, Legal;
  }

  lemma DcMeans(t: Table, d: Derived, input: seq<Byte>, r: Reader, s: seq<bool>, n: nat)
    requires InUse(t, d) && DcSymbols(t) && On(s, n, input, r)
    ensures match DcDiff(t, d, input, r)
            case NoDiff(_) => |s| < DcRef(t, s, n).n + 25
            case Diff(v, r1) => v == DcRef(t, s, n).value && On(s, DcRef(t, s, n).n, input, r1)
  {
    hide DerivedOk, Legal, Fetch, Get, Extend, On, SymbolFrom, Span, Val;
    OnOk(s, n, input, r);
    FetchMeans(t, d, input, r, s, n);
    DecodeSmall(t, d, input, r);
    match Fetch(t, d, input, r)
    case NoSymbol =>
    case Decoded(v, r1) => if v != 0 { GetMeans(input, r1, v, s, n + SymbolFrom(t, s, n).length); }
  }

  lemma {:induction false} BlocksMean(slots: seq<Slot>, input: seq<Byte>, r: Reader, dc: seq<int>, blk: int,
                                      s: seq<bool>, n: nat)
    requires SlotsOk(slots, |dc|) && 0 <= blk <= |slots| && On(s, n, input, r)
    ensures forall i :: 0 <= i < |slots| ==> Usable(slots[i], |dc|)
    ensures var o := McuRef(slots, s, n, dc, blk);
            match BlocksFrom(slots, input, r, dc, blk)
            case Wait(_, _) => |s| < o.n + 25
            case Complete(ws, r', dc') => ws == o.writes && dc' == o.dc && On(s, o.n, input, r')
    decreases |slots| - blk
  {
    hide DcDiff, AcFrom, Coef, On, DcRef, AcRef, DerivedOk, Legal;
    forall i | 0 <= i < |slots| ensures Usable(slots[i], |dc|) { assert SlotOk(slots[i], |dc|); }
    OnOk(s, n, input, r);
    if blk < |slots| {
      var slot := slots[blk];
      assert SlotOk(slot, |dc|);
      DcMeans(slot.dcTable, slot.dcDerived, input, r, s, n);
      match DcDiff(slot.dcTable, slot.dcDerived, input, r)
      case NoDiff(_) =>
      case Diff(v, r1) =>
        var d := DcRef(slot.dcTable, s, n);
        AcMeans(slot.acTable, slot.acDerived, input, r1, s, d.n, blk, slot.acNeeded, 1);
        match Block(slot, input, r, dc, blk)
        case Wait(_, _) =>
        case Complete(ws, r2, dc1) =>
          BlocksMean(slots, input, r2, dc1, blk + 1, s, AcRef(slot.acTable, s, d.n, blk, slot.acNeeded, 1).n);
    }
  }

  lemma OnOk(s: seq<bool>, n: nat, input: seq<Byte>, r: Reader)
    requires On(s, n, input, r)
    ensures r.Ok(input)
  {
  }

  /**
   A finished MCU is what the bits ahead say.  The reader ends up behind the bits used, with insufficient_data
   set exactly when there were fewer; after that every MCU is left alone.  Decoding only waits for data when
   no marker is ahead and fewer than 25 bits would be left behind the MCU.
   */
  lemma McuMeans(slots: seq<Slot>, input: seq<Byte>, r: Reader, dc: seq<int>)
    requires SlotsOk(slots, |dc|) && r.Ok(input)
    ensures forall i :: 0 <= i < |slots| ==> Usable(slots[i], |dc|)
    ensures r.starved ==> Mcu(slots, input, r, dc) == Complete([], r, dc)
    ensures !r.starved ==>
              var s := Ahead(input, r);
              var o := McuRef(slots, s, 0, dc, 0);
              match Mcu(slots, input, r, dc)
              case Wait(_, _) => !AtEnd(input, r) && |s| < o.n + 25
              case Complete(ws, r', dc') =>
                && ws == o.writes && dc' == o.dc && Past(s, o.n, Ahead(input, r')) && (r'.starved <==> |s| < o.n)
  {
    forall i | 0 <= i < |slots| ensures Usable(slots[i], |dc|) { assert SlotOk(slots[i], |dc|); }
    hide SlotsOk, BlocksFrom, McuRef, Ahead, AtEnd;
    if !r.starved {
      assert On(Ahead(input, r), 0, input, r);
      BlocksMean(slots, input, r, dc, 0, Ahead(input, r), 0);
      if Mcu(slots, input, r, dc).Wait? { BlocksStop(slots, input, r, dc, 0); }
    }
  }
}
