/**
 Fetching one Huffman-coded symbol: the HUFF_DECODE macro of components/gui/GUI/JPEG/jdhuff.h and the
 out-of-line jpeg_huff_decode of jdhuff.c.
 */
module HuffDecode {
  import opened Bits
  import opened Huffman
  import opened HuffTables
  import opened BitReader

  datatype Decoded = NoSymbol | Decoded(value: int, r: Reader)

  /** A table in use: accepted, with its derived tables. */
  ghost predicate InUse(t: Table, d: Derived) {
    t.Typed() && Legal(t.bits) && DerivedOk(t, d)
  }

  lemma TableFacts(t: Table, d: Derived)
    requires InUse(t, d)
    ensures t.Typed() && Legal(t.bits)
  {
  }

  /** The loop of jpeg_huff_decode, with `l` bits in `code`. */
  function Slow(t: Table, d: Derived, input: seq<Byte>, r: Reader, code: int, l: int): (s: Decoded)
    requires InUse(t, d) && r.Ok(input) && 1 <= l <= 17 && First(t.bits, l) <= code < Pow2(l)
    ensures s.Decoded? ==> s.r.Ok(input) && 0 <= s.value <= 255
    decreases 17 - l
  {
    SlowFacts(t, d, code, l);
    if code > d.maxcode[l] then
      match Get(input, r, 1)
      case Stuck => NoSymbol
      case Got(b, r') => Slow(t, d, input, r', 2 * code + b, l + 1)
    else Decoded(SymbolAt(t, d, code, l), r)
  }

  /** The symbol of a code of length `l`; 0 when the bits are no code at all. */
  function SymbolAt(t: Table, d: Derived, code: int, l: int): (v: int)
    requires InUse(t, d) && 1 <= l <= 17 && First(t.bits, l) <= code < Pow2(l) && |d.maxcode| == 18
    requires code <= d.maxcode[l]
    ensures 0 <= v <= 255
  {
    SlowFacts(t, d, code, l);
    if l > 16 then 0 else t.huffval[code + d.valoffset[l]]
  }

  /** At 17 bits the loop stops; before that it either goes on past the codes of length `l` or indexes a symbol. */
  lemma SlowFacts(t: Table, d: Derived, code: int, l: int)
    requires InUse(t, d) && 1 <= l <= 17 && First(t.bits, l) <= code < Pow2(l)
    ensures |d.maxcode| == 18 && |d.valoffset| == 17
    ensures code > d.maxcode[l] ==> l <= 16 && 2 * code >= First(t.bits, l + 1) && Pow2(l + 1) == 2 * Pow2(l)
                                    && Pow2(1) == 2
    ensures code <= d.maxcode[l] && l <= 16 ==>
              code + d.valoffset[l] == code + Index(t.bits, l) - First(t.bits, l)
                  && 0 <= code + d.valoffset[l] < Index(t.bits, 17) <= 256
    ensures l <= 16 ==> d.maxcode[l] == MaxCode(t.bits, l)
  {
    hide LookOk, Index, First, Pow2;
    SeventeenBits();
    if l <= 16 {
      FirstStep(t.bits, l);
      IndexGrows(t.bits, l + 1, 17);
      Pow2Step(l);
      Pow2Step(0);
      LegalIndex(t.bits);
    }
  }

  lemma SeventeenBits()
    ensures Pow2(17) <= SENTINEL
  {
    Pow2Add(10, 7);
    assert Pow2(10) == 1024 && Pow2(7) == 128;
  }

  ghost function Upcoming(input: seq<Byte>, r: Reader): (w: seq<bool>)
    requires r.Ok(input)
    ensures |w| == 17
  {
    Window(Ahead(input, r), 17)
  }

  /** jpeg_huff_decode: the code is known to have at least `min` bits. */
  function FromBits(t: Table, d: Derived, input: seq<Byte>, r: Reader, min: int): (s: Decoded)
    requires InUse(t, d) && r.Ok(input) && 1 <= min <= 17 && Val(Upcoming(input, r)[..min]) >= First(t.bits, min)
    ensures s.Decoded? ==> s.r.Ok(input) && 0 <= s.value <= 255
  {
    GetFront(input, r, min);
    match Get(input, r, min)
    case Stuck => NoSymbol
    case Got(code, r') => Slow(t, d, input, r', code, min)
  }

  lemma GetFront(input: seq<Byte>, r: Reader, n: int)
    requires r.Ok(input) && 0 <= n <= 17
    ensures Get(input, r, n).Got? ==> Get(input, r, n).value == Val(Upcoming(input, r)[..n])
  {
    hide Ahead, Get;
    GetKeeps(input, r, n);
    WindowFront(Ahead(input, r), n, 17);
  }

  lemma WindowFront(s: seq<bool>, n: nat, m: nat)
    requires n <= m
    ensures Window(s, m)[..n] == Window(s, n)
  {
  }

  /** The lookahead part of HUFF_DECODE. */
  function Look(t: Table, d: Derived, input: seq<Byte>, r: Reader): (s: Decoded)
    requires InUse(t, d) && r.Ok(input) && r.left >= 8
    ensures s.Decoded? ==> s.r.Ok(input) && 0 <= s.value <= 255
  {
    LookFacts(t, d, input, r);
    var look := Peek(r, 8);
    var nb := d.lookNbits[look];
    if nb != 0 then Decoded(d.lookSym[look], Drop(r, nb))
    else FromBits(t, d, input, r, 9)
  }

  lemma LookFacts(t: Table, d: Derived, input: seq<Byte>, r: Reader)
    requires InUse(t, d) && r.Ok(input) && r.left >= 8
    ensures |d.lookNbits| == 256 && |d.lookSym| == 256 && 0 <= Peek(r, 8) < 256
    ensures var w, look := Upcoming(input, r), Peek(r, 8);
            && look == Val(w[..8])
            && if d.lookNbits[look] != 0
               then Next(t, w) == Symbol(d.lookSym[look], d.lookNbits[look]) && d.lookNbits[look] <= 8
               else Val(w[..9]) >= First(t.bits, 9) && Next(t, w) == Serial(t, w, 9)
  {
    hide Ahead, LimitsOk, Legal, Serial, Next;
    var w := Upcoming(input, r);
    PeekDrop(input, r, 8);
    WindowFront(Ahead(input, r), 8, 17);
    LookAgrees(t, d.lookNbits, d.lookSym, w);
    LookShort(t, d.lookNbits, d.lookSym, Val(w[..8]));
  }

  lemma LookShort(t: Table, nbits: seq<int>, sym: seq<int>, v: int)
    requires t.Typed() && LookOk(t, nbits, sym) && 0 <= v < 256
    ensures nbits[v] <= 8
  {
    if nbits[v] != 0 {
      var p :| 0 <= p < Index(t.bits, 17) && Leads(t.bits, p, v);
    }
  }

  /** HUFF_DECODE */
  function Fetch(t: Table, d: Derived, input: seq<Byte>, r: Reader): (s: Decoded)
    requires InUse(t, d) && r.Ok(input)
    ensures s.Decoded? ==> s.r.Ok(input) && 0 <= s.value <= 255
  {
    if r.left >= 8 then Look(t, d, input, r)
    else
      match Fill(input, r, 0)
      case Suspended => NoSymbol
      case Ready(r1) => if r1.left >= 8 then Look(t, d, input, r1) else FromBits(t, d, input, r1, 1)
  }

  // ----- agreement with the bit-serial decoder -----

  /** A symbol taken from the front of `r0`'s stream, leaving `s.r`. */
  ghost predicate Takes(t: Table, input: seq<Byte>, r0: Reader, sym: Symbol, s: Decoded)
    requires r0.Ok(input) && (s.Decoded? ==> s.r.Ok(input)) && 0 <= sym.length
  {
    match s
    case NoSymbol => !AtEnd(input, r0) && |Ahead(input, r0)| < sym.length + 25
    case Decoded(v, r) => v == sym.value && Past(Ahead(input, r0), sym.length, Ahead(input, r))
                          && (AtEnd(input, r0) <==> AtEnd(input, r)) && Spent(input, r0, sym.length, r)
  }

  lemma {:induction false} SlowAgrees(t: Table, d: Derived, input: seq<Byte>, r0: Reader, r: Reader, code: int, l: int)
    requires InUse(t, d) && r0.Ok(input) && r.Ok(input) && 1 <= l <= 17 && First(t.bits, l) <= code < Pow2(l)
    requires code == Val(Upcoming(input, r0)[..l]) && Past(Ahead(input, r0), l, Ahead(input, r))
    requires (AtEnd(input, r0) <==> AtEnd(input, r)) && Spent(input, r0, l, r)
    ensures Takes(t, input, r0, Serial(t, Upcoming(input, r0), l), Slow(t, d, input, r, code, l))
    decreases 17 - l
  {
    hide Ahead, Get, AtEnd, Past, InUse, First, Pow2, Val, Index;
    SlowFacts(t, d, code, l);
    var w := Upcoming(input, r0);
    if code > d.maxcode[l] {
      GetKeeps(input, r, 1);
      GetSpent(input, r, 1);
      match Get(input, r, 1)
      case Stuck =>
      case Got(b, r') =>
        OneBit(Ahead(input, r0), l, Ahead(input, r));
        TakeOneMore(w, l);
        PastTrans(Ahead(input, r0), l, Ahead(input, r), 1, Ahead(input, r'));
        SpentTrans(input, r0, l, r, 1, r');
        SlowAgrees(t, d, input, r0, r', 2 * code + b, l + 1);
    }
  }

  lemma OneBit(a: seq<bool>, l: int, b: seq<bool>)
    requires 0 <= l < 17 && Past(a, l, b)
    ensures Val(Window(b, 1)) == Bit(Window(a, 17)[l])
  {
    assert At(b, 0) == At(a, l + 0);
    var w := Window(b, 1);
    assert w[..0] == [];
    assert Val(w) == 2 * Val(w[..0]) + Bit(w[0]);
  }

  lemma FromBitsAgrees(t: Table, d: Derived, input: seq<Byte>, r: Reader, min: int)
    requires InUse(t, d) && r.Ok(input) && 1 <= min <= 17 && Val(Upcoming(input, r)[..min]) >= First(t.bits, min)
    ensures Takes(t, input, r, Serial(t, Upcoming(input, r), min), FromBits(t, d, input, r, min))
  {
    hide Ahead, Get, AtEnd, Past, InUse, First, Pow2, Val, Index, Serial, Slow;
    GetKeeps(input, r, min);
    GetSpent(input, r, min);
    GetFront(input, r, min);
    match Get(input, r, min)
    case Stuck =>
    case Got(code, r') => SlowAgrees(t, d, input, r, r', code, min);
  }

  lemma LookTakes(t: Table, d: Derived, input: seq<Byte>, r: Reader)
    requires InUse(t, d) && r.Ok(input) && r.left >= 8
    ensures Takes(t, input, r, Next(t, Upcoming(input, r)), Look(t, d, input, r))
  {
    hide Ahead, AtEnd, Past, InUse, First, Index, Serial, Next, FromBits, Val;
    LookFacts(t, d, input, r);
    var nb := d.lookNbits[Peek(r, 8)];
    if nb != 0 {
      PeekDrop(input, r, nb);
      DropSpent(input, r, nb);
    } else {
      FromBitsAgrees(t, d, input, r, 9);
    }
  }

  /** HUFF_DECODE returns the bit-serial symbol and takes exactly its bits, for any fill of the buffer. */
  lemma DecodeAgrees(t: Table, d: Derived, input: seq<Byte>, r: Reader)
    requires InUse(t, d) && r.Ok(input)
    ensures Takes(t, input, r, Next(t, Upcoming(input, r)), Fetch(t, d, input, r))
  {
    hide Ahead, AtEnd, DerivedOk, Legal, First, Index, Serial, FromBits, Val, Fill, Look;
    if r.left >= 8 {
      LookTakes(t, d, input, r);
    } else {
      FillKeeps(input, r, 0);
      FillExact(input, r, 0);
      match Fill(input, r, 0)
      case Suspended =>
      case Ready(r1) =>
        WindowPast(Ahead(input, r), Ahead(input, r1), 17);
        FirstOne(t, d, Upcoming(input, r1));
        if r1.left >= 8 { LookTakes(t, d, input, r1); } else { FromBitsAgrees(t, d, input, r1, 1); }
        TakesFrom(t, input, r, r1, Next(t, Upcoming(input, r)), Fetch(t, d, input, r));
    }
  }

  lemma FirstOne(t: Table, d: Derived, w: seq<bool>)
    requires InUse(t, d) && |w| == 17
    ensures Val(w[..1]) >= First(t.bits, 1) && Serial(t, w, 1) == Next(t, w)
  {
  }

  lemma TakesFrom(t: Table, input: seq<Byte>, r: Reader, r1: Reader, sym: Symbol, s: Decoded)
    requires r.Ok(input) && r1.Ok(input) && Past(Ahead(input, r), 0, Ahead(input, r1))
    requires (AtEnd(input, r) <==> AtEnd(input, r1)) && FillEffect(input, r, 0, r1)
    requires 0 <= sym.length && (s.Decoded? ==> s.r.Ok(input)) && Takes(t, input, r1, sym, s)
    ensures Takes(t, input, r, sym, s)
  {
    hide Ahead, AtEnd, MarkerFrom;
    if s.Decoded? {
      PastTrans(Ahead(input, r), 0, Ahead(input, r1), sym.length, Ahead(input, s.r));
    } else {
      NotStarved(input, r1);
    }
  }

  /** Symbol `v` has a code. */
  ghost predicate HasCode(t: Table, v: int)
    requires t.Typed() && Legal(t.bits)
  {
    exists p :: IsSymbol(t, v, p)
  }

  predicate IsSymbol(t: Table, v: int, p: int)
    requires t.Typed() && Legal(t.bits)
  {
    0 <= p < Index(t.bits, 17) && p < 256 && t.huffval[p] == v
  }

  /** A code of the symbol. */
  ghost function CodeOf(t: Table, v: int): (w: seq<bool>)
    requires t.Typed() && Legal(t.bits) && HasCode(t, v)
    ensures 1 <= |w| <= 16
  {
    var p :| IsSymbol(t, v, p);
    CodeBits(t.bits, p)
  }

  lemma NextOf(t: Table, v: int, w: seq<bool>)
    requires t.Typed() && Legal(t.bits) && HasCode(t, v) && |w| == 17 && CodeOf(t, v) <= w
    ensures Next(t, w) == Symbol(v, |CodeOf(t, v)|)
  {
    hide Legal, CodeBits, Next;
    var p :| IsSymbol(t, v, p) && CodeOf(t, v) == CodeBits(t.bits, p);
    NextInverts(t, w, p);
  }

  /** A code that is next is decoded to its symbol, unless the reader stops for more data. */
  lemma FetchFeeds(t: Table, d: Derived, input: seq<Byte>, r: Reader, v: int, rest: seq<bool>)
    requires InUse(t, d) && HasCode(t, v) && Feeds(input, r, CodeOf(t, v) + rest)
    ensures Fetch(t, d, input, r).NoSymbol? ==> Stalls(input, r, |CodeOf(t, v)|)
    ensures Fetch(t, d, input, r).Decoded? ==>
              Fetch(t, d, input, r).value == v && Moved(input, r, CodeOf(t, v), rest, Fetch(t, d, input, r).r)
  {
    hide Fetch, Ahead, AtEnd, Next, CodeOf, HasCode, DerivedOk, Legal;
    var w := CodeOf(t, v);
    DecodeAgrees(t, d, input, r);
    WindowCode(Ahead(input, r), w, rest);
    NextOf(t, v, Upcoming(input, r));
    match Fetch(t, d, input, r)
    case NoSymbol =>
    case Decoded(x, r') => FeedsOn(input, r, w, rest, r');
  }

  lemma WindowCode(a: seq<bool>, w: seq<bool>, rest: seq<bool>)
    requires w + rest <= a && |w| <= 17
    ensures w <= Window(a, 17)
  {
    WindowIs(a, w, rest);
    WindowFront(a, |w|, 17);
  }

  // ----- more input changes nothing that was decoded -----

  lemma {:induction false} SlowMore(t: Table, d: Derived, input: seq<Byte>, more: seq<Byte>, r: Reader, code: int,
      l: int)
    requires InUse(t, d) && r.Ok(input) && 1 <= l <= 17 && First(t.bits, l) <= code < Pow2(l)
    ensures Slow(t, d, input, r, code, l).Decoded? ==>
            Slow(t, d, input + more, r, code, l) == Slow(t, d, input, r, code, l)
    decreases 17 - l
  {
    hide Get, InUse, First, Pow2, Index, Slow, Counts;
    SlowFacts(t, d, code, l);
    SlowUnfold(t, d, input, r, code, l);
    SlowUnfold(t, d, input + more, r, code, l);
    if code > d.maxcode[l] {
      GetMore(input, more, r, 1);
      match Get(input, r, 1)
      case Stuck =>
      case Got(b, r') => SlowMore(t, d, input, more, r', 2 * code + b, l + 1);
    }
  }

  lemma SlowUnfold(t: Table, d: Derived, input: seq<Byte>, r: Reader, code: int, l: int)
    requires InUse(t, d) && r.Ok(input) && 1 <= l <= 17 && First(t.bits, l) <= code < Pow2(l)
    ensures |d.maxcode| == 18 && (code > d.maxcode[l] ==> l <= 16)
    ensures code <= d.maxcode[l] ==> Slow(t, d, input, r, code, l) == Decoded(SymbolAt(t, d, code, l), r)
    ensures code > d.maxcode[l] ==>
              match Get(input, r, 1)
              case Stuck => Slow(t, d, input, r, code, l) == NoSymbol
              case Got(b, r') => First(t.bits, l + 1) <= 2 * code + b < Pow2(l + 1)
                                 && Slow(t, d, input, r, code, l) == Slow(t, d, input, r', 2 * code + b, l + 1)
  {
    hide Get, DerivedOk, Legal, First, Pow2, Index;
    SlowFacts(t, d, code, l);
  }

  lemma FromBitsMore(t: Table, d: Derived, input: seq<Byte>, more: seq<Byte>, r: Reader, min: int)
    requires InUse(t, d) && r.Ok(input) && 1 <= min <= 17
    requires Val(Upcoming(input, r)[..min]) >= First(t.bits, min)
    requires Val(Upcoming(input + more, r)[..min]) >= First(t.bits, min)
    ensures FromBits(t, d, input, r, min).Decoded? ==>
            FromBits(t, d, input + more, r, min) == FromBits(t, d, input, r, min)
  {
    hide Get, InUse, First, Pow2, Slow, Upcoming, Val;
    GetMore(input, more, r, min);
    GetFront(input, r, min);
    match Get(input, r, min)
    case Stuck =>
    case Got(code, r') => SlowMore(t, d, input, more, r', code, min);
  }

  lemma LookMore(t: Table, d: Derived, input: seq<Byte>, more: seq<Byte>, r: Reader)
    requires InUse(t, d) && r.Ok(input) && r.left >= 8
    ensures Look(t, d, input, r).Decoded? ==> Look(t, d, input + more, r) == Look(t, d, input, r)
  {
    hide InUse, First, FromBits, Upcoming, Val, Next, Serial;
    LookFacts(t, d, input, r);
    LookFacts(t, d, input + more, r);
    if d.lookNbits[Peek(r, 8)] == 0 { FromBitsMore(t, d, input, more, r, 9); }
  }

  lemma DecodeMore(t: Table, d: Derived, input: seq<Byte>, more: seq<Byte>, r: Reader)
    requires InUse(t, d) && r.Ok(input)
    ensures Fetch(t, d, input, r).Decoded? ==> Fetch(t, d, input + more, r) == Fetch(t, d, input, r)
  {
    hide DerivedOk, Legal, First, FromBits, Val, Look, Fill, Upcoming;
    if r.left >= 8 {
      LookMore(t, d, input, more, r);
    } else {
      FillMore(input, more, r, 0);
      match Fill(input, r, 0)
      case Suspended =>
      case Ready(r1) =>
        if r1.left >= 8 {
          LookMore(t, d, input, more, r1);
        } else {
          FirstOne(t, d, Upcoming(input, r1));
          FirstOne(t, d, Upcoming(input + more, r1));
          FromBitsMore(t, d, input, more, r1, 1);
        }
    }
  }

  // ----- the loop and the macro -----

  method GetBits(input: seq<Byte>, r: Reader, n: int) returns (g: Got)
    requires r.Ok(input) && 0 <= n <= MIN_GET_BITS
    ensures g == Get(input, r, n)
  {
    var r1 := r;
    if r.left < n {
      var f := FillBitBuffer(input, r, n);
      if f.Suspended? {
        return Stuck;
      }
      r1 := f.r;
    }
    FillKeeps(input, r, n);
    g := Got(Peek(r1, n), Drop(r1, n));
  }

  method JpegHuffDecode(t: Table, d: Derived, input: seq<Byte>, r: Reader, min: int) returns (s: Decoded)
    requires InUse(t, d) && r.Ok(input) && 1 <= min <= 17 && Val(Upcoming(input, r)[..min]) >= First(t.bits, min)
    ensures s == FromBits(t, d, input, r, min)
  {
    hide Get, DerivedOk, Legal, First, Pow2, Upcoming, Val, Index;
    GetFront(input, r, min);
    var l := min;
    var g := GetBits(input, r, l);
    if g.Stuck? {
      return NoSymbol;
    }
    var code, cur := g.value, g.r;
    SlowFacts(t, d, code, l);
    while code > d.maxcode[l]
      invariant cur.Ok(input) && 1 <= l <= 17 && First(t.bits, l) <= code < Pow2(l) && |d.maxcode| == 18
      invariant |d.valoffset| == 17
      invariant FromBits(t, d, input, r, min) == Slow(t, d, input, cur, code, l)
      decreases 17 - l
    {
      SlowFacts(t, d, code, l);
      g := GetBits(input, cur, 1);
      if g.Stuck? {
        return NoSymbol;
      }
      code, cur := 2 * code + g.value, g.r;
      l := l + 1;
    }
    SlowFacts(t, d, code, l);
    if l > 16 {
      return Decoded(0, cur);
    }
    return Decoded(t.huffval[code + d.valoffset[l]], cur);
  }

  method DecodeSymbol(t: Table, d: Derived, input: seq<Byte>, r: Reader) returns (s: Decoded)
    requires InUse(t, d) && r.Ok(input)
    ensures s == Fetch(t, d, input, r)
  {
    hide DerivedOk, Legal, First, FromBits, Val, Fill, Upcoming;
    var r1 := r;
    if r.left < 8 {
      var f := FillBitBuffer(input, r, 0);
      if f.Suspended? {
        return NoSymbol;
      }
      r1 := f.r;
      if r1.left < 8 {
        FirstOne(t, d, Upcoming(input, r1));
        s := JpegHuffDecode(t, d, input, r1, 1);
        return;
      }
    }
    LookFacts(t, d, input, r1);
    var look := Peek(r1, 8);
    var nb := d.lookNbits[look];
    if nb != 0 {
      s := Decoded(d.lookSym[look], Drop(r1, nb));
    } else {
      s := JpegHuffDecode(t, d, input, r1, 9);
    }
  }
}
