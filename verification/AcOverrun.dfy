/**
 What a finished call of decode_mcu_AC_refine has done to the block. A run of zeros that outlasts the band
 puts the new coefficient just past it, at jpeg_natural_order[Se + 1].
 */
module AcOverrun {
  import opened Bits
  import opened Huffman
  import opened HuffTables
  import opened BitReader
  import opened HuffDecode
  import opened ZigzagOrder
  import opened AcRefine
  import opened AcRerun
  import McuDecode

  // ----- one coefficient -----

  /** One coefficient refined: a nonzero one may get a correction bit, a zero one may become one at bit `al`. */
  predicate RefinedTo(x: int, y: int, al: nat) {
    if x != 0 then y == x || y == Correct(x, 1, al) else y == 0 || IsNew(y, al)
  }

  /** One at bit `al`, with either sign. */
  predicate IsNew(y: int, al: nat) {
    y == NewCoef(0, al) || y == NewCoef(1, al)
  }

  /** The new coefficient on its way to its place is one at bit `al`. */
  ghost predicate NewOk(c: Scan, g: Point)
    requires 0 <= c.al
  {
    g.ph.Skip? ==> g.ph.s == 0 || (IsNew(g.ph.s, c.al) && McuDecode.Coef(g.ph.s) == g.ph.s)
  }

  lemma NewFits(bit: int, al: nat)
    requires al <= 13
    ensures McuDecode.Coef(NewCoef(bit, al)) == NewCoef(bit, al) && IsNew(NewCoef(bit, al), al)
  {
    Pow2Grows(al, 13);
    assert Pow2(13) == 8192 by { Pow2Add(8, 5); assert Pow2(8) == 256 && Pow2(5) == 32; }
  }

  lemma StepNew(c: Scan, input: seq<Byte>, g: Point)
    requires ScanOk(c) && g.Ok(c, input) && NewOk(c, g) && Step(c, input, g).Move?
    ensures NewOk(c, Step(c, input, g).g)
  {
    hide Fetch, Get, InUse, Correct, Natural, NewCoef, McuDecode.Coef, IsNew;
    if g.ph.AtCode? {
      var g' := Step(c, input, g).g;
      if g'.ph.Skip? && g'.ph.s != 0 {
        var r1 := Fetch(c.t, c.d, input, g.r).r;
        NewFits(Get(input, r1, 1).value, c.al);
      }
    }
  }

  /** The effect of a step on the coefficient at `k`. */
  lemma ActsRefines(c: Scan, input: seq<Byte>, g: Point, e: Effect)
    requires ScanOk(c) && g.Ok(c, input) && g.k <= c.se && NewOk(c, g) && Step(c, input, g).Move?
    requires Acts(c, g, Step(c, input, g).g, e)
    ensures RefinedTo(g.b[Natural(g.k)], Step(c, input, g).g.b[Natural(g.k)], c.al)
  {
    hide Fetch, Get, InUse, Correct, Natural, NewCoef, McuDecode.Coef, IsNew;
    if e.Corrected? { CorrectBit(g.b[Natural(g.k)], e.bit, c.al); }
  }

  // ----- runs that outlast the band -----

  /** The zeros of the block at zigzag positions `k` to `se`. */
  function ZerosLeft(b: seq<int>, k: int, se: int): (n: nat)
    requires |b| == 64 && 0 <= k && se <= 63
    decreases se - k
  {
    if k > se then 0 else (if b[Natural(k)] == 0 then 1 else 0) + ZerosLeft(b, k + 1, se)
  }

  /** A new coefficient is to be put behind more zeros than the band has left. */
  ghost predicate Overlong(c: Scan, g: Point)
    requires |g.b| == 64 && 0 <= g.k && c.se <= 63
  {
    g.ph.Skip? && g.ph.s != 0 && g.ph.run >= ZerosLeft(g.b, g.k, c.se)
  }

  /** The coefficient of the first code whose run is overlong, 0 when the data has no such code. */
  ghost function Overrun(c: Scan, input: seq<Byte>, g: Point): int
    requires ScanOk(c) && g.Ok(c, input)
    decreases c.se + 3 - g.k, g.Rank()
  {
    match Step(c, input, g)
    case Halt(_) => 0
    case Move(g') => if g.ph.AtCode? && Overlong(c, g') then g'.ph.s else Overrun(c, input, g')
  }

  /** What is still to be put past the band: by the code being worked on, or by a later one. */
  ghost function Due(c: Scan, input: seq<Byte>, g: Point): int
    requires ScanOk(c) && g.Ok(c, input)
  {
    if Overlong(c, g) then g.ph.s else Overrun(c, input, g)
  }

  lemma ZerosLeftSame(a: seq<int>, b: seq<int>, k: int, se: int)
    requires |a| == 64 && |b| == 64 && 0 <= k && se <= 63 && forall j :: k <= j <= se ==> a[Natural(j)] == b[Natural(j)]
    ensures ZerosLeft(a, k, se) == ZerosLeft(b, k, se)
    decreases se - k
  {
    hide Natural;
    if k <= se { ZerosLeftSame(a, b, k + 1, se); }
  }

  /** Inside the band a run stays as overlong as it was. */
  lemma OverlongStep(c: Scan, input: seq<Byte>, g: Point)
    requires ScanOk(c) && g.Ok(c, input) && g.k <= c.se && g.ph.Skip? && Step(c, input, g).Move?
    ensures Overlong(c, g) <==> Overlong(c, Step(c, input, g).g)
    ensures Overlong(c, g) ==> Step(c, input, g).g.ph.s == g.ph.s
  {
    hide Fetch, Get, InUse, Natural, NewCoef, McuDecode.Coef, Correct;
    var g' := Step(c, input, g).g;
    var e := StepActs(c, input, g, g.b);
    forall j | g.k + 1 <= j <= c.se ensures g'.b[Natural(j)] == g.b[Natural(j)] {
      EffectElsewhere(c, g.b, g.k, e, j);
    }
    ZerosLeftSame(g.b, g'.b, g.k + 1, c.se);
  }

  lemma TrailStep(c: Scan, input: seq<Byte>, g: Point)
    requires ScanOk(c) && g.Ok(c, input) && g.ph.Trail? && Step(c, input, g).Move?
    ensures Step(c, input, g).g.ph.Trail?
  {
    hide Fetch, Get, InUse, Natural, Correct;
  }

  /** Inside the band a step leaves what is due. */
  lemma DueStep(c: Scan, input: seq<Byte>, g: Point)
    requires ScanOk(c) && g.Ok(c, input) && g.k <= c.se && Step(c, input, g).Move?
    ensures Due(c, input, g) == Due(c, input, Step(c, input, g).g)
  {
    hide ScanOk, Step, Overlong;
    BandFacts(c);
    NotOverlong(c, g);
    NotOverlong(c, Step(c, input, g).g);
    if g.ph.Skip? { OverlongStep(c, input, g); }
    if g.ph.Trail? { TrailStep(c, input, g); }
  }

  lemma NotOverlong(c: Scan, g: Point)
    requires |g.b| == 64 && 0 <= g.k && c.se <= 63
    ensures !g.ph.Skip? ==> !Overlong(c, g)
  {
  }

  /** Behind the band, what is due is stored there and the run ends. */
  lemma PastStep(c: Scan, input: seq<Byte>, g: Point)
    requires ScanOk(c) && g.Ok(c, input) && g.k > c.se && NewOk(c, g)
    ensures 0 <= c.se + 1 < 80 && Go(c, input, g).Finished?
    ensures Go(c, input, g).b == if Due(c, input, g) != 0 then g.b[Natural(c.se + 1) := Due(c, input, g)] else g.b
    ensures Due(c, input, g) != 0 ==> IsNew(Due(c, input, g), c.al)
  {
    hide InUse, Natural, NewCoef, McuDecode.Coef, IsNew;
    if g.ph.Skip? {
      assert Step(c, input, g) == Move(Placed(g));
      assert Step(c, input, Placed(g)).Halt?;
      assert Overrun(c, input, Placed(g)) == 0;
      assert Overrun(c, input, g) == 0;
    }
  }

  // ----- the whole run -----

  /** What the coefficient at zigzag position `j` of the band from `lo` on has become. */
  ghost predicate Became(c: Scan, lo: int, j: int, x: int, y: int)
    requires 0 <= c.al
  {
    if lo <= j <= c.se then RefinedTo(x, y, c.al) else y == x
  }

  /** A finished run: what is due is past the band, in the rest of the band every coefficient is refined. */
  lemma {:induction false} GoRefines(c: Scan, input: seq<Byte>, g: Point, j: int)
    requires ScanOk(c) && g.Ok(c, input) && NewOk(c, g) && Go(c, input, g).Finished? && 0 <= j < 64
    ensures 0 <= c.al && 0 <= c.se + 1 < 80
    ensures var w, y := Due(c, input, g), Go(c, input, g).b[Natural(j)];
            && (w != 0 ==> IsNew(w, c.al))
            && if w != 0 && Natural(j) == Natural(c.se + 1) then y == w else Became(c, g.k, j, g.b[Natural(j)], y)
    decreases c.se + 3 - g.k, g.Rank()
  {
    hide ScanOk, Step, Natural, Correct, NewCoef, McuDecode.Coef, IsNew, Due;
    BandFacts(c);
    if g.k > c.se {
      PastStep(c, input, g);
    } else {
      match Step(c, input, g)
      case Halt(o) => HaltKeeps(c, input, g);
      case Move(g') =>
        StepNew(c, input, g);
        DueStep(c, input, g);
        GoRefines(c, input, g', j);
        var e := StepActs(c, input, g, g.b);
        if j == g.k { ActsRefines(c, input, g, e); } else { EffectElsewhere(c, g.b, g.k, e, j); }
    }
  }

  lemma HaltKeeps(c: Scan, input: seq<Byte>, g: Point)
    requires ScanOk(c) && g.Ok(c, input) && Step(c, input, g).Halt?
    ensures Step(c, input, g).o.Finished? ==> g.k > c.se
  {
    hide Fetch, Get, InUse, Correct, Natural, NewCoef, McuDecode.Coef;
  }

  // ----- a call -----

  /** What a call puts past the band, 0 for nothing. */
  ghost function OverrunOf(c: Scan, input: seq<Byte>, b: seq<int>, r: Reader, eobrun: int): int
    requires ScanOk(c) && |b| == 64 && r.Ok(input) && eobrun >= 0
  {
    if r.starved then 0 else Overrun(c, input, Start(c, b, r, eobrun))
  }

  /** A finished call: every coefficient of the band refined, every other one kept, except for an overrun. */
  lemma RefineRefines(c: Scan, input: seq<Byte>, b: seq<int>, r: Reader, eobrun: int, j: int)
    requires ScanOk(c) && |b| == 64 && r.Ok(input) && eobrun >= 0 && Refine(c, input, b, r, eobrun).Refined?
    requires 0 <= j < 64
    ensures 0 <= c.al && 0 <= c.se + 1 < 80
    ensures var w, y := OverrunOf(c, input, b, r, eobrun), Refine(c, input, b, r, eobrun).b[Natural(j)];
            && (w != 0 ==> IsNew(w, c.al))
            && if w != 0 && Natural(j) == Natural(c.se + 1) then y == w else Became(c, c.ss, j, b[Natural(j)], y)
  {
    hide ScanOk, Go, Natural, IsNew, Overlong;
    BandFacts(c);
    if !r.starved {
      var g := Start(c, b, r, eobrun);
      NotOverlong(c, g);
      GoRefines(c, input, g, j);
    }
  }

  /** The band refined and nothing else changed: what a refinement scan is for. */
  ghost predicate OnlyRefined(c: Scan, b: seq<int>, y: seq<int>)
    requires |b| == 64 && |y| == 64 && 0 <= c.al
  {
    forall j :: 0 <= j < 64 ==> Became(c, c.ss, j, b[Natural(j)], y[Natural(j)])
  }

  /** The coefficient that an overrun stores is one the place may have anyway. */
  ghost predicate Harmless(c: Scan, x: int, w: int)
    requires 0 <= c.al
  {
    if c.se < 63 then x == w else RefinedTo(x, w, c.al)
  }

  /** A finished call only refines its band exactly when no code overruns it, or the overrun happens to fit. */
  lemma OnlyRefinedIff(c: Scan, input: seq<Byte>, b: seq<int>, r: Reader, eobrun: int)
    requires ScanOk(c) && |b| == 64 && r.Ok(input) && eobrun >= 0 && Refine(c, input, b, r, eobrun).Refined?
    ensures 0 <= c.al && 0 <= c.se + 1 < 80
    ensures var w := OverrunOf(c, input, b, r, eobrun);
            OnlyRefined(c, b, Refine(c, input, b, r, eobrun).b) <==> w == 0 || Harmless(c, b[Natural(c.se + 1)], w)
  {
    hide ScanOk, Refine, Natural, IsNew, RefinedTo, OverrunOf;
    BandFacts(c);
    var y, w := Refine(c, input, b, r, eobrun).b, OverrunOf(c, input, b, r, eobrun);
    var last := if c.se < 63 then c.se + 1 else 63;
    assert Natural(last) == Natural(c.se + 1) by { LastPlace(); }
    forall j | 0 <= j < 64
      ensures if w != 0 && j == last then y[Natural(j)] == w else Became(c, c.ss, j, b[Natural(j)], y[Natural(j)])
    {
      RefineRefines(c, input, b, r, eobrun, j);
      if j != last { NaturalOnce(j, last); }
    }
  }

  lemma LastPlace()
    ensures Natural(64) == Natural(63)
  {
  }

  // ----- an overrun -----

  /** One code, the bit 0, for the symbol with run 15 and size 1. */
  function OneCode(): Table {
    Table(seq(17, i => if i == 1 then 1 else 0), seq(256, i => 0xF1))
  }

  /** One code, of length 1. */
  predicate Single(b: seq<int>) {
    Counts(b) && b[1] == 1 && forall l :: 2 <= l <= 16 ==> b[l] == 0
  }

  lemma {:induction false} SingleFirst(b: seq<int>, l: int)
    requires Single(b) && 2 <= l <= 17
    ensures First(b, l) == Pow2(l - 1) && Index(b, l) == 1
  {
    hide First, Index, Pow2;
    FirstStep(b, l - 1);
    Pow2Step(l - 2);
    if l > 2 { SingleFirst(b, l - 1); } else { SingleStart(b); }
  }

  lemma SingleStart(b: seq<int>)
    requires Counts(b)
    ensures First(b, 1) == 0 && Index(b, 1) == 0 && Pow2(0) == 1
  {
  }

  lemma SingleLegal(b: seq<int>)
    requires Single(b)
    ensures Legal(b) && Index(b, 17) == 1 && Code(b, 0) == 0
  {
    hide First, Index, Pow2;
    SingleFirst(b, 17);
    SingleStart(b);
    forall l | 1 <= l <= 16 ensures Room(b, l) {
      Pow2Step(l - 1);
      if l > 1 { SingleFirst(b, l); }
    }
    SingleFirst(b, 2);
    assert HasLength(b, 0, 1);
    LengthUnique(b, 0, 1, Length(b, 0));
  }

  /** A reader in front of eight zero bits and a marker. */
  function Front(): Reader { Reader(0, 0, 0, 0, false) }

  function ZeroByte(): seq<Byte> { [0, 0xFF, 0xD9] }

  lemma ZeroAhead()
    ensures Front().Ok(ZeroByte()) && AtEnd(ZeroByte(), Front())
    ensures forall i :: 0 <= i ==> !At(Ahead(ZeroByte(), Front()), i)
  {
    Unstuff([], [0], 0xD9, []);
    assert Stuff([0]) == [0] by { assert [0 as Byte][1..] == []; }
    assert [] + Stuff([0]) + [0xFF, 0xD9] + [] == ZeroByte();
    assert ByteBits([0]) == BitsOf(0, 8) by { assert [0 as Byte][1..] == []; }
    ZeroBits(8);
    assert BitsOf(0, 0) == [];
  }

  /** In front of zeros and a marker, the code of all zeros is read and then a zero bit. */
  lemma ZerosRead(t: Table, d: Derived, input: seq<Byte>, r: Reader) returns (r1: Reader, r2: Reader)
    requires InUse(t, d) && r.Ok(input) && AtEnd(input, r) && forall i :: 0 <= i ==> !At(Ahead(input, r), i)
    requires 0 < Index(t.bits, 17) && Code(t.bits, 0) == 0
    ensures Fetch(t, d, input, r) == Decoded(t.huffval[0], r1)
    ensures r1.Ok(input) && Get(input, r1, 1) == Got(0, r2)
  {
    hide Fetch, Get, Ahead, DerivedOk, Next, Legal, AtEnd, At, Index, BitsOf;
    var w, l := Upcoming(input, r), Length(t.bits, 0);
    assert CodeBits(t.bits, 0) <= w by {
      ZeroBits(l);
    }
    NextInverts(t, w, 0);
    DecodeAgrees(t, d, input, r);
    r1 := Fetch(t, d, input, r).r;
    GetKeeps(input, r1, 1);
    assert !At(Ahead(input, r1), 0) by { assert !At(Ahead(input, r), l + 0); }
    assert Window(Ahead(input, r1), 1) == [false];
    assert Val([false]) == 0;
    r2 := Get(input, r1, 1).r;
  }

  lemma OneCodeOk()
    ensures OneCode().Typed() && Single(OneCode().bits) && OneCode().huffval[0] == 0xF1
  {
  }

  /** A band of one zero coefficient and a run of 15: the new coefficient lands at place 8. */
  lemma OneOver(c: Scan, input: seq<Byte>, b: seq<int>, r: Reader, r1: Reader, r2: Reader)
    requires ScanOk(c) && c.ss == 1 && c.se == 1 && |b| == 64 && b[1] == 0 && r.Ok(input) && !r.starved
    requires Fetch(c.t, c.d, input, r) == Decoded(0xF1, r1) && r1.Ok(input) && Get(input, r1, 1) == Got(0, r2)
    ensures Refine(c, input, b, r, 0) == Refined(b[8 := NewCoef(0, c.al)], r2, 0)
  {
    hide Fetch, Get, InUse, McuDecode.Coef, Go, NewCoef;
    NewFits(0, c.al);
    assert NewCoef(0, c.al) != 0 by { NewNonzero(c.al); }
    var g0, g1 := Start(c, b, r, 0), Point(b, 1, r2, Skip(15, NewCoef(0, c.al)), []);
    GoStep(c, input, g0);
    assert Step(c, input, g0) == Move(g1);
    var g2 := g1.(k := 2, ph := Skip(14, NewCoef(0, c.al)));
    GoStep(c, input, g1);
    assert Step(c, input, g1) == Move(g2);
    GoStep(c, input, g2);
    assert Step(c, input, g2) == Move(Placed(g2));
    GoStep(c, input, Placed(g2));
  }

  lemma NewNonzero(al: nat)
    ensures NewCoef(0, al) < 0
  {
  }

  function ZeroBlock(): (b: seq<int>)
    ensures |b| == 64 && forall p :: 0 <= p < 64 ==> b[p] == 0
  {
    seq(64, i => 0)
  }

  /** The data byte 0 in a scan over the first AC coefficient alone changes place 8, which is outside the band. */
  lemma OverrunExample(d: Derived, al: int)
    requires DerivedOk(OneCode(), d) && 0 <= al <= 13
    ensures var c := Scan(OneCode(), d, 1, 1, al);
            && ScanOk(c) && Front().Ok(ZeroByte()) && NewCoef(0, al) < 0
            && Refine(c, ZeroByte(), ZeroBlock(), Front(), 0).Refined?
            && Refine(c, ZeroByte(), ZeroBlock(), Front(), 0).b == ZeroBlock()[8 := NewCoef(0, al)]
  {
    hide Refine, Fetch, Get, DerivedOk, Legal, Index, Code, Ahead, AtEnd, NewCoef, OneCode, ZeroByte, ZeroBlock;
    OneCodeOk();
    SingleLegal(OneCode().bits);
    ZeroAhead();
    var r1, r2 := ZerosRead(OneCode(), d, ZeroByte(), Front());
    NewNonzero(al);
    OneOver(Scan(OneCode(), d, 1, 1, al), ZeroByte(), ZeroBlock(), Front(), r1, r2);
  }
}
