/**
 Refinement undoes point transform: an AC refinement scan is coded from the full coefficients as section G.1.2.3
 of ITU-T T.81 says, and decode_mcu_AC_refine turns their values without the `al + 1` low bits into those without
 the `al` low bits.
 */
module AcEncode {
  import opened Arith
  import opened Bits
  import opened Huffman
  import opened HuffTables
  import opened BitReader
  import opened HuffDecode
  import opened ZigzagOrder
  import opened AcRefine
  import opened AcRerun
  import opened Encoding
  import McuDecode

  // ----- point transform -----

  /** The coefficient without its `n` low bits, towards zero. */
  function Approx(x: int, n: nat): int {
    var m: int := Abs(x) / Pow2(n) * Pow2(n);
    if x < 0 then -m else m
  }

  /** Bit `al` of the absolute value. */
  predicate LowBit(x: int, al: nat) {
    Abs(x) / Pow2(al) % 2 == 1
  }

  /** The coefficient is nonzero before the scan, or becomes so in it. */
  predicate Known(x: int, al: nat) { Abs(x) >= Pow2(al + 1) }
  predicate Fresh(x: int, al: nat) { Pow2(al) <= Abs(x) < Pow2(al + 1) }

  lemma HalfStep(m: nat, p: nat)
    requires p > 0
    ensures m / p == 2 * (m / (2 * p)) + m / p % 2
    ensures m / p * p == m / (2 * p) * (2 * p) + (m / p % 2) * p
  {
    var q, r := m / p, m % p;
    var h, b := q / 2, q % 2;
    Pieces(m, p, q, r, h, b);
    DivMod(m, h, b * p + r, 2 * p);
  }

  lemma Pieces(m: nat, p: nat, q: nat, r: nat, h: nat, b: nat)
    requires p > 0 && m == q * p + r && 0 <= r < p && q == 2 * h + b && 0 <= b <= 1
    ensures m == h * (2 * p) + (b * p + r) && 0 <= b * p + r < 2 * p && q * p == h * (2 * p) + b * p
  {
    assert q * p == 2 * (h * p) + b * p;
    assert h * (2 * p) == 2 * (h * p);
    if b == 1 { assert b * p == p; } else { assert b * p == 0; }
  }

  lemma Whole(m: nat, p: nat)
    requires p > 0
    ensures m / p * p <= m && (m / p * p == 0 <==> m < p) && (m < p ==> m / p == 0)
    ensures p <= m < 2 * p ==> m / p == 1 && m / p * p == p
  {
    var q, r := m / p, m % p;
    assert m == q * p + r;
    if m < p { DivMod(m, 0, m, p); } else if m < 2 * p { DivMod(m, 1, m - p, p); }
  }

  lemma KnownParts(m: nat, p: nat)
    requires p > 0 && m >= 2 * p
    ensures var b := m / (2 * p) * (2 * p);
            && 0 < b <= m && (m / p % 2 == 1 ==> m / p * p == b + p <= m) && (m / p % 2 == 0 ==> m / p * p == b)
  {
    HalfStep(m, p);
    Whole(m, 2 * p);
    Whole(m, p);
    if m / p % 2 == 1 { assert (m / p % 2) * p == p; } else { assert (m / p % 2) * p == 0; }
  }

  /** A known coefficient is nonzero, and its bit corrects it. */
  lemma KnownStep(x: int, al: nat)
    requires Known(x, al) && al <= 13 && Abs(x) < 32768
    ensures Approx(x, al + 1) != 0
    ensures Correct(Approx(x, al + 1), Bit(LowBit(x, al)), al) == Approx(x, al)
  {
    hide Correct, HasBit, Pow2;
    var m, p := Abs(x), Pow2(al);
    Pow2Step(al);
    KnownParts(m, p);
    var h: int := m / (2 * p);
    var b := Approx(x, al + 1);
    NegTimes(h, 2 * p);
    EvenMultiple(if x < 0 then -h else h, al, b);
    if LowBit(x, al) { SetBit(b, al); } else { KeepBit(b, al); }
  }

  lemma NegTimes(h: int, p: int)
    ensures (-h) * p == -(h * p)
  {
  }

  lemma KeepBit(b: int, al: nat)
    ensures Correct(b, 0, al) == b
  {
  }

  lemma SetBit(b: int, al: nat)
    requires !HasBit(b, al) && -32768 <= b - Pow2(al) && b + Pow2(al) < 32768
    ensures Correct(b, 1, al) == if b >= 0 then b + Pow2(al) else b - Pow2(al)
  {
    hide HasBit, Pow2;
  }

  lemma EvenMultiple(h: int, al: nat, b: int)
    requires b == h * (2 * Pow2(al))
    ensures !HasBit(b, al)
  {
    Double(h, Pow2(al));
    assert b == 0 + (2 * h) * Pow2(al);
    ModShift(0, 2 * h, Pow2(al));
  }

  lemma NewStep(x: int, al: nat)
    requires !Known(x, al)
    ensures Approx(x, al + 1) == 0 && (!Fresh(x, al) ==> Approx(x, al) == 0)
    ensures Fresh(x, al) ==> Approx(x, al) == NewCoef(Bit(x > 0), al)
  {
    Pow2Step(al);
    Whole(Abs(x), 2 * Pow2(al));
    Whole(Abs(x), Pow2(al));
  }

  // ----- the encoder -----

  /** The coefficients of a block, in natural order; a 16-bit coefficient other than the least one. */
  ghost predicate Coefs(x: seq<int>) {
    |x| == 64 && forall p :: 0 <= p < 64 ==> Abs(x[p]) < 32768
  }

  predicate KnownAt(c: Scan, x: seq<int>, k: int)
    requires |x| == 64 && 0 <= k < 64 && c.al >= 0
  {
    Known(x[Natural(k)], c.al)
  }

  predicate FreshAt(c: Scan, x: seq<int>, k: int)
    requires |x| == 64 && 0 <= k < 64 && c.al >= 0
  {
    Fresh(x[Natural(k)], c.al)
  }

  predicate BandOk(c: Scan) {
    1 <= c.ss <= c.se <= 63 && 0 <= c.al <= 13
  }

  /** The correction bits of the known coefficients at zigzag positions `k` to `j - 1`. */
  function FixBits(c: Scan, x: seq<int>, k: int, j: int): seq<bool>
    requires |x| == 64 && 0 <= k && j <= 64 && c.al >= 0
    decreases j - k
  {
    if k >= j then []
    else (if KnownAt(c, x, k) then [LowBit(x[Natural(k)], c.al)] else []) + FixBits(c, x, k + 1, j)
  }

  /** The coefficients at positions `k` to `j - 1` that are zero before the scan. */
  function ZerosIn(c: Scan, x: seq<int>, k: int, j: int): nat
    requires |x| == 64 && 0 <= k && j <= 64 && c.al >= 0
    decreases j - k
  {
    if k >= j then 0 else (if KnownAt(c, x, k) then 0 else 1) + ZerosIn(c, x, k + 1, j)
  }

  predicate NoFresh(c: Scan, x: seq<int>, k: int, j: int)
    requires |x| == 64 && 0 <= k && j <= 64 && c.al >= 0
  {
    forall i :: k <= i < j ==> !FreshAt(c, x, i)
  }

  /** The next coefficient that becomes nonzero, `se + 1` if there is none. */
  function NextFresh(c: Scan, x: seq<int>, k: int): (j: int)
    requires BandOk(c) && |x| == 64 && 0 <= k <= c.se + 1
    ensures k <= j <= c.se + 1 && (j <= c.se ==> FreshAt(c, x, j)) && NoFresh(c, x, k, j)
    decreases c.se + 1 - k
  {
    hide FreshAt;
    if k == c.se + 1 || FreshAt(c, x, k) then k else NextFresh(c, x, k + 1)
  }

  /** The position of the zero behind `n` others. */
  function NthZero(c: Scan, x: seq<int>, k: int, n: nat, j: int): (i: int)
    requires |x| == 64 && 0 <= k && j <= 64 && c.al >= 0 && n < ZerosIn(c, x, k, j)
    ensures k <= i < j && !KnownAt(c, x, i) && ZerosIn(c, x, k, i) == n
    decreases j - k
  {
    hide KnownAt;
    if KnownAt(c, x, k) then NthZero(c, x, k + 1, n, j)
    else if n == 0 then k
    else NthZero(c, x, k + 1, n - 1, j)
  }

  /** An end of band that counts for `n` blocks, and the correction bits of the rest of this one. */
  function EobUnit(n: nat, fixes: seq<bool>): Unit
    requires n >= 1
  {
    SizeIs(n);
    var r := Size(n) - 1;
    Unit(16 * r, BitsOf(n - Pow2(r), r) + fixes)
  }

  /** The codes of a block from position `k` on; an end of band also counts for `rest` more blocks. */
  function Units(c: Scan, x: seq<int>, k: int, rest: nat): seq<Unit>
    requires BandOk(c) && |x| == 64 && 1 <= k <= c.se + 1
    decreases c.se + 1 - k
  {
    hide FreshAt, KnownAt, Natural;
    if k > c.se then []
    else
      var j := NextFresh(c, x, k);
      if j > c.se then [EobUnit(rest + 1, FixBits(c, x, k, c.se + 1))]
      else
        var z := ZerosIn(c, x, k, j);
        if z >= 16 then
          var i := NthZero(c, x, k, 15, j);
          [Unit(0xF0, FixBits(c, x, k, i))] + Units(c, x, i + 1, rest)
        else [Unit(16 * z + 1, [x[Natural(j)] > 0] + FixBits(c, x, k, j))] + Units(c, x, j + 1, rest)
  }

  // ----- the block on its way -----

  /** Block `b` with the band refined up to position `k`. */
  function Target(c: Scan, x: seq<int>, b: seq<int>, k: int): (y: seq<int>)
    requires |x| == 64 && |b| == 64 && c.al >= 0
    ensures |y| == 64
  {
    seq(64, p requires 0 <= p < 64 =>
      if c.ss <= Zigzag(p) <= c.se then Approx(x[p], if Zigzag(p) < k then c.al else c.al + 1) else b[p])
  }

  lemma TargetAt(c: Scan, x: seq<int>, b: seq<int>, k: int, j: int)
    requires BandOk(c) && |x| == 64 && |b| == 64 && c.ss <= j <= c.se
    ensures Target(c, x, b, k)[Natural(j)] == Approx(x[Natural(j)], if j < k then c.al else c.al + 1)
  {
    hide Natural, Zigzag, Approx;
    ZigzagNatural(j);
  }

  lemma TargetNext(c: Scan, x: seq<int>, b: seq<int>, k: int)
    requires BandOk(c) && |x| == 64 && |b| == 64 && c.ss <= k <= c.se
    ensures Target(c, x, b, k + 1) == Target(c, x, b, k)[Natural(k) := Approx(x[Natural(k)], c.al)]
  {
    hide Natural, Zigzag, Approx;
    ZigzagNatural(k);
    var y := Target(c, x, b, k)[Natural(k) := Approx(x[Natural(k)], c.al)];
    forall p | 0 <= p < 64 ensures Target(c, x, b, k + 1)[p] == y[p] {
      NaturalZigzag(p);
    }
  }

  /** What a run has to come to: the block `y`, `e` blocks of the end of band left, and the reader behind `w`. */
  ghost predicate GoBack(o: Out, input: seq<Byte>, r: Reader, w: seq<bool>, more: seq<bool>, y: seq<int>, e: int) {
    match o
    case Stopped(_, _) => Stalls(input, r, |w|)
    case Finished(_, _, _) => o.b == y && o.eobrun == e && Moved(input, r, w, more, o.r)
  }

  lemma GoBackLater(o: Out, input: seq<Byte>, r: Reader, a: seq<bool>, w: seq<bool>, more: seq<bool>, r1: Reader,
                    y: seq<int>, e: int)
    requires Moved(input, r, a, w + more, r1) && GoBack(o, input, r1, w, more, y, e)
    ensures GoBack(o, input, r, a + w, more, y, e)
  {
    hide Moved, Stalls;
    if o.Stopped? { StallsLater(input, r, a, w + more, r1, |w|); } else { MovedTrans(input, r, a, w, more, r1, o.r); }
  }

  // ----- one coefficient -----

  /** A known coefficient in a phase that corrects: one bit is read and the coefficient gets its next value. */
  lemma FixStep(c: Scan, input: seq<Byte>, x: seq<int>, b: seq<int>, g: Point, more: seq<bool>)
    requires ScanOk(c) && BandOk(c) && Coefs(x) && |b| == 64 && g.Ok(c, input) && !g.ph.AtCode?
    requires c.ss <= g.k <= c.se && KnownAt(c, x, g.k) && g.b == Target(c, x, b, g.k)
    requires Feeds(input, g.r, [LowBit(x[Natural(g.k)], c.al)] + more)
    ensures Get(input, g.r, 1).Stuck? ==> Go(c, input, g).Stopped? && Stalls(input, g.r, 0)
    ensures Get(input, g.r, 1).Got? ==>
              var g' := g.(b := Target(c, x, b, g.k + 1), k := g.k + 1, r := Get(input, g.r, 1).r);
              && g'.Ok(c, input) && Go(c, input, g) == Go(c, input, g')
              && Moved(input, g.r, [LowBit(x[Natural(g.k)], c.al)], more, g'.r)
  {
    hide ScanOk, Get, Natural, Zigzag, Approx, Correct, Target, Feeds, Moved, Stalls, Go, LowBit, Ahead, AtEnd;
    var v := x[Natural(g.k)];
    var bit := LowBit(v, c.al);
    GetFeeds(input, g.r, [bit], more);
    OneVal(bit);
    KnownStep(v, c.al);
    TargetAt(c, x, b, g.k, g.k);
    TargetNext(c, x, b, g.k);
    FixMove(c, input, g);
    GoStep(c, input, g);
  }

  lemma OneVal(bit: bool)
    ensures Val([bit]) == Bit(bit)
  {
    ValPush([], bit);
    assert [] + [bit] == [bit];
  }

  lemma FixMove(c: Scan, input: seq<Byte>, g: Point)
    requires ScanOk(c) && g.Ok(c, input) && !g.ph.AtCode? && 0 <= c.al && 0 <= g.k <= c.se <= 63
    requires g.b[Natural(g.k)] != 0
    ensures Get(input, g.r, 1).Stuck? ==> Step(c, input, g) == Halt(Stopped(g.b, g.made))
    ensures Get(input, g.r, 1).Got? ==>
              var got, p := Get(input, g.r, 1), Natural(g.k);
              Step(c, input, g) == Move(g.(b := g.b[p := Correct(g.b[p], got.value, c.al)], k := g.k + 1, r := got.r))
  {
    hide InUse, Get, Natural, Correct;
  }

  /** A zero that stays zero. */
  lemma PassStep(c: Scan, x: seq<int>, b: seq<int>, k: int)
    requires BandOk(c) && |x| == 64 && |b| == 64 && c.ss <= k <= c.se && !KnownAt(c, x, k) && !FreshAt(c, x, k)
    ensures Target(c, x, b, k)[Natural(k)] == 0 && Target(c, x, b, k + 1) == Target(c, x, b, k)
  {
    hide Natural, Approx, Target;
    NewStep(x[Natural(k)], c.al);
    TargetAt(c, x, b, k, k);
    TargetNext(c, x, b, k);
  }

  // ----- walking over coefficients -----

  lemma FixCons(c: Scan, x: seq<int>, k: int, j: int)
    requires |x| == 64 && 0 <= k < j <= 64 && c.al >= 0
    ensures FixBits(c, x, k, j)
            == if KnownAt(c, x, k) then [LowBit(x[Natural(k)], c.al)] + FixBits(c, x, k + 1, j)
               else FixBits(c, x, k + 1, j)
    ensures ZerosIn(c, x, k, j) == (if KnownAt(c, x, k) then 0 else 1) + ZerosIn(c, x, k + 1, j)
  {
    hide KnownAt, LowBit, Natural;
  }

  /** The run at `j`, where a coefficient is to be placed or a run of zeros ends. */
  ghost predicate WalkBack(c: Scan, input: seq<Byte>, x: seq<int>, b: seq<int>, g: Point, j: int, more: seq<bool>,
                           r2: Reader)
    requires ScanOk(c) && BandOk(c) && |x| == 64 && |b| == 64 && g.Ok(c, input) && g.ph.Skip? && 0 <= g.k <= j <= c.se
  {
    var at := Point(Target(c, x, b, j), j, r2, Skip(0, g.ph.s), g.made);
    if Go(c, input, g).Stopped? && Stalls(input, g.r, |FixBits(c, x, g.k, j)|) then true
    else
      && Moved(input, g.r, FixBits(c, x, g.k, j), more, r2) && Placed(at).Ok(c, input)
      && Go(c, input, g) == Go(c, input, Placed(at))
  }

  /** Over known coefficients and `run` zeros to the zero behind them. */
  lemma {:induction false} SkipWalk(c: Scan, input: seq<Byte>, x: seq<int>, b: seq<int>, g: Point, j: int,
                                    more: seq<bool>) returns (r2: Reader)
    requires ScanOk(c) && BandOk(c) && Coefs(x) && |b| == 64 && g.Ok(c, input) && g.ph.Skip? && c.ss <= g.k <= j <= c.se
    requires !KnownAt(c, x, j) && NoFresh(c, x, g.k, j) && ZerosIn(c, x, g.k, j) == g.ph.run
    requires g.b == Target(c, x, b, g.k) && Feeds(input, g.r, FixBits(c, x, g.k, j) + more)
    ensures WalkBack(c, input, x, b, g, j, more, r2)
    decreases j - g.k
  {
    hide ScanOk, Get, Natural, Zigzag, Approx, Target, Feeds, Moved, Stalls, Go, LowBit, KnownAt, FreshAt, FixBits,
         ZerosIn, Placed;
    if g.k == j {
      r2 := g.r;
      SkipEnd(c, input, x, b, g, more);
    } else {
      FixCons(c, x, g.k, j);
      if KnownAt(c, x, g.k) {
        var w, fix := FixBits(c, x, g.k + 1, j), [LowBit(x[Natural(g.k)], c.al)];
        assert (fix + w) + more == fix + (w + more);
        FixStep(c, input, x, b, g, w + more);
        if Get(input, g.r, 1).Stuck? {
          r2 := g.r;
          StallsMore(input, g.r, 0, |fix + w|);
        } else {
          var g' := g.(b := Target(c, x, b, g.k + 1), k := g.k + 1, r := Get(input, g.r, 1).r);
          MovedOk(input, g.r, fix, w + more, g'.r);
          r2 := SkipWalk(c, input, x, b, g', j, more);
          WalkLater(c, input, x, b, g, g', j, fix, w, more, r2);
        }
      } else {
        PassStep(c, x, b, g.k);
        var g' := g.(b := Target(c, x, b, g.k + 1), k := g.k + 1, ph := Skip(g.ph.run - 1, g.ph.s));
        PassMove(c, input, g);
        GoStep(c, input, g);
        r2 := SkipWalk(c, input, x, b, g', j, more);
      }
    }
  }

  lemma PassMove(c: Scan, input: seq<Byte>, g: Point)
    requires ScanOk(c) && g.Ok(c, input) && 0 <= g.k <= c.se <= 63 && g.b[Natural(g.k)] == 0
    ensures g.ph.Skip? && g.ph.run > 0 ==> Step(c, input, g) == Move(g.(k := g.k + 1, ph := Skip(g.ph.run - 1, g.ph.s)))
    ensures g.ph.Skip? && g.ph.run == 0 ==> Step(c, input, g) == Move(Placed(g))
    ensures g.ph.Trail? ==> Step(c, input, g) == Move(g.(k := g.k + 1))
  {
    hide InUse, Get, Natural, Correct, Placed;
  }

  lemma SkipEnd(c: Scan, input: seq<Byte>, x: seq<int>, b: seq<int>, g: Point, more: seq<bool>)
    requires ScanOk(c) && BandOk(c) && |x| == 64 && |b| == 64 && g.Ok(c, input) && g.ph.Skip? && c.ss <= g.k <= c.se
    requires !KnownAt(c, x, g.k) && ZerosIn(c, x, g.k, g.k) == g.ph.run
    requires g.b == Target(c, x, b, g.k) && Feeds(input, g.r, FixBits(c, x, g.k, g.k) + more)
    ensures WalkBack(c, input, x, b, g, g.k, more, g.r)
  {
    hide ScanOk, Natural, Approx, Target, Feeds, Moved, Go, Placed;
    assert FixBits(c, x, g.k, g.k) == [] && [] + more == more;
    NewStep(x[Natural(g.k)], c.al);
    TargetAt(c, x, b, g.k, g.k);
    PassMove(c, input, g);
    GoStep(c, input, g);
    MovedNone(input, g.r, more);
    assert Point(Target(c, x, b, g.k), g.k, g.r, Skip(0, g.ph.s), g.made) == g;
  }

  lemma WalkLater(c: Scan, input: seq<Byte>, x: seq<int>, b: seq<int>, g: Point, g': Point, j: int, fix: seq<bool>,
                  w: seq<bool>, more: seq<bool>, r2: Reader)
    requires ScanOk(c) && BandOk(c) && |x| == 64 && |b| == 64 && g.Ok(c, input) && g'.Ok(c, input) && g.ph.Skip?
    requires g'.ph == g.ph && g'.made == g.made && 0 <= g.k < g'.k <= j <= c.se && Go(c, input, g) == Go(c, input, g')
    requires Moved(input, g.r, fix, w + more, g'.r) && w == FixBits(c, x, g'.k, j) && FixBits(c, x, g.k, j) == fix + w
    requires WalkBack(c, input, x, b, g', j, more, r2)
    ensures WalkBack(c, input, x, b, g, j, more, r2)
  {
    hide ScanOk, Target, Moved, Stalls, Go, FixBits, Placed;
    if Go(c, input, g').Stopped? && Stalls(input, g'.r, |w|) {
      StallsLater(input, g.r, fix, w + more, g'.r, |w|);
    } else {
      MovedTrans(input, g.r, fix, w, more, g'.r, r2);
    }
  }

  /** Past the end of the band: the known coefficients of the rest are corrected. */
  lemma {:induction false} TrailWalk(c: Scan, input: seq<Byte>, x: seq<int>, b: seq<int>, g: Point, more: seq<bool>)
    requires ScanOk(c) && BandOk(c) && Coefs(x) && |b| == 64 && g.Ok(c, input) && g.ph.Trail? && c.ss <= g.k
    requires NoFresh(c, x, g.k, c.se + 1) && g.b == Target(c, x, b, g.k)
    requires Feeds(input, g.r, FixBits(c, x, g.k, c.se + 1) + more)
    ensures GoBack(Go(c, input, g), input, g.r, FixBits(c, x, g.k, c.se + 1), more, Target(c, x, b, c.se + 1),
                   g.ph.eobrun - 1)
    decreases c.se + 1 - g.k
  {
    hide ScanOk, Get, Natural, Zigzag, Approx, Target, Feeds, Moved, Stalls, Go, LowBit, KnownAt, FreshAt, FixBits,
         GoBack;
    if g.k > c.se {
      TrailEnd(c, input, x, b, g, more);
    } else {
      FixCons(c, x, g.k, c.se + 1);
      if KnownAt(c, x, g.k) {
        var w, fix := FixBits(c, x, g.k + 1, c.se + 1), [LowBit(x[Natural(g.k)], c.al)];
        assert (fix + w) + more == fix + (w + more);
        FixStep(c, input, x, b, g, w + more);
        if Get(input, g.r, 1).Stuck? {
          StallsMore(input, g.r, 0, |fix + w|);
          StoppedBack(Go(c, input, g), input, g.r, fix + w, more, Target(c, x, b, c.se + 1), g.ph.eobrun - 1);
        } else {
          var g' := g.(b := Target(c, x, b, g.k + 1), k := g.k + 1, r := Get(input, g.r, 1).r);
          MovedOk(input, g.r, fix, w + more, g'.r);
          TrailWalk(c, input, x, b, g', more);
          GoBackLater(Go(c, input, g'), input, g.r, fix, w, more, g'.r, Target(c, x, b, c.se + 1), g.ph.eobrun - 1);
        }
      } else {
        PassStep(c, x, b, g.k);
        PassMove(c, input, g);
        GoStep(c, input, g);
        TrailWalk(c, input, x, b, g.(k := g.k + 1), more);
      }
    }
  }

  lemma StoppedBack(o: Out, input: seq<Byte>, r: Reader, w: seq<bool>, more: seq<bool>, y: seq<int>, e: int)
    requires o.Stopped? && Stalls(input, r, |w|)
    ensures GoBack(o, input, r, w, more, y, e)
  {
  }

  lemma TrailEnd(c: Scan, input: seq<Byte>, x: seq<int>, b: seq<int>, g: Point, more: seq<bool>)
    requires ScanOk(c) && BandOk(c) && |x| == 64 && |b| == 64 && g.Ok(c, input) && g.ph.Trail? && g.k > c.se
    requires g.b == Target(c, x, b, g.k) && Feeds(input, g.r, FixBits(c, x, g.k, c.se + 1) + more)
    ensures GoBack(Go(c, input, g), input, g.r, FixBits(c, x, g.k, c.se + 1), more, Target(c, x, b, c.se + 1),
                   g.ph.eobrun - 1)
  {
    hide InUse, Natural, Approx, Target, Feeds, Moved;
    assert FixBits(c, x, g.k, c.se + 1) == [] && [] + more == more;
    assert g.k == c.se + 1;
    MovedNone(input, g.r, more);
  }

  // ----- the codes -----

  /** What a code that has been fetched leads to. */
  lemma CodeMove(c: Scan, input: seq<Byte>, g: Point)
    requires ScanOk(c) && g.Ok(c, input) && g.ph.AtCode? && g.k <= c.se && 0 <= c.al
    ensures Fetch(c.t, c.d, input, g.r).NoSymbol? ==> Step(c, input, g) == Halt(Stopped(g.b, g.made))
    ensures Fetch(c.t, c.d, input, g.r).Decoded? ==>
              var v, r1 := Fetch(c.t, c.d, input, g.r).value, Fetch(c.t, c.d, input, g.r).r;
              && (v % 16 != 0 ==>
                    var got := Get(input, r1, 1);
                    && (got.Stuck? ==> Step(c, input, g) == Halt(Stopped(g.b, g.made)))
                    && (got.Got? ==>
                          Step(c, input, g) == Move(g.(r := got.r, ph := Skip(v / 16, NewCoef(got.value, c.al))))))
              && (v == 0xF0 ==> Step(c, input, g) == Move(g.(r := r1, ph := Skip(15, 0))))
              && (v % 16 == 0 && 0 <= v / 16 <= 14 ==>
                    var got := Get(input, r1, v / 16);
                    && (got.Stuck? ==> Step(c, input, g) == Halt(Stopped(g.b, g.made)))
                    && (got.Got? ==> Step(c, input, g) == Move(g.(r := got.r, ph := Trail(Pow2(v / 16) + got.value)))))
  {
    hide InUse, Fetch, Get, NewCoef, Pow2;
  }

  lemma EobFacts(n: nat, fixes: seq<bool>)
    requires 1 <= n < 32768
    ensures var r := Size(n) - 1;
            && 0 <= r <= 14 && Pow2(r) <= n && EobUnit(n, fixes).symbol == 16 * r
            && EobUnit(n, fixes).extra == BitsOf(n - Pow2(r), r) + fixes
            && Pow2(r) + Val(BitsOf(n - Pow2(r), r)) == n
  {
    assert Pow2(15) == 32768 by { Pow2Add(8, 7); assert Pow2(8) == 256 && Pow2(7) == 128; }
    hide Size, BitsOf, Val, Pow2;
    SizeIs(n);
    SizeBound(n, 15);
    var r := Size(n) - 1;
    Pow2Step(r);
    ValBitsOf(n - Pow2(r), r);
    DivMod(n - Pow2(r), 0, n - Pow2(r), Pow2(r));
  }

  /** A point before a code at position `k`, with the block as it should be there. */
  ghost predicate Here(c: Scan, input: seq<Byte>, x: seq<int>, b: seq<int>, g: Point) {
    && ScanOk(c) && BandOk(c) && Coefs(x) && |x| == |b| == 64 && g.Ok(c, input) && g.ph.AtCode?
    && c.ss <= g.k <= c.se + 1 && g.b == Target(c, x, b, g.k)
  }

  /** The rest of the block has no new coefficient: an end of band. */
  lemma EobRun(c: Scan, input: seq<Byte>, x: seq<int>, b: seq<int>, g: Point, rest: nat, more: seq<bool>)
    requires Here(c, input, x, b, g) && g.k <= c.se && NoFresh(c, x, g.k, c.se + 1) && rest + 1 < 32768
    requires TableOk(c) && Codable(c.t, [EobUnit(rest + 1, FixBits(c, x, g.k, c.se + 1))] + [])
    requires Feeds(input, g.r, Emit(c.t, [EobUnit(rest + 1, FixBits(c, x, g.k, c.se + 1))] + []) + more)
    ensures GoBack(Go(c, input, g), input, g.r, Emit(c.t, [EobUnit(rest + 1, FixBits(c, x, g.k, c.se + 1))] + []), more,
                   Target(c, x, b, c.se + 1), rest)
  {
    hide Fetch, Get, Target, Feeds, Moved, Stalls, Go, FixBits, GoBack, Emit, Codable, HasCode, CodeOf, EobUnit, Size,
         BitsOf, Val, Legal, DerivedOk, NoFresh, Coefs;
    var fixes := FixBits(c, x, g.k, c.se + 1);
    var n, u, y := Size(rest + 1) - 1, EobUnit(rest + 1, fixes), Target(c, x, b, c.se + 1);
    EobFacts(rest + 1, fixes);
    EmitCons(c.t, u, []);
    EmitNone(c.t);
    var w, all := CodeOf(c.t, u.symbol), Emit(c.t, [u] + []);
    FetchUnit(c.t, c.d, input, g.r, u, [], more);
    CodeMove(c, input, g);
    GoStep(c, input, g);
    if Fetch(c.t, c.d, input, g.r).NoSymbol? {
      StoppedBack(Go(c, input, g), input, g.r, all, more, y, rest);
    } else {
      var r1, e := Fetch(c.t, c.d, input, g.r).r, BitsOf(rest + 1 - Pow2(n), n);
      assert u.extra + ([] + more) == e + (fixes + more);
      MovedOk(input, g.r, w, e + (fixes + more), r1);
      GetFeeds(input, r1, e, fixes + more);
      assert all == w + (e + fixes);
      if Get(input, r1, n).Stuck? {
        StallsLater(input, g.r, w, e + (fixes + more), r1, 0);
        StallsMore(input, g.r, |w|, |all|);
        StoppedBack(Go(c, input, g), input, g.r, all, more, y, rest);
      } else {
        var g' := g.(r := Get(input, r1, n).r, ph := Trail(rest + 1));
        MovedTrans(input, g.r, w, e, fixes + more, r1, g'.r);
        MovedOk(input, g.r, w + e, fixes + more, g'.r);
        TrailWalk(c, input, x, b, g', more);
        GoBackLater(Go(c, input, g'), input, g.r, w + e, fixes, more, g'.r, y, rest);
        assert (w + e) + fixes == all;
      }
    }
  }

  ghost predicate TableOk(c: Scan) {
    c.t.Typed() && Legal(c.t.bits)
  }

  /** A run of 16 zeros: the decoder is before the next code, behind the last of them. */
  lemma ZrlRun(c: Scan, input: seq<Byte>, x: seq<int>, b: seq<int>, g: Point, i: int, us: seq<Unit>, more: seq<bool>)
    returns (g': Point, stuck: bool)
    requires Here(c, input, x, b, g) && g.k <= i <= c.se && !KnownAt(c, x, i) && NoFresh(c, x, g.k, i + 1)
    requires ZerosIn(c, x, g.k, i) == 15 && TableOk(c) && Codable(c.t, [Unit(0xF0, FixBits(c, x, g.k, i))] + us)
    requires Feeds(input, g.r, Emit(c.t, [Unit(0xF0, FixBits(c, x, g.k, i))] + us) + more)
    ensures var u := Unit(0xF0, FixBits(c, x, g.k, i));
            && HasCode(c.t, u.symbol) && Codable(c.t, us)
            && if stuck then Go(c, input, g).Stopped? && Stalls(input, g.r, |Emit(c.t, [u] + us)|)
               else
                 && Here(c, input, x, b, g') && g'.k == i + 1 && Go(c, input, g) == Go(c, input, g')
                 && Moved(input, g.r, CodeOf(c.t, u.symbol) + u.extra, Emit(c.t, us) + more, g'.r)
  {
    hide Fetch, Get, Target, Feeds, Moved, Stalls, Go, FixBits, Emit, Codable, HasCode, CodeOf, Legal, DerivedOk, Coefs,
         KnownAt, FreshAt, ZerosIn, Placed;
    var fixes := FixBits(c, x, g.k, i);
    var u := Unit(0xF0, fixes);
    EmitCons(c.t, u, us);
    var w, tail := CodeOf(c.t, u.symbol), Emit(c.t, us) + more;
    FetchUnit(c.t, c.d, input, g.r, u, us, more);
    CodeMove(c, input, g);
    GoStep(c, input, g);
    g', stuck := g, Fetch(c.t, c.d, input, g.r).NoSymbol?;
    if !stuck {
      var g1 := g.(r := Fetch(c.t, c.d, input, g.r).r, ph := Skip(15, 0));
      MovedOk(input, g.r, w, fixes + tail, g1.r);
      var r2 := SkipWalk(c, input, x, b, g1, i, tail);
      stuck := Go(c, input, g1).Stopped? && Stalls(input, g1.r, |fixes|);
      if stuck {
        StallsLater(input, g.r, w, fixes + tail, g1.r, |fixes|);
        StallsMore(input, g.r, |w| + |fixes|, |Emit(c.t, [u] + us)|);
      } else {
        MovedTrans(input, g.r, w, fixes, tail, g1.r, r2);
        MovedOk(input, g1.r, fixes, tail, r2);
        PassStep(c, x, b, i);
        g' := Placed(Point(Target(c, x, b, i), i, r2, Skip(0, 0), g.made));
        PlacedZero(Point(Target(c, x, b, i), i, r2, Skip(0, 0), g.made));
      }
    }
  }

  lemma PlacedZero(g: Point)
    requires |g.b| == 64 && 0 <= g.k < 80 && g.ph.Skip? && g.ph.s == 0
    ensures Placed(g) == g.(k := g.k + 1, ph := AtCode)
  {
  }

  /** A new coefficient: the decoder is before the next code, behind it. */
  lemma NewRun(c: Scan, input: seq<Byte>, x: seq<int>, b: seq<int>, g: Point, j: int, us: seq<Unit>, more: seq<bool>)
    returns (g': Point, stuck: bool)
    requires Here(c, input, x, b, g) && g.k <= j <= c.se && FreshAt(c, x, j) && NoFresh(c, x, g.k, j)
    requires ZerosIn(c, x, g.k, j) <= 15 && TableOk(c) && Codable(c.t, [NewUnit(c, x, g.k, j)] + us)
    requires Feeds(input, g.r, Emit(c.t, [NewUnit(c, x, g.k, j)] + us) + more)
    ensures var u := NewUnit(c, x, g.k, j);
            && HasCode(c.t, u.symbol) && Codable(c.t, us)
            && if stuck then Go(c, input, g).Stopped? && Stalls(input, g.r, |Emit(c.t, [u] + us)|)
               else
                 && Here(c, input, x, b, g') && g'.k == j + 1 && Go(c, input, g) == Go(c, input, g')
                 && Moved(input, g.r, CodeOf(c.t, u.symbol) + u.extra, Emit(c.t, us) + more, g'.r)
  {
    hide Fetch, Get, Target, Feeds, Moved, Stalls, Go, FixBits, Emit, Codable, HasCode, CodeOf, Legal, DerivedOk, Coefs,
         ZerosIn, Placed, NewCoef, Approx, Natural, KnownAt;
    var fixes, z, v := FixBits(c, x, g.k, j), ZerosIn(c, x, g.k, j), x[Natural(j)];
    var u, sign := NewUnit(c, x, g.k, j), [v > 0];
    EmitCons(c.t, u, us);
    var w, tail := CodeOf(c.t, u.symbol), Emit(c.t, us) + more;
    FetchUnit(c.t, c.d, input, g.r, u, us, more);
    CodeMove(c, input, g);
    GoStep(c, input, g);
    g', stuck := g, Fetch(c.t, c.d, input, g.r).NoSymbol?;
    if !stuck {
      var r1 := Fetch(c.t, c.d, input, g.r).r;
      assert u.extra + tail == sign + (fixes + tail);
      MovedOk(input, g.r, w, sign + (fixes + tail), r1);
      GetFeeds(input, r1, sign, fixes + tail);
      OneVal(v > 0);
      stuck := Get(input, r1, 1).Stuck?;
      if stuck {
        StallsLater(input, g.r, w, sign + (fixes + tail), r1, 0);
        StallsMore(input, g.r, |w|, |Emit(c.t, [u] + us)|);
      } else {
        var g1 := g.(r := Get(input, r1, 1).r, ph := Skip(z, NewCoef(Bit(v > 0), c.al)));
        MovedTrans(input, g.r, w, sign, fixes + tail, r1, g1.r);
        g', stuck := NewWalk(c, input, x, b, g1, j, w + sign, fixes, tail, g.r);
        assert (w + sign) + fixes == w + u.extra;
        if stuck { StallsMore(input, g.r, |w + sign| + |fixes|, |Emit(c.t, [u] + us)|); }
      }
    }
  }

  function NewUnit(c: Scan, x: seq<int>, k: int, j: int): Unit
    requires |x| == 64 && 0 <= k <= j < 64 && c.al >= 0
  {
    Unit(16 * ZerosIn(c, x, k, j) + 1, [x[Natural(j)] > 0] + FixBits(c, x, k, j))
  }

  /** From the sign bit to the place of the coefficient. */
  lemma NewWalk(c: Scan, input: seq<Byte>, x: seq<int>, b: seq<int>, g: Point, j: int, w: seq<bool>, fixes: seq<bool>,
                tail: seq<bool>, r0: Reader) returns (g': Point, stuck: bool)
    requires ScanOk(c) && BandOk(c) && Coefs(x) && |x| == |b| == 64 && g.Ok(c, input) && c.ss <= g.k <= j <= c.se
    requires g.b == Target(c, x, b, g.k) && g.ph == Skip(ZerosIn(c, x, g.k, j), NewCoef(Bit(x[Natural(j)] > 0), c.al))
    requires FreshAt(c, x, j) && NoFresh(c, x, g.k, j) && fixes == FixBits(c, x, g.k, j)
    requires Moved(input, r0, w, fixes + tail, g.r)
    ensures if stuck then Go(c, input, g).Stopped? && Stalls(input, r0, |w| + |fixes|)
            else
              && Here(c, input, x, b, g') && g'.k == j + 1 && Go(c, input, g) == Go(c, input, g')
              && Moved(input, r0, w + fixes, tail, g'.r)
  {
    FreshUnknown(x[Natural(j)], c.al);
    hide Target, Feeds, Moved, Stalls, Go, FixBits, Coefs, ZerosIn, Placed, NewCoef, Approx, Natural, FreshAt, InUse;
    var v := x[Natural(j)];
    MovedOk(input, r0, w, fixes + tail, g.r);
    var r2 := SkipWalk(c, input, x, b, g, j, tail);
    g', stuck := g, Go(c, input, g).Stopped? && Stalls(input, g.r, |fixes|);
    if stuck {
      StallsLater(input, r0, w, fixes + tail, g.r, |fixes|);
    } else {
      MovedTrans(input, r0, w, fixes, tail, g.r, r2);
      MovedOk(input, g.r, fixes, tail, r2);
      var at := Point(Target(c, x, b, j), j, r2, Skip(0, g.ph.s), g.made);
      g' := Placed(at);
      PlacedNew(at, Bit(v > 0), c.al);
      NewStep(v, c.al);
      TargetNext(c, x, b, j);
    }
  }

  lemma FreshUnknown(v: int, al: nat)
    requires Fresh(v, al)
    ensures !Known(v, al)
  {
  }

  lemma PlacedNew(g: Point, bit: int, al: nat)
    requires |g.b| == 64 && 0 <= g.k < 80 && g.ph == Skip(0, NewCoef(bit, al)) && al <= 13
    ensures var p := Natural(g.k);
            Placed(g) == g.(b := g.b[p := NewCoef(bit, al)], k := g.k + 1, ph := AtCode, made := g.made + [p])
  {
    hide Natural;
    Pow2Grows(al, 13);
    assert Pow2(13) == 8192 by { Pow2Add(8, 5); assert Pow2(8) == 256 && Pow2(5) == 32; }
  }

  lemma UnitsCases(c: Scan, x: seq<int>, k: int, rest: nat)
    requires BandOk(c) && |x| == 64 && 1 <= k <= c.se
    ensures var j := NextFresh(c, x, k);
            && (j > c.se ==> Units(c, x, k, rest) == [EobUnit(rest + 1, FixBits(c, x, k, c.se + 1))])
            && (j <= c.se && ZerosIn(c, x, k, j) >= 16 ==>
                  var i := NthZero(c, x, k, 15, j);
                  Units(c, x, k, rest) == [Unit(0xF0, FixBits(c, x, k, i))] + Units(c, x, i + 1, rest))
            && (j <= c.se && ZerosIn(c, x, k, j) <= 15 ==>
                  Units(c, x, k, rest) == [NewUnit(c, x, k, j)] + Units(c, x, j + 1, rest))
  {
    hide FreshAt, KnownAt, Natural, FixBits, ZerosIn, NextFresh, NthZero, EobUnit;
  }

  /** The codes of a block give the block back. */
  lemma {:induction false} CodeRun(c: Scan, input: seq<Byte>, x: seq<int>, b: seq<int>, g: Point, rest: nat,
                                   more: seq<bool>)
    requires Here(c, input, x, b, g) && TableOk(c) && rest + 1 < 32768
    requires rest == 0 || (g.k <= c.se && !FreshAt(c, x, c.se))
    requires Codable(c.t, Units(c, x, g.k, rest)) && Feeds(input, g.r, Emit(c.t, Units(c, x, g.k, rest)) + more)
    ensures GoBack(Go(c, input, g), input, g.r, Emit(c.t, Units(c, x, g.k, rest)), more, Target(c, x, b, c.se + 1),
                   rest)
    decreases c.se + 1 - g.k, 0
  {
    hide Fetch, Get, Target, Feeds, Moved, Stalls, Go, FixBits, Emit, Codable, HasCode, CodeOf, Legal, DerivedOk, Coefs,
         ZerosIn, NextFresh, NthZero, GoBack, Units, NewUnit, EobUnit, KnownAt, FreshAt;
    var y := Target(c, x, b, c.se + 1);
    if g.k > c.se {
      CodeEnd(c, input, x, b, g, more);
      return;
    }
    UnitsCases(c, x, g.k, rest);
    var j := NextFresh(c, x, g.k);
    if j > c.se {
      assert [EobUnit(rest + 1, FixBits(c, x, g.k, c.se + 1))] + [] == Units(c, x, g.k, rest);
      EobRun(c, input, x, b, g, rest, more);
    } else if ZerosIn(c, x, g.k, j) >= 16 {
      var i := NthZero(c, x, g.k, 15, j);
      var us := Units(c, x, i + 1, rest);
      var u := Unit(0xF0, FixBits(c, x, g.k, i));
      var g', stuck := ZrlRun(c, input, x, b, g, i, us, more);
      if stuck {
        StoppedBack(Go(c, input, g), input, g.r, Emit(c.t, [u] + us), more, y, rest);
      } else {
        CodeNext(c, input, x, b, g, g', u, us, rest, more);
      }
    } else {
      var us, u := Units(c, x, j + 1, rest), NewUnit(c, x, g.k, j);
      var g', stuck := NewRun(c, input, x, b, g, j, us, more);
      if stuck {
        StoppedBack(Go(c, input, g), input, g.r, Emit(c.t, [u] + us), more, y, rest);
      } else {
        CodeNext(c, input, x, b, g, g', u, us, rest, more);
      }
    }
  }

  lemma CodeNext(c: Scan, input: seq<Byte>, x: seq<int>, b: seq<int>, g: Point, g': Point, u: Unit, us: seq<Unit>,
                 rest: nat, more: seq<bool>)
    requires Here(c, input, x, b, g) && Here(c, input, x, b, g') && TableOk(c) && rest + 1 < 32768 && g.k < g'.k
    requires rest == 0 || (g'.k <= c.se && !FreshAt(c, x, c.se))
    requires us == Units(c, x, g'.k, rest) && Codable(c.t, [u] + us) && Codable(c.t, us) && HasCode(c.t, u.symbol)
    requires Go(c, input, g) == Go(c, input, g')
    requires Moved(input, g.r, CodeOf(c.t, u.symbol) + u.extra, Emit(c.t, us) + more, g'.r)
    ensures GoBack(Go(c, input, g), input, g.r, Emit(c.t, [u] + us), more, Target(c, x, b, c.se + 1), rest)
    decreases c.se + 1 - g'.k, 1
  {
    hide Here, Feeds, Moved, Go, Emit, Codable, HasCode, CodeOf, Legal, GoBack, Units, FreshAt, Target;
    HereFacts(c, input, x, b, g');
    MovedOk(input, g.r, CodeOf(c.t, u.symbol) + u.extra, Emit(c.t, us) + more, g'.r);
    CodeRun(c, input, x, b, g', rest, more);
    EmitCons(c.t, u, us);
    GoBackLater(Go(c, input, g'), input, g.r, CodeOf(c.t, u.symbol) + u.extra, Emit(c.t, us), more, g'.r,
                Target(c, x, b, c.se + 1), rest);
  }

  lemma HereFacts(c: Scan, input: seq<Byte>, x: seq<int>, b: seq<int>, g: Point)
    requires Here(c, input, x, b, g)
    ensures ScanOk(c) && BandOk(c) && |x| == |b| == 64 && g.Ok(c, input) && c.ss <= g.k <= c.se + 1
  {
  }

  lemma CodeEnd(c: Scan, input: seq<Byte>, x: seq<int>, b: seq<int>, g: Point, more: seq<bool>)
    requires Here(c, input, x, b, g) && TableOk(c) && g.k > c.se
    requires Feeds(input, g.r, Emit(c.t, Units(c, x, g.k, 0)) + more)
    ensures GoBack(Go(c, input, g), input, g.r, Emit(c.t, Units(c, x, g.k, 0)), more, Target(c, x, b, c.se + 1), 0)
  {
    hide InUse, Target, Feeds, Moved, Legal;
    EmitNone(c.t);
    assert Emit(c.t, []) + more == more;
    MovedNone(input, g.r, more);
  }

  // ----- a call -----

  /** Block `b` has the coefficients of the band without their `n` low bits. */
  ghost predicate BandIs(c: Scan, x: seq<int>, b: seq<int>, n: nat) {
    |x| == 64 && |b| == 64 && forall p :: 0 <= p < 64 && c.ss <= Zigzag(p) <= c.se ==> b[p] == Approx(x[p], n)
  }

  /** Nothing outside the band differs. */
  ghost predicate SameOutside(c: Scan, b: seq<int>, y: seq<int>) {
    |b| == 64 && |y| == 64 && forall p :: 0 <= p < 64 && !(c.ss <= Zigzag(p) <= c.se) ==> y[p] == b[p]
  }

  lemma TargetEnds(c: Scan, x: seq<int>, b: seq<int>)
    requires BandOk(c) && |x| == 64 && BandIs(c, x, b, c.al + 1)
    ensures Target(c, x, b, c.ss) == b
    ensures BandIs(c, x, Target(c, x, b, c.se + 1), c.al) && SameOutside(c, b, Target(c, x, b, c.se + 1))
  {
    hide Zigzag, Approx;
    forall p | 0 <= p < 64 ensures Target(c, x, b, c.ss)[p] == b[p] {}
  }

  /** What the encoder may do at a block: with `e` blocks of an end of band left it goes on, otherwise it codes the
      block and lets an end of band count for `rest` more blocks, possible unless the last coefficient is new. */
  ghost predicate Planned(c: Scan, x: seq<int>, e: nat, rest: nat) {
    && BandOk(c) && TableOk(c) && Coefs(x) && |x| == 64
    && if e > 0 then NoFresh(c, x, c.ss, c.se + 1) && rest == e - 1
       else rest + 1 < 32768 && (rest == 0 || !FreshAt(c, x, c.se)) && Codable(c.t, Units(c, x, c.ss, rest))
  }

  ghost function BlockBits(c: Scan, x: seq<int>, e: nat, rest: nat): seq<bool>
    requires Planned(c, x, e, rest)
  {
    if e > 0 then FixBits(c, x, c.ss, c.se + 1) else Emit(c.t, Units(c, x, c.ss, rest))
  }

  /** What a call has to come to. */
  ghost predicate CallBack(c: Scan, o: Refined, input: seq<Byte>, r: Reader, w: seq<bool>, more: seq<bool>,
                           x: seq<int>, b: seq<int>, e: int) {
    match o
    case Again(_) => Stalls(input, r, |w|)
    case Refined(_, _, _) =>
      c.al >= 0 && BandIs(c, x, o.b, c.al) && SameOutside(c, b, o.b) && o.eobrun == e && Moved(input, r, w, more, o.r)
  }

  /** One block comes back refined, with EOBRUN and the reader where they should be. */
  lemma RefineRound(c: Scan, input: seq<Byte>, x: seq<int>, b: seq<int>, r: Reader, e: nat, rest: nat, more: seq<bool>)
    requires ScanOk(c) && Planned(c, x, e, rest) && BandIs(c, x, b, c.al + 1)
    requires Feeds(input, r, BlockBits(c, x, e, rest) + more)
    ensures r.Ok(input)
    ensures CallBack(c, Refine(c, input, b, r, e), input, r, BlockBits(c, x, e, rest), more, x, b, rest)
  {
    hide InUse, Legal, Feeds, Moved, Stalls, Go, GoBack, Target, Units, FixBits, Emit, Codable, BandIs, SameOutside,
         Undo, FreshAt, Coefs;
    FeedsReal(input, r, BlockBits(c, x, e, rest) + more);
    BandSize(c, x, b, c.al + 1);
    TargetEnds(c, x, b);
    var g := Start(c, b, r, e);
    GoPlaces(c, input, g);
    if e > 0 {
      TrailWalk(c, input, x, b, g, more);
    } else {
      assert Here(c, input, x, b, g);
      CodeRun(c, input, x, b, g, rest, more);
    }
    BackCall(c, Go(c, input, g), input, r, BlockBits(c, x, e, rest), more, x, b, rest);
  }

  lemma BandSize(c: Scan, x: seq<int>, b: seq<int>, n: nat)
    requires BandIs(c, x, b, n)
    ensures |x| == 64 && |b| == 64
  {
  }

  lemma FeedsReal(input: seq<Byte>, r: Reader, w: seq<bool>)
    requires Feeds(input, r, w)
    ensures r.Ok(input) && !r.starved
  {
  }

  lemma BackCall(c: Scan, o: Out, input: seq<Byte>, r: Reader, w: seq<bool>, more: seq<bool>, x: seq<int>, b: seq<int>,
                 e: int)
    requires BandOk(c) && |x| == 64 && |b| == 64 && GoBack(o, input, r, w, more, Target(c, x, b, c.se + 1), e)
    requires BandIs(c, x, Target(c, x, b, c.se + 1), c.al) && SameOutside(c, b, Target(c, x, b, c.se + 1))
    ensures o.Stopped? ==> forall y :: CallBack(c, Again(y), input, r, w, more, x, b, e)
    ensures o.Finished? ==> CallBack(c, Refined(o.b, o.r, o.eobrun), input, r, w, more, x, b, e)
  {
    hide Target, BandIs, SameOutside, Moved, Stalls;
  }

  // ----- a scan -----

  ghost predicate ScanPlanned(c: Scan, xs: seq<seq<int>>, rests: seq<nat>, e: nat)
    decreases |xs|
  {
    |rests| == |xs| && (xs == [] || (Planned(c, xs[0], e, rests[0]) && ScanPlanned(c, xs[1..], rests[1..], rests[0])))
  }

  ghost function ScanBits(c: Scan, xs: seq<seq<int>>, rests: seq<nat>, e: nat): seq<bool>
    requires ScanPlanned(c, xs, rests, e)
    decreases |xs|
  {
    if xs == [] then [] else BlockBits(c, xs[0], e, rests[0]) + ScanBits(c, xs[1..], rests[1..], rests[0])
  }

  ghost predicate AllBands(c: Scan, xs: seq<seq<int>>, bs: seq<seq<int>>, n: nat) {
    |bs| == |xs| && forall i :: 0 <= i < |xs| ==> BandIs(c, xs[i], bs[i], n)
  }

  ghost predicate AllSame(c: Scan, bs: seq<seq<int>>, ys: seq<seq<int>>) {
    |ys| == |bs| && forall i :: 0 <= i < |bs| ==> SameOutside(c, bs[i], ys[i])
  }

  lemma {:induction false} ScanRound(c: Scan, input: seq<Byte>, xs: seq<seq<int>>, rests: seq<nat>, bs: seq<seq<int>>,
                                     r: Reader, e: nat, more: seq<bool>)
    requires ScanOk(c) && BandOk(c) && ScanPlanned(c, xs, rests, e) && AllBands(c, xs, bs, c.al + 1) && Blocks(bs)
    requires Feeds(input, r, ScanBits(c, xs, rests, e) + more)
    ensures r.Ok(input)
    ensures var p := Chunked(c, input, [], bs, r, e);
            if p.Starving? then !AtEnd(input, r) else AllBands(c, xs, p.blocks, c.al) && AllSame(c, bs, p.blocks)
    decreases |xs|
  {
    hide Refine, ScanOk, Planned, BlockBits, BandIs, SameOutside, Moved, Stalls, Ahead, AtEnd;
    if xs != [] {
      var w, w2 := BlockBits(c, xs[0], e, rests[0]), ScanBits(c, xs[1..], rests[1..], rests[0]);
      assert (w + w2) + more == w + (w2 + more);
      RefineRound(c, input, xs[0], bs[0], r, e, rests[0], w2 + more);
      var o := Refine(c, input, bs[0], r, e);
      if o.Refined? {
        MovedOk(input, r, w, w2 + more, o.r);
        MovedEnd(input, r, w, w2 + more, o.r);
        ScanRound(c, input, xs[1..], rests[1..], bs[1..], o.r, rests[0], more);
      } else {
        StallsEnd(input, r, |w|);
      }
    }
  }

  /**
   A refinement scan of some blocks, packed into bytes, stuffed and with a marker behind it, turns the coefficients of
   the band without their `al + 1` low bits into those without the `al` low bits, and changes nothing else, however the
   data is cut.
   */
  lemma ScanRoundTrip(c: Scan, xs: seq<seq<int>>, rests: seq<nat>, bs: seq<seq<int>>, d: seq<Byte>, m: Byte,
                      after: seq<Byte>, input: seq<Byte>, chunks: seq<seq<Byte>>)
    requires ScanOk(c) && BandOk(c) && ScanPlanned(c, xs, rests, 0) && AllBands(c, xs, bs, c.al + 1) && Blocks(bs)
    requires ScanBits(c, xs, rests, 0) <= ByteBits(d) && m != 0 && m != 0xFF
    requires input + Concat(chunks) == Stuff(d) + [0xFF, m] + after
    ensures var p := Chunked(c, input, chunks, bs, Reader(0, 0, 0, 0, false), 0);
            p.Through? && AllBands(c, xs, p.blocks, c.al) && AllSame(c, bs, p.blocks)
  {
    hide ScanOk, ScanPlanned, ScanBits, Chunked, BandIs, SameOutside;
    var r, all := Reader(0, 0, 0, 0, false), input + Concat(chunks);
    ChunkedIsWhole(c, input, chunks, bs, r, 0);
    AllAhead(d, m, after, all);
    var w := ScanBits(c, xs, rests, 0);
    var rest := ByteBits(d)[|w|..];
    assert w + rest == ByteBits(d);
    ScanRound(c, all, xs, rests, bs, r, 0, rest);
  }
}
