/**
 decode_mcu_AC_refine of components/gui/GUI/JPEG/jdphuff.c: one block of an AC refinement scan, section
 G.1.2.3 of ITU-T T.81, with the undo path that runs when the data ends early.
 */
module AcRefine {
  import opened Arith
  import opened Bits
  import opened Huffman
  import opened HuffTables
  import opened BitReader
  import opened HuffDecode
  import opened ZigzagOrder
  import McuDecode

  /** The table, the band Ss..Se and the bit position Al of the scan. */
  datatype Scan = Scan(t: Table, d: Derived, ss: int, se: int, al: int)

  /** What start_pass_phuff_decoder has checked. */
  ghost predicate ScanOk(c: Scan) {
    InUse(c.t, c.d) && 1 <= c.ss <= c.se <= 63 && 0 <= c.al <= 13
  }

  // ----- correction bits -----

  /** Arithmetic shift right. */
  function Shifted(x: int, al: nat): int { x / Pow2(al) }

  /** Bit `al` of a number in two's complement. */
  predicate HasBit(x: int, al: nat) {
    Shifted(x, al) % 2 == 1
  }

  /** Append a correction bit to a nonzero coefficient. */
  function Correct(x: int, bit: int, al: nat): int {
    if bit != 0 && !HasBit(x, al) then McuDecode.Coef(if x >= 0 then x + Pow2(al) else x - Pow2(al)) else x
  }

  lemma ShiftedBy(x: int, m: int, al: nat)
    ensures Shifted(x + m * Pow2(al), al) == Shifted(x, al) + m
  {
    ModShift(x, m, Pow2(al));
  }

  /** Adding or taking away one at a clear bit sets it. */
  lemma BitUp(x: int, al: nat)
    requires !HasBit(x, al)
    ensures HasBit(x + Pow2(al), al) && HasBit(x - Pow2(al), al)
  {
    hide Shifted, Pow2;
    ShiftedBy(x, 1, al);
    ShiftedBy(x, -1, al);
  }

  /** 65536 is an even multiple of any bit a correction touches. */
  lemma WordMultiple(q: int, al: nat) returns (t: int)
    requires al <= 13
    ensures 65536 * q == (2 * t) * Pow2(al)
  {
    var p, h := Pow2(al), Pow2(15 - al);
    assert p * h == 32768 by {
      Pow2Add(al, 15 - al);
      Pow2Add(8, 7);
      assert Pow2(8) == 256 && Pow2(7) == 128;
    }
    t := h * q;
    Regroup(p, h, q);
  }

  lemma Regroup(p: int, h: int, q: int)
    requires p * h == 32768
    ensures 65536 * q == (2 * (h * q)) * p
  {
    assert (h * q) * p == (p * h) * q;
  }

  lemma NegMul(m: int, p: int)
    ensures (-m) * p == -(m * p)
  {
  }

  /** The cast to 16 bits keeps the low bits. */
  lemma CoefBit(x: int, al: nat)
    requires al <= 13
    ensures HasBit(McuDecode.Coef(x), al) <==> HasBit(x, al)
  {
    var q := CoefIs(x);
    var t := WordMultiple(q, al);
    hide Shifted, Pow2, McuDecode.Coef;
    NegMul(2 * t, Pow2(al));
    ShiftedBy(x, -(2 * t), al);
    assert McuDecode.Coef(x) == x + (-(2 * t)) * Pow2(al);
    EvenLess(Shifted(x, al), t);
  }

  lemma EvenLess(s: int, t: int)
    ensures (s + -(2 * t)) % 2 == s % 2
  {
  }

  lemma CoefIs(x: int) returns (q: int)
    ensures McuDecode.Coef(x) == x - 65536 * q
  {
    q := (x + 32768) / 65536;
  }

  /** Appending the same bit again changes nothing, and a nonzero coefficient stays nonzero. */
  lemma CorrectTwice(x: int, bit: int, al: nat)
    requires x != 0 && al <= 13
    ensures Correct(Correct(x, bit, al), bit, al) == Correct(x, bit, al) && Correct(x, bit, al) != 0
  {
    hide McuDecode.Coef, HasBit, Pow2;
    if bit != 0 && !HasBit(x, al) {
      BitUp(x, al);
      CoefBit(if x >= 0 then x + Pow2(al) else x - Pow2(al), al);
      ZeroBit(al);
    }
  }

  lemma ZeroBit(al: nat)
    ensures !HasBit(0, al)
  {
    DivMod(0, 0, 0, Pow2(al));
  }

  // ----- the run over a block -----

  /** Before a code; advancing to the place of a new coefficient `s` over `run` zeros; past the end of band. */
  datatype Phase = AtCode | Skip(run: int, s: int) | Trail(eobrun: int)

  /** The block, the zigzag position, the reader, the phase, and the places made nonzero so far. */
  datatype Point = Point(b: seq<int>, k: int, r: Reader, ph: Phase, made: seq<int>) {
    predicate Ok(c: Scan, input: seq<Byte>) {
      && |b| == 64 && r.Ok(input) && c.ss <= k
      && match ph
         case AtCode => k <= c.se + 2
         case Skip(run, s) => k <= c.se + 1 && 0 <= run <= 15
         case Trail(e) => k <= c.se + 1 && e > 0
    }

    function Rank(): int { if ph.AtCode? then 1 else 0 }
  }

  datatype Out = Stopped(b: seq<int>, made: seq<int>) | Finished(b: seq<int>, r: Reader, eobrun: int)

  datatype Move = Halt(o: Out) | Move(g: Point)

  /** A step ends the run or gets closer to its end. */
  predicate Forward(c: Scan, input: seq<Byte>, g: Point, m: Move) {
    match m
    case Halt(o) => |o.b| == 64 && (o.Finished? ==> o.r.Ok(input) && o.eobrun >= 0)
    case Move(g') => g'.Ok(c, input) && (g'.k > g.k || (g'.k == g.k && g'.Rank() < g.Rank()))
  }

  /** A newly nonzero coefficient: one in the bit position being coded, with its sign. */
  function NewCoef(bit: int, al: nat): int {
    var one: int := Pow2(al);
    if bit != 0 then one else -one
  }

  /** Decode a code: a new coefficient and its sign, the end of the band, or a run of 16 zeros. */
  function StepCode(c: Scan, input: seq<Byte>, g: Point): (m: Move)
    requires ScanOk(c) && g.Ok(c, input) && g.ph.AtCode?
    ensures Forward(c, input, g, m)
  {
    hide Fetch, Get, InUse;
    if g.k > c.se then Halt(Finished(g.b, g.r, 0))
    else
      match Fetch(c.t, c.d, input, g.r)
      case NoSymbol => Halt(Stopped(g.b, g.made))
      case Decoded(v, r1) =>
        var run, size := v / 16, v % 16;
        if size != 0 then
          (match Get(input, r1, 1)
           case Stuck => Halt(Stopped(g.b, g.made))
           case Got(bit, r2) => Move(g.(r := r2, ph := Skip(run, NewCoef(bit, c.al)))))
        else if run != 15 then
          (match Get(input, r1, run)
           case Stuck => Halt(Stopped(g.b, g.made))
           case Got(extra, r2) => Move(g.(r := r2, ph := Trail(Pow2(run) + extra))))
        else Move(g.(r := r1, ph := Skip(15, 0)))
  }

  /** Append a correction bit to the nonzero coefficient at `k`. */
  function StepCorrect(c: Scan, input: seq<Byte>, g: Point): (m: Move)
    requires ScanOk(c) && g.Ok(c, input) && g.k <= c.se && !g.ph.AtCode?
    ensures Forward(c, input, g, m)
  {
    hide Get, InUse, Correct, Natural;
    match Get(input, g.r, 1)
    case Stuck => Halt(Stopped(g.b, g.made))
    case Got(bit, r1) =>
      var p := Natural(g.k);
      Move(g.(b := g.b[p := Correct(g.b[p], bit, c.al)], k := g.k + 1, r := r1))
  }

  /** Output the newly nonzero coefficient, if there is one, and go to the next code. */
  function Placed(g: Point): Point
    requires |g.b| == 64 && 0 <= g.k < 80 && g.ph.Skip?
  {
    var p := Natural(g.k);
    if g.ph.s != 0 then g.(b := g.b[p := McuDecode.Coef(g.ph.s)], k := g.k + 1, ph := AtCode, made := g.made + [p])
    else g.(k := g.k + 1, ph := AtCode)
  }

  function StepSkip(c: Scan, input: seq<Byte>, g: Point): (m: Move)
    requires ScanOk(c) && g.Ok(c, input) && g.ph.Skip?
    ensures Forward(c, input, g, m)
  {
    hide InUse, Natural, StepCorrect;
    if g.k > c.se then Move(Placed(g))
    else if g.b[Natural(g.k)] != 0 then StepCorrect(c, input, g)
    else if g.ph.run == 0 then Move(Placed(g))
    else Move(g.(k := g.k + 1, ph := Skip(g.ph.run - 1, g.ph.s)))
  }

  function StepTrail(c: Scan, input: seq<Byte>, g: Point): (m: Move)
    requires ScanOk(c) && g.Ok(c, input) && g.ph.Trail?
    ensures Forward(c, input, g, m)
  {
    hide InUse, Natural, StepCorrect;
    if g.k > c.se then Halt(Finished(g.b, g.r, g.ph.eobrun - 1))
    else if g.b[Natural(g.k)] != 0 then StepCorrect(c, input, g)
    else Move(g.(k := g.k + 1))
  }

  function Step(c: Scan, input: seq<Byte>, g: Point): (m: Move)
    requires ScanOk(c) && g.Ok(c, input)
    ensures Forward(c, input, g, m)
  {
    hide ScanOk, StepCode, StepSkip, StepTrail;
    match g.ph
    case AtCode => StepCode(c, input, g)
    case Skip(_, _) => StepSkip(c, input, g)
    case Trail(_) => StepTrail(c, input, g)
  }

  function Go(c: Scan, input: seq<Byte>, g: Point): (o: Out)
    requires ScanOk(c) && g.Ok(c, input)
    ensures |o.b| == 64 && (o.Finished? ==> o.r.Ok(input) && o.eobrun >= 0)
    decreases c.se + 3 - g.k, g.Rank()
  {
    hide ScanOk, Step;
    match Step(c, input, g)
    case Halt(o) => o
    case Move(g') => Go(c, input, g')
  }

  // ----- undo -----

  /** undoit: zero the places made nonzero, the last one first. */
  function Undo(b: seq<int>, made: seq<int>): (u: seq<int>)
    requires Places(made) && |b| == 64
    ensures |u| == 64 && forall p :: 0 <= p < 64 ==> u[p] == if p in made then 0 else b[p]
    decreases |made|
  {
    if made == [] then b
    else
      var n := |made| - 1;
      var u := Undo(b[made[n] := 0], made[..n]);
      assert forall p :: p in made <==> p == made[n] || p in made[..n];
      u
  }

  ghost predicate Places(made: seq<int>) {
    forall i :: 0 <= i < |made| ==> 0 <= made[i] < 64
  }

  lemma StepPlaces(c: Scan, input: seq<Byte>, g: Point)
    requires ScanOk(c) && g.Ok(c, input) && Places(g.made)
    ensures match Step(c, input, g)
            case Halt(Stopped(_, made)) => Places(made)
            case Halt(Finished(_, _, _)) => true
            case Move(g') => Places(g'.made)
  {
    hide Fetch, Get, InUse, Natural, Correct, McuDecode.Coef;
  }

  lemma {:induction false} GoPlaces(c: Scan, input: seq<Byte>, g: Point)
    requires ScanOk(c) && g.Ok(c, input) && Places(g.made)
    ensures Go(c, input, g).Stopped? ==> Places(Go(c, input, g).made)
    decreases c.se + 3 - g.k, g.Rank()
  {
    hide ScanOk, Step;
    StepPlaces(c, input, g);
    match Step(c, input, g)
    case Halt(_) =>
    case Move(g') => GoPlaces(c, input, g');
  }

  // ----- one call -----

  datatype Refined = Again(b: seq<int>) | Refined(b: seq<int>, r: Reader, eobrun: int)

  function Start(c: Scan, b: seq<int>, r: Reader, eobrun: int): Point {
    Point(b, c.ss, r, if eobrun == 0 then AtCode else Trail(eobrun), [])
  }

  /** decode_mcu_AC_refine after restart processing: the block to keep, and the new saved state unless suspended. */
  function Refine(c: Scan, input: seq<Byte>, b: seq<int>, r: Reader, eobrun: int): (o: Refined)
    requires ScanOk(c) && |b| == 64 && r.Ok(input) && eobrun >= 0
    ensures |o.b| == 64 && (o.Refined? ==> o.r.Ok(input) && o.eobrun >= 0)
  {
    hide Go;
    if r.starved then Refined(b, r, eobrun)
    else
      GoPlaces(c, input, Start(c, b, r, eobrun));
      match Go(c, input, Start(c, b, r, eobrun))
      case Stopped(b', made) => Again(Undo(b', made))
      case Finished(b', r', e) => Refined(b', r', e)
  }
}
