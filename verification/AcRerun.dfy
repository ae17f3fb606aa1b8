/**
 Suspension of decode_mcu_AC_refine: running it again on the undone block with more data gives what one
 uninterrupted run on the original block gives.
 */
module AcRerun {
  import opened Bits
  import opened Huffman
  import opened HuffTables
  import opened BitReader
  import opened HuffDecode
  import opened ZigzagOrder
  import opened AcRefine
  import McuDecode

  // ----- more data -----

  lemma CorrectMore(c: Scan, input: seq<Byte>, more: seq<Byte>, g: Point)
    requires ScanOk(c) && g.Ok(c, input) && g.k <= c.se && !g.ph.AtCode?
    ensures StepCorrect(c, input, g) == Halt(Stopped(g.b, g.made))
            || StepCorrect(c, input + more, g) == StepCorrect(c, input, g)
  {
    hide Get, InUse, Correct, Natural;
    GetMore(input, more, g.r, 1);
  }

  lemma CodeMore(c: Scan, input: seq<Byte>, more: seq<Byte>, g: Point)
    requires ScanOk(c) && g.Ok(c, input) && g.ph.AtCode?
    ensures StepCode(c, input, g) == Halt(Stopped(g.b, g.made)) || StepCode(c, input + more, g) == StepCode(c, input, g)
  {
    hide Fetch, Get, InUse, NewCoef;
    if g.k <= c.se {
      DecodeMore(c.t, c.d, input, more, g.r);
      match Fetch(c.t, c.d, input, g.r)
      case NoSymbol =>
      case Decoded(v, r1) =>
        GetMore(input, more, r1, 1);
        if v % 16 == 0 { GetMore(input, more, r1, v / 16); }
    }
  }

  /** A step that is not stuck does the same with more data. */
  lemma StepMore(c: Scan, input: seq<Byte>, more: seq<Byte>, g: Point)
    requires ScanOk(c) && g.Ok(c, input)
    ensures g.Ok(c, input + more)
    ensures Step(c, input, g) == Halt(Stopped(g.b, g.made)) || Step(c, input + more, g) == Step(c, input, g)
  {
    hide InUse, StepCode, StepCorrect, Natural, Placed;
    match g.ph
    case AtCode => CodeMore(c, input, more, g);
    case Skip(_, _) => if g.k <= c.se { CorrectMore(c, input, more, g); }
    case Trail(_) => if g.k <= c.se { CorrectMore(c, input, more, g); }
  }

  lemma {:induction false} GoMore(c: Scan, input: seq<Byte>, more: seq<Byte>, g: Point)
    requires ScanOk(c) && g.Ok(c, input) && Go(c, input, g).Finished?
    ensures g.Ok(c, input + more) && Go(c, input + more, g) == Go(c, input, g)
    decreases c.se + 3 - g.k, g.Rank()
  {
    hide ScanOk, Step;
    StepMore(c, input, more, g);
    match Step(c, input, g)
    case Halt(_) =>
    case Move(g') => GoMore(c, input, more, g');
  }

  /** One step of the run. */
  lemma GoStep(c: Scan, input: seq<Byte>, g: Point)
    requires ScanOk(c) && g.Ok(c, input)
    ensures match Step(c, input, g)
            case Halt(o) => Go(c, input, g) == o
            case Move(g') => Go(c, input, g) == Go(c, input, g')
  {
    hide ScanOk, Step;
  }

  // ----- what a stuck run has done -----

  /** What a step does inside the band: nothing, or something at place `k` before going on to `k + 1`. */
  datatype Effect = Nothing | Corrected(bit: int) | Passed | Added(s: int)

  function EffectOn(c: Scan, b: seq<int>, k: int, e: Effect): (b': seq<int>)
    requires |b| == 64 && 0 <= k < 64 && 0 <= c.al
    ensures |b'| == 64
  {
    match e
    case Corrected(bit) => b[Natural(k) := Correct(b[Natural(k)], bit, c.al)]
    case Added(s) => b[Natural(k) := s]
    case _ => b
  }

  /** The step from `g` to `g'` has effect `e`. */
  ghost predicate Acts(c: Scan, g: Point, g': Point, e: Effect)
    requires |g.b| == 64 && 0 <= g.k < 64 && 0 <= c.al
  {
    var p := Natural(g.k);
    && g'.b == EffectOn(c, g.b, g.k, e)
    && g'.k == (if e.Nothing? then g.k else g.k + 1)
    && g'.made == (if e.Added? then g.made + [p] else g.made)
    && (e.Nothing? <==> g.ph.AtCode?)
    && (e.Corrected? ==> g.b[p] != 0) && (e.Passed? || e.Added? ==> g.b[p] == 0)
  }

  /** A step has an effect, and has the same one on a block with the same zeros at `k`. */
  lemma StepActs(c: Scan, input: seq<Byte>, g: Point, a: seq<int>) returns (e: Effect)
    requires ScanOk(c) && g.Ok(c, input) && g.k <= c.se && Step(c, input, g).Move? && |a| == 64
    ensures Acts(c, g, Step(c, input, g).g, e)
    ensures g.(b := a).Ok(c, input)
    ensures g.ph.AtCode? || (a[Natural(g.k)] == 0 <==> g.b[Natural(g.k)] == 0) ==>
              Step(c, input, g.(b := a)) == Move(Step(c, input, g).g.(b := EffectOn(c, a, g.k, e)))
  {
    hide Fetch, Get, InUse, Correct, Natural, NewCoef, McuDecode.Coef;
    var p := Natural(g.k);
    if g.ph.AtCode? {
      e := Nothing;
    } else if g.b[p] != 0 {
      e := Corrected(Get(input, g.r, 1).value);
    } else if g.ph.Skip? && g.ph.run == 0 && g.ph.s != 0 {
      e := Added(McuDecode.Coef(g.ph.s));
    } else {
      e := Passed;
    }
  }

  /** Behind the band nothing can get stuck. */
  lemma BehindBand(c: Scan, input: seq<Byte>, g: Point)
    requires ScanOk(c) && g.Ok(c, input) && g.k > c.se
    ensures Go(c, input, g).Finished?
  {
    hide InUse, Natural, McuDecode.Coef;
    if g.ph.Skip? {
      assert Step(c, input, g) == Move(Placed(g));
      assert Step(c, input, Placed(g)).Halt?;
    }
  }

  /** A step that stops the run inside the band stops it where it is. */
  lemma StopsHere(c: Scan, input: seq<Byte>, g: Point)
    requires ScanOk(c) && g.Ok(c, input) && Step(c, input, g).Halt? && Step(c, input, g).o.Stopped?
    ensures Step(c, input, g).o == Stopped(g.b, g.made)
  {
    hide Fetch, Get, InUse, Correct, Natural, NewCoef, McuDecode.Coef;
  }

  /** The places in `made` from number `n` on have zigzag positions from `k` on. */
  ghost predicate MadeFrom(made: seq<int>, n: int, k: int)
    requires Places(made) && 0 <= n
  {
    forall i :: n <= i < |made| ==> Zigzag(made[i]) >= k
  }

  ghost predicate MadeBefore(made: seq<int>, k: int)
    requires Places(made)
  {
    forall i :: 0 <= i < |made| ==> Zigzag(made[i]) < k
  }

  /** `a` and `b` are the same up to zigzag position `k`. */
  ghost predicate SameUpTo(a: seq<int>, b: seq<int>, k: int)
    requires |a| == 64 && |b| == 64
  {
    forall j :: 0 <= j < 64 && j < k ==> a[Natural(j)] == b[Natural(j)]
  }

  lemma EffectElsewhere(c: Scan, b: seq<int>, k: int, e: Effect, j: int)
    requires |b| == 64 && 0 <= k < 64 && 0 <= c.al && 0 <= j < 64 && j != k
    ensures EffectOn(c, b, k, e)[Natural(j)] == b[Natural(j)]
  {
    hide Natural, Correct;
    NaturalOnce(j, k);
  }

  lemma PlaceAt(made: seq<int>, k: int)
    requires Places(made) && 0 <= k < 64
    ensures Places(made + [Natural(k)])
  {
    hide Natural;
  }

  /** A run that gets stuck leaves the part behind it alone and makes places nonzero only ahead. */
  lemma {:induction false} StuckFrame(c: Scan, input: seq<Byte>, g: Point)
    requires ScanOk(c) && g.Ok(c, input) && Places(g.made) && Go(c, input, g).Stopped?
    ensures var o := Go(c, input, g);
            Places(o.made) && g.made <= o.made && MadeFrom(o.made, |g.made|, g.k) && SameUpTo(o.b, g.b, g.k)
                && g.k <= c.se
    decreases c.se + 3 - g.k, g.Rank()
  {
    hide ScanOk, Step, Natural, Zigzag, EffectOn;
    if g.k > c.se { BehindBand(c, input, g); }
    match Step(c, input, g)
    case Halt(_) => StopsHere(c, input, g);
    case Move(g') =>
      BandFacts(c);
      var e := StepActs(c, input, g, g.b);
      PlaceAt(g.made, g.k);
      StuckFrame(c, input, g');
      var o := Go(c, input, g);
      forall j | 0 <= j < 64 && j < g.k ensures o.b[Natural(j)] == g.b[Natural(j)] {
        EffectElsewhere(c, g.b, g.k, e, j);
      }
      ZigzagNatural(g.k);
      assert o.made[..|g'.made|] == g'.made;
      forall i | |g.made| <= i < |o.made| ensures Zigzag(o.made[i]) >= g.k {
        if i < |g'.made| { assert o.made[i] == g'.made[i]; }
      }
  }

  lemma BandFacts(c: Scan)
    requires ScanOk(c)
    ensures 1 <= c.ss <= c.se <= 63 && 0 <= c.al <= 13
  {
  }

  // ----- the second run -----

  /** The block of the second run: behind `k` as in the first run, from `k` on as the undone block `y`. */
  ghost predicate Between(a: seq<int>, b: seq<int>, y: seq<int>, k: int)
    requires |a| == 64 && |b| == 64 && |y| == 64
  {
    forall j :: 0 <= j < 64 ==> a[Natural(j)] == if j < k then b[Natural(j)] else y[Natural(j)]
  }

  lemma SameEverywhere(a: seq<int>, b: seq<int>)
    requires |a| == 64 && |b| == 64 && SameUpTo(a, b, 64)
    ensures a == b
  {
    forall p | 0 <= p < 64 ensures a[p] == b[p] {
      NaturalZigzag(p);
      assert a[Natural(Zigzag(p))] == b[Natural(Zigzag(p))];
    }
  }

  /** Places ahead are not among those made so far, so undoing leaves them. */
  lemma UndoAhead(b: seq<int>, made: seq<int>, k: int, j: int)
    requires |b| == 64 && Places(made) && MadeBefore(made, k) && k <= j < 64 && 0 <= j
    ensures Natural(j) !in made && Undo(b, made)[Natural(j)] == b[Natural(j)]
  {
    hide Natural, Zigzag;
    ZigzagNatural(j);
  }

  /** At the place of a step, the undone block shows what the step did there. */
  lemma UndoneAt(c: Scan, input: seq<Byte>, g: Point, g': Point, e: Effect)
    requires ScanOk(c) && g.Ok(c, input) && Places(g.made) && MadeBefore(g.made, g.k) && g.k <= c.se <= 63
    requires 0 <= c.al <= 13
    requires g'.Ok(c, input) && Acts(c, g, g', e) && !e.Nothing? && Places(g'.made) && Go(c, input, g').Stopped?
    ensures Places(Go(c, input, g').made)
    ensures var y := Undo(Go(c, input, g').b, Go(c, input, g').made);
            y[Natural(g.k)] == if e.Added? then 0 else EffectOn(c, g.b, g.k, e)[Natural(g.k)]
  {
    hide ScanOk, Step, Go, Natural, Zigzag, EffectOn;
    BandFacts(c);
    StuckFrame(c, input, g');
    var o, p := Go(c, input, g'), Natural(g.k);
    ZigzagNatural(g.k);
    if e.Added? {
      assert g'.made[|g.made|] == p;
      assert o.made[|g.made|] == p;
    } else {
      assert p !in o.made by {
        forall i | 0 <= i < |o.made| ensures Zigzag(o.made[i]) != g.k {
          if i < |g.made| { assert o.made[i] == g.made[i]; }
        }
      }
      assert o.b[p] == g'.b[p];
    }
  }

  lemma BetweenNext(c: Scan, a: seq<int>, g: Point, g': Point, y: seq<int>, e: Effect)
    requires |a| == 64 && |g.b| == 64 && |y| == 64 && 0 <= g.k < 64 && 0 <= c.al <= 13 && Acts(c, g, g', e)
    requires Between(a, g.b, y, g.k)
    requires !e.Nothing? ==> y[Natural(g.k)] == if e.Added? then 0 else EffectOn(c, g.b, g.k, e)[Natural(g.k)]
    ensures g.ph.AtCode? || (a[Natural(g.k)] == 0 <==> g.b[Natural(g.k)] == 0)
    ensures Between(EffectOn(c, a, g.k, e), g'.b, y, g'.k)
  {
    hide Natural, Correct;
    var p := Natural(g.k);
    assert a[p] == y[p];
    if e.Corrected? { CorrectTwice(g.b[p], e.bit, c.al); }
    if !e.Nothing? {
      forall j | 0 <= j < 64
        ensures EffectOn(c, a, g.k, e)[Natural(j)] == if j < g'.k then g'.b[Natural(j)] else y[Natural(j)]
      {
        if j != g.k {
          EffectElsewhere(c, a, g.k, e, j);
          EffectElsewhere(c, g.b, g.k, e, j);
        }
      }
    }
  }

  lemma MadeNext(c: Scan, g: Point, g': Point, e: Effect)
    requires |g.b| == 64 && 0 <= g.k < 64 && 0 <= c.al && Acts(c, g, g', e) && Places(g.made) && MadeBefore(g.made, g.k)
    ensures Places(g'.made) && MadeBefore(g'.made, g'.k)
  {
    hide Natural, Zigzag, EffectOn;
    ZigzagNatural(g.k);
  }

  /** As long as the first run was going, the second one does the same; from there on they are one. */
  lemma {:induction false} Rerun(c: Scan, input: seq<Byte>, more: seq<Byte>, g: Point, a: seq<int>)
    requires ScanOk(c) && g.Ok(c, input) && |a| == 64 && Places(g.made) && MadeBefore(g.made, g.k)
    requires Go(c, input, g).Stopped? && Places(Go(c, input, g).made)
    requires Between(a, g.b, Undo(Go(c, input, g).b, Go(c, input, g).made), g.k)
    ensures g.Ok(c, input + more) && g.(b := a).Ok(c, input + more)
    ensures Go(c, input + more, g.(b := a)) == Go(c, input + more, g)
    decreases c.se + 3 - g.k, g.Rank()
  {
    hide ScanOk, Step, Natural, Zigzag, EffectOn, Undo, Acts, Between, Places, MadeBefore;
    StepMore(c, input, more, g);
    StuckFrame(c, input, g);
    BandFacts(c);
    match Step(c, input, g)
    case Halt(_) =>
      StopsHere(c, input, g);
      StuckSame(g.b, a, g.made, g.k);
    case Move(g') =>
      var e := StepActs(c, input, g, a);
      MadeNext(c, g, g', e);
      ActsNothing(c, g, g', e);
      if !e.Nothing? { UndoneAt(c, input, g, g', e); }
      var o := Go(c, input, g);
      BetweenNext(c, a, g, g', Undo(o.b, o.made), e);
      StepMore(c, input, more, g.(b := a));
      Rerun(c, input, more, g', EffectOn(c, a, g.k, e));
  }

  lemma ActsNothing(c: Scan, g: Point, g': Point, e: Effect)
    requires |g.b| == 64 && 0 <= g.k < 64 && 0 <= c.al && Acts(c, g, g', e)
    ensures e.Nothing? <==> g.ph.AtCode?
  {
  }

  lemma StuckSame(b: seq<int>, a: seq<int>, made: seq<int>, k: int)
    requires |a| == 64 && |b| == 64 && Places(made) && MadeBefore(made, k) && 0 <= k && Between(a, b, Undo(b, made), k)
    ensures a == b
  {
    hide Natural, Zigzag, Undo;
    forall j | 0 <= j < 64 ensures a[Natural(j)] == b[Natural(j)] {
      if j >= k { UndoAhead(b, made, k, j); }
    }
    SameEverywhere(a, b);
  }

  // ----- calls -----

  /** decode_mcu_AC_refine that suspended: calling it again gives what a first call on the original block would. */
  lemma RefineAgain(c: Scan, input: seq<Byte>, more: seq<Byte>, b: seq<int>, r: Reader, eobrun: int)
    requires ScanOk(c) && |b| == 64 && r.Ok(input) && eobrun >= 0 && Refine(c, input, b, r, eobrun).Again?
    ensures r.Ok(input + more)
    ensures Refine(c, input + more, Refine(c, input, b, r, eobrun).b, r, eobrun)
            == Refine(c, input + more, b, r, eobrun)
  {
    hide ScanOk, Go, Natural, Zigzag, Undo;
    BandFacts(c);
    var g := Start(c, b, r, eobrun);
    GoPlaces(c, input, g);
    var o := Go(c, input, g);
    var y := Undo(o.b, o.made);
    StuckFrame(c, input, g);
    assert Between(y, b, y, c.ss) by {
      forall j | 0 <= j < 64 && j < c.ss ensures y[Natural(j)] == b[Natural(j)] {
        BehindStart(o.b, o.made, c.ss, j);
      }
    }
    Rerun(c, input, more, g, y);
    assert g.(b := y) == Start(c, y, r, eobrun);
  }

  lemma BehindStart(b: seq<int>, made: seq<int>, k: int, j: int)
    requires |b| == 64 && Places(made) && MadeFrom(made, 0, k) && 0 <= j < 64 && j < k
    ensures Undo(b, made)[Natural(j)] == b[Natural(j)]
  {
    hide Natural, Zigzag, Undo;
    ZigzagNatural(j);
  }

  /** A call that finished gives the same with more data behind. */
  lemma RefineMore(c: Scan, input: seq<Byte>, more: seq<Byte>, b: seq<int>, r: Reader, eobrun: int)
    requires ScanOk(c) && |b| == 64 && r.Ok(input) && eobrun >= 0 && Refine(c, input, b, r, eobrun).Refined?
    ensures r.Ok(input + more) && Refine(c, input + more, b, r, eobrun) == Refine(c, input, b, r, eobrun)
  {
    hide ScanOk, Go;
    BandFacts(c);
    if !r.starved { GoMore(c, input, more, Start(c, b, r, eobrun)); }
  }

  datatype Progress = Starving | Through(blocks: seq<seq<int>>, r: Reader, eobrun: int)

  function With(b: seq<int>, p: Progress): Progress {
    match p
    case Starving => Starving
    case Through(blocks, r, e) => Through([b] + blocks, r, e)
  }

  ghost predicate Blocks(bs: seq<seq<int>>) {
    forall i :: 0 <= i < |bs| ==> |bs[i]| == 64
  }

  /** Refine the blocks one after the other, calling again with one more piece whenever the routine suspends. */
  ghost function Chunked(c: Scan, input: seq<Byte>, chunks: seq<seq<Byte>>, bs: seq<seq<int>>, r: Reader,
      eobrun: int): Progress
    requires ScanOk(c) && Blocks(bs) && r.Ok(input) && eobrun >= 0
    decreases |bs|, |chunks|
  {
    hide Refine, ScanOk;
    if bs == [] then Through([], r, eobrun)
    else
      match Refine(c, input, bs[0], r, eobrun)
      case Refined(b, r', e) => With(b, Chunked(c, input, chunks, bs[1..], r', e))
      case Again(b) =>
        if chunks == [] then Starving
        else Chunked(c, input + chunks[0], chunks[1..], [b] + bs[1..], r, eobrun)
  }

  /** However the data is cut and however often the routine suspends, the blocks, EOBRUN and position are those of one
      uncut pass. */
  lemma {:induction false} ChunkedIsWhole(c: Scan, input: seq<Byte>, chunks: seq<seq<Byte>>, bs: seq<seq<int>>,
      r: Reader, eobrun: int)
    requires ScanOk(c) && Blocks(bs) && r.Ok(input) && eobrun >= 0
    ensures Chunked(c, input, chunks, bs, r, eobrun) == Chunked(c, input + Concat(chunks), [], bs, r, eobrun)
    decreases |bs|, |chunks|
  {
    hide Refine, ScanOk;
    var all := input + Concat(chunks);
    if bs != [] {
      match Refine(c, input, bs[0], r, eobrun)
      case Refined(b, r', e) =>
        RefineMore(c, input, Concat(chunks), bs[0], r, eobrun);
        ChunkedIsWhole(c, input, chunks, bs[1..], r', e);
      case Again(b) =>
        if chunks == [] {
          assert all == input;
        } else {
          var bs' := [b] + bs[1..];
          ChunkedIsWhole(c, input + chunks[0], chunks[1..], bs', r, eobrun);
          assert (input + chunks[0]) + Concat(chunks[1..]) == all;
          RefineAgain(c, input, Concat(chunks), bs[0], r, eobrun);
          assert bs'[1..] == bs[1..];
        }
    }
  }

  // ----- what a suspended call leaves behind -----

  /** `y` is `x` with correction bits appended to some of its nonzero coefficients. */
  ghost predicate OnlyCorrected(x: seq<int>, y: seq<int>, al: nat)
    requires |x| == 64 && |y| == 64
  {
    forall p :: 0 <= p < 64 ==> (x[p] == 0 ==> y[p] == 0)
                                && (x[p] != 0 ==> y[p] != 0 && (y[p] == x[p] || y[p] == Correct(x[p], 1, al)))
  }

  lemma CorrectBit(x: int, bit: int, al: nat)
    requires x != 0 && al <= 13
    ensures Correct(x, bit, al) != 0 && (Correct(x, bit, al) == x || Correct(x, bit, al) == Correct(x, 1, al))
  {
    CorrectTwice(x, bit, al);
  }

  /** From `k` on, the undone block has the zeros of the block the run was at, and corrected nonzeros. */
  lemma {:induction false} StuckCorrects(c: Scan, input: seq<Byte>, g: Point, j: int)
    requires ScanOk(c) && g.Ok(c, input) && Places(g.made) && MadeBefore(g.made, g.k) && Go(c, input, g).Stopped?
    requires g.k <= j < 64
    ensures Places(Go(c, input, g).made)
    ensures var x, y := g.b[Natural(j)], Undo(Go(c, input, g).b, Go(c, input, g).made)[Natural(j)];
            0 <= c.al && (x == 0 ==> y == 0) && (x != 0 ==> y != 0 && (y == x || y == Correct(x, 1, c.al)))
    decreases c.se + 3 - g.k, g.Rank()
  {
    hide ScanOk, Step, Natural, Zigzag, Undo, Acts, Correct, Places, MadeBefore;
    BandFacts(c);
    StuckFrame(c, input, g);
    match Step(c, input, g)
    case Halt(_) =>
      StopsHere(c, input, g);
      UndoAhead(g.b, g.made, g.k, j);
    case Move(g') =>
      var e := StepActs(c, input, g, g.b);
      MadeNext(c, g, g', e);
      ActsAt(c, g, g', e, j);
      if j >= g'.k { StuckCorrects(c, input, g', j); } else { UndoneAt(c, input, g, g', e); }
  }

  lemma ActsAt(c: Scan, g: Point, g': Point, e: Effect, j: int)
    requires |g.b| == 64 && 0 <= g.k < 64 && 0 <= c.al <= 13 && Acts(c, g, g', e) && g.k <= j < 64
    ensures g'.k == if e.Nothing? then g.k else g.k + 1
    ensures |g'.b| == 64 && (j >= g'.k ==> g'.b[Natural(j)] == g.b[Natural(j)])
    ensures j < g'.k ==> j == g.k && !e.Nothing?
    ensures !e.Nothing? ==>
              var x, y := g.b[Natural(g.k)], if e.Added? then 0 else EffectOn(c, g.b, g.k, e)[Natural(g.k)];
              (x == 0 ==> y == 0) && (x != 0 ==> y != 0 && (y == x || y == Correct(x, 1, c.al)))
  {
    hide Natural, Correct;
    if j != g.k { EffectElsewhere(c, g.b, g.k, e, j); }
    if e.Corrected? { CorrectBit(g.b[Natural(g.k)], e.bit, c.al); }
  }

  /** Suspension undoes exactly the coefficients that were zero at entry; the others are only corrected. */
  lemma AgainOnlyCorrects(c: Scan, input: seq<Byte>, b: seq<int>, r: Reader, eobrun: int)
    requires ScanOk(c) && |b| == 64 && r.Ok(input) && eobrun >= 0 && Refine(c, input, b, r, eobrun).Again?
    ensures 0 <= c.al && OnlyCorrected(b, Refine(c, input, b, r, eobrun).b, c.al)
  {
    hide ScanOk, Go, Natural, Zigzag, Undo, Correct;
    BandFacts(c);
    var g := Start(c, b, r, eobrun);
    GoPlaces(c, input, g);
    var o := Go(c, input, g);
    var y := Undo(o.b, o.made);
    StuckFrame(c, input, g);
    forall p | 0 <= p < 64
      ensures (b[p] == 0 ==> y[p] == 0) && (b[p] != 0 ==> y[p] != 0 && (y[p] == b[p] || y[p] == Correct(b[p], 1, c.al)))
    {
      NaturalZigzag(p);
      var j := Zigzag(p);
      if j < c.ss { BehindStart(o.b, o.made, c.ss, j); } else { StuckCorrects(c, input, g, j); }
    }
  }

  // ----- a suspended call has not met a marker -----

  lemma StepEnd(c: Scan, input: seq<Byte>, g: Point)
    requires ScanOk(c) && g.Ok(c, input)
    ensures match Step(c, input, g)
            case Halt(Stopped(_, _)) => !AtEnd(input, g.r)
            case Halt(_) => true
            case Move(g') => AtEnd(input, g.r) <==> AtEnd(input, g'.r)
  {
    hide Fetch, Get, InUse, Correct, Natural, NewCoef, McuDecode.Coef, AtEnd, Past, Next, Ahead;
    GetKeeps(input, g.r, 1);
    if g.ph.AtCode? && g.k <= c.se {
      DecodeAgrees(c.t, c.d, input, g.r);
      match Fetch(c.t, c.d, input, g.r)
      case NoSymbol =>
      case Decoded(v, r1) =>
        GetKeeps(input, r1, 1);
        if v % 16 == 0 { GetKeeps(input, r1, v / 16); }
    }
  }

  /** Past a marker the routine never suspends. */
  lemma {:induction false} GoEnd(c: Scan, input: seq<Byte>, g: Point)
    requires ScanOk(c) && g.Ok(c, input) && AtEnd(input, g.r)
    ensures Go(c, input, g).Finished?
    decreases c.se + 3 - g.k, g.Rank()
  {
    hide ScanOk, Step, AtEnd;
    StepEnd(c, input, g);
    match Step(c, input, g)
    case Halt(_) =>
    case Move(g') => GoEnd(c, input, g');
  }
}
