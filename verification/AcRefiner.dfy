/**
 decode_mcu_AC_refine with its loops, working on the block in place, proved against Refine.
 */
module AcRefiner {
  import opened Bits
  import opened Huffman
  import opened HuffTables
  import opened BitReader
  import opened HuffDecode
  import opened ZigzagOrder
  import opened AcRefine
  import opened AcRerun
  import McuDecode

  /** Append a correction bit to the coefficient at place `p`. */
  method CorrectAt(block: array<int>, p: int, bit: int, al: nat)
    requires block.Length == 64 && 0 <= p < 64
    modifies block
    ensures block[..] == old(block[..])[p := Correct(old(block[p]), bit, al)]
  {
    hide HasBit, McuDecode.Coef, Pow2;
    if bit != 0 {
      if !HasBit(block[p], al) {
        if block[p] >= 0 {
          block[p] := McuDecode.Coef(block[p] + Pow2(al));
        } else {
          block[p] := McuDecode.Coef(block[p] - Pow2(al));
        }
      }
    }
  }

  /** Advance over nonzero coefficients, correcting them, and over `run` zeros. */
  method Advance(c: Scan, input: seq<Byte>, block: array<int>, k0: int, r0: Reader, run0: int, s: int,
      ghost made: seq<int>)
    returns (stuck: bool, k: int, r: Reader)
    requires ScanOk(c) && block.Length == 64 && Point(block[..], k0, r0, Skip(run0, s), made).Ok(c, input) && k0 <= c.se
    modifies block
    ensures r.Ok(input) && k0 <= k <= c.se + 1
    ensures var o := Go(c, input, Point(old(block[..]), k0, r0, Skip(run0, s), made));
            if stuck then o == Stopped(block[..], made)
            else 0 <= k < 80 && Placed(Point(block[..], k, r, Skip(0, s), made)).Ok(c, input)
                 && o == Go(c, input, Placed(Point(block[..], k, r, Skip(0, s), made)))
  {
    BandFacts(c);
    hide ScanOk, Go, Get, Natural, Correct, Placed;
    ghost var g := Point(block[..], k0, r0, Skip(run0, s), made);
    ghost var o := Go(c, input, g);
    k, r := k0, r0;
    var run := run0;
    while k <= c.se
      invariant k0 <= k <= c.se + 1 && g == Point(block[..], k, r, Skip(run, s), made) && g.Ok(c, input)
      invariant o == Go(c, input, g)
      decreases c.se - k
    {
      var p := Natural(k);
      if block[p] != 0 {
        CorrectGo(c, input, g);
        var got := GetBits(input, r, 1);
        if got.Stuck? {
          return true, k, r;
        }
        r := got.r;
        CorrectAt(block, p, got.value, c.al);
        g := CorrectedPoint(c, g, got.value, r);
      } else {
        run := run - 1;
        if run < 0 {
          PlaceGo(c, input, g);
          return false, k, r;
        }
        SkipGo(c, input, g);
        g := g.(k := g.k + 1, ph := Skip(run, s));
      }
      k := k + 1;
    }
    PlaceGo(c, input, g);
    stuck := false;
  }

  /** The coefficient at `k` with a correction bit. */
  function CorrectedPoint(c: Scan, g: Point, bit: int, r: Reader): Point
    requires |g.b| == 64 && 0 <= g.k < 80 && 0 <= c.al
  {
    g.(b := g.b[Natural(g.k) := Correct(g.b[Natural(g.k)], bit, c.al)], k := g.k + 1, r := r)
  }

  lemma CorrectGo(c: Scan, input: seq<Byte>, g: Point)
    requires ScanOk(c) && g.Ok(c, input) && !g.ph.AtCode? && 0 <= c.al && 0 <= g.k <= c.se <= 63
    requires g.b[Natural(g.k)] != 0
    ensures match Get(input, g.r, 1)
            case Stuck => Go(c, input, g) == Stopped(g.b, g.made)
            case Got(bit, r1) => CorrectedPoint(c, g, bit, r1).Ok(c, input)
                                 && Go(c, input, g) == Go(c, input, CorrectedPoint(c, g, bit, r1))
  {
    hide InUse, Get, Natural, Correct, Placed;
  }

  lemma SkipGo(c: Scan, input: seq<Byte>, g: Point)
    requires ScanOk(c) && g.Ok(c, input) && g.ph.Skip? && 0 <= c.al && 0 <= g.k <= c.se <= 63 && g.b[Natural(g.k)] == 0
    requires g.ph.run > 0
    ensures Go(c, input, g) == Go(c, input, g.(k := g.k + 1, ph := Skip(g.ph.run - 1, g.ph.s)))
  {
    hide InUse, Get, Natural, Correct, Placed;
  }

  lemma PlaceGo(c: Scan, input: seq<Byte>, g: Point)
    requires ScanOk(c) && g.Ok(c, input) && g.ph.Skip? && 0 <= g.k < 80
    requires g.k > c.se || (g.b[Natural(g.k)] == 0 && g.ph.run == 0)
    ensures Placed(g) == Placed(g.(ph := Skip(0, g.ph.s))) && Placed(g).Ok(c, input)
    ensures Go(c, input, g) == Go(c, input, Placed(g))
  {
    hide InUse, Get, Natural, Correct, McuDecode.Coef;
  }

  lemma TrailGo(c: Scan, input: seq<Byte>, g: Point)
    requires ScanOk(c) && g.Ok(c, input) && g.ph.Trail? && 0 <= c.al && 0 <= g.k < 80
    requires g.k > c.se || g.b[Natural(g.k)] == 0
    ensures if g.k > c.se then Go(c, input, g) == Finished(g.b, g.r, g.ph.eobrun - 1)
            else g.(k := g.k + 1).Ok(c, input) && Go(c, input, g) == Go(c, input, g.(k := g.k + 1))
  {
    hide InUse, Get, Natural, Correct;
  }

  /** The rest of the band after its end-of-band code: correction bits only. */
  method FinishBand(c: Scan, input: seq<Byte>, block: array<int>, k0: int, r0: Reader, eobrun: int,
      ghost made: seq<int>)
    returns (stuck: bool, r: Reader)
    requires ScanOk(c) && block.Length == 64 && Point(block[..], k0, r0, Trail(eobrun), made).Ok(c, input)
    modifies block
    ensures var o := Go(c, input, Point(old(block[..]), k0, r0, Trail(eobrun), made));
            if stuck then o == Stopped(block[..], made) else o == Finished(block[..], r, eobrun - 1)
  {
    BandFacts(c);
    hide ScanOk, Go, Get, Natural, Correct;
    ghost var g := Point(block[..], k0, r0, Trail(eobrun), made);
    ghost var o := Go(c, input, g);
    var k := k0;
    r := r0;
    while k <= c.se
      invariant k0 <= k <= c.se + 1 && g == Point(block[..], k, r, Trail(eobrun), made) && g.Ok(c, input)
      invariant o == Go(c, input, g)
    {
      var p := Natural(k);
      if block[p] != 0 {
        CorrectGo(c, input, g);
        var got := GetBits(input, r, 1);
        if got.Stuck? {
          return true, r;
        }
        r := got.r;
        CorrectAt(block, p, got.value, c.al);
        g := CorrectedPoint(c, g, got.value, r);
      } else {
        TrailGo(c, input, g);
        g := g.(k := g.k + 1);
      }
      k := k + 1;
    }
    TrailGo(c, input, g);
    stuck := false;
  }

  /** undoit */
  method UndoNew(block: array<int>, newnz: array<int>, num: int)
    requires block.Length == 64 && newnz.Length == 64 && block != newnz && 0 <= num <= 64 && Places(newnz[..num])
    modifies block
    ensures block[..] == Undo(old(block[..]), newnz[..num])
  {
    ghost var b, made := block[..], newnz[..num];
    var n := num;
    while n > 0
      invariant 0 <= n <= num && newnz[..num] == made && Undo(b, made) == Undo(block[..], newnz[..n])
    {
      n := n - 1;
      ghost var before := block[..];
      ghost var upto := newnz[..n + 1];
      assert upto[..n] == newnz[..n] && upto[n] == newnz[n];
      assert 0 <= made[n] < 64;
      block[newnz[n]] := 0;
      assert block[..] == before[newnz[n] := 0];
    }
    assert newnz[..0] == [];
  }

  datatype Coded = Starve | Coef(s: int, run: int, r: Reader) | EndOfBand(eobrun: int, r: Reader)

  /** What the run makes of a code read at `g`. */
  ghost predicate Leads(c: Scan, input: seq<Byte>, g: Point, x: Coded)
    requires ScanOk(c) && g.Ok(c, input) && g.k <= c.se
  {
    match x
    case Starve => Go(c, input, g) == Stopped(g.b, g.made)
    case Coef(s, run, r) => Follows(c, input, g, g.(r := r, ph := Skip(run, s)))
    case EndOfBand(e, r) => Follows(c, input, g, g.(r := r, ph := Trail(e)))
  }

  ghost predicate Follows(c: Scan, input: seq<Byte>, g: Point, g': Point)
    requires ScanOk(c) && g.Ok(c, input)
  {
    g'.Ok(c, input) && Go(c, input, g) == Go(c, input, g')
  }

  /** One code with what follows it: a new coefficient or a run of zeros to pass, or the end of the band. */
  method ReadCode(c: Scan, input: seq<Byte>, g: Reader, ghost b: seq<int>, ghost k: int, ghost made: seq<int>)
      returns (x: Coded)
    requires ScanOk(c) && Point(b, k, g, AtCode, made).Ok(c, input) && k <= c.se
    ensures x.EndOfBand? ==> x.eobrun > 0
    ensures Leads(c, input, Point(b, k, g, AtCode, made), x)
  {
    hide Fetch, Get, NewCoef, InUse, Go;
    GoStep(c, input, Point(b, k, g, AtCode, made));
    var y := DecodeSymbol(c.t, c.d, input, g);
    if y.NoSymbol? {
      return Starve;
    }
    var run, size := y.value / 16, y.value % 16;
    if size != 0 {
      var got := GetBits(input, y.r, 1);
      if got.Stuck? {
        return Starve;
      }
      return Coef(NewCoef(got.value, c.al), run, got.r);
    }
    if run != 15 {
      var got := GetBits(input, y.r, run);
      if got.Stuck? {
        return Starve;
      }
      return EndOfBand(Pow2(run) + got.value, got.r);
    }
    return Coef(0, 15, y.r);
  }

  /** The codes of a block, up to the end of its band; `newnz` collects the places made nonzero. */
  method ReadBand(c: Scan, input: seq<Byte>, block: array<int>, newnz: array<int>, r0: Reader)
    returns (stuck: bool, k: int, r: Reader, eobrun: int, num: int)
    requires ScanOk(c) && block.Length == 64 && newnz.Length == 64 && block != newnz && r0.Ok(input)
    requires Point(block[..], c.ss, r0, AtCode, []).Ok(c, input)
    modifies block, newnz
    ensures 0 <= num <= 64 && Places(newnz[..num])
    ensures var o := Go(c, input, Point(old(block[..]), c.ss, r0, AtCode, []));
            if stuck then o == Stopped(block[..], newnz[..num])
            else if eobrun > 0 then
              Point(block[..], k, r, Trail(eobrun), newnz[..num]).Ok(c, input)
              && o == Go(c, input, Point(block[..], k, r, Trail(eobrun), newnz[..num]))
            else eobrun == 0 && o == Finished(block[..], r, 0)
  {
    BandFacts(c);
    hide ScanOk, Go, Step, Natural, Places, Placed;
    ghost var g := Point(block[..], c.ss, r0, AtCode, []);
    ghost var o := Go(c, input, g);
    num, k, r, eobrun, stuck := 0, c.ss, r0, 0, false;
    PlacesNone(newnz[..0]);
    while k <= c.se
      invariant 0 <= num <= k - c.ss && num <= 64 && Places(newnz[..num]) && eobrun == 0 && !stuck
      invariant g == Point(block[..], k, r, AtCode, newnz[..num]) && g.Ok(c, input)
      invariant o == Go(c, input, g)
      decreases c.se - k
    {
      var x := ReadCode(c, input, r, g.b, k, g.made);
      if x.Starve? {
        stuck := true;
        return;
      }
      if x.EndOfBand? {
        eobrun, r := x.eobrun, x.r;
        return;
      }
      ghost var made := g.made;
      stuck, k, r := Advance(c, input, block, k, x.r, x.run, x.s, made);
      if stuck {
        return;
      }
      g := Placed(Point(block[..], k, r, Skip(0, x.s), made));
      num := Output(block, newnz, num, k, r, x.s);
      k := k + 1;
    }
    CodeOver(c, input, g);
  }

  /** Store a newly nonzero coefficient, if there is one, and remember its place. */
  method Output(block: array<int>, newnz: array<int>, num: int, k: int, r: Reader, s: int) returns (num': int)
    requires block.Length == 64 && newnz.Length == 64 && block != newnz && 0 <= num < 64 && 0 <= k < 80
    requires Places(newnz[..num])
    modifies block, newnz
    ensures num <= num' <= num + 1 && Places(newnz[..num'])
    ensures Point(block[..], k + 1, r, AtCode, newnz[..num'])
            == Placed(Point(old(block[..]), k, r, Skip(0, s), old(newnz[..num])))
  {
    hide Natural, McuDecode.Coef;
    num' := num;
    if s != 0 {
      ghost var made := newnz[..num];
      var p := Natural(k);
      block[p] := McuDecode.Coef(s);
      newnz[num] := p;
      num' := num + 1;
      assert newnz[..num'] == made + [p];
      PlacesPush(made, p);
    }
  }

  method RefineBlock(c: Scan, input: seq<Byte>, r0: Reader, eobrun0: int, block: array<int>)
      returns (ok: bool, r: Reader, eobrun: int)
    requires ScanOk(c) && block.Length == 64 && r0.Ok(input) && eobrun0 >= 0
    modifies block
    ensures match Refine(c, input, old(block[..]), r0, eobrun0)
            case Again(b) => !ok && block[..] == b
            case Refined(b, r', e) => ok && block[..] == b && r == r' && eobrun == e
  {
    BandFacts(c);
    hide ScanOk, Go, Places, Undo;
    r, eobrun := r0, eobrun0;
    if r0.starved {
      return true, r, eobrun;
    }
    GoPlaces0(c, input, Start(c, block[..], r0, eobrun0));
    var newnz := new int[64];
    var num, k, stuck := 0, c.ss, false;
    PlacesNone(newnz[..num]);
    if eobrun == 0 {
      stuck, k, r, eobrun, num := ReadBand(c, input, block, newnz, r);
    }
    if !stuck && eobrun > 0 {
      stuck, r := FinishBand(c, input, block, k, r, eobrun, newnz[..num]);
      eobrun := eobrun - 1;
    }
    if stuck {
      UndoNew(block, newnz, num);
      return false, r, eobrun;
    }
    return true, r, eobrun;
  }

  lemma GoPlaces0(c: Scan, input: seq<Byte>, g: Point)
    requires ScanOk(c) && g.Ok(c, input) && g.made == []
    ensures Go(c, input, g).Stopped? ==> Places(Go(c, input, g).made)
  {
    GoPlaces(c, input, g);
  }

  lemma PlacesNone(made: seq<int>)
    requires made == []
    ensures Places(made)
  {
  }

  lemma PlacesPush(made: seq<int>, p: int)
    requires Places(made) && 0 <= p < 64
    ensures Places(made + [p])
  {
  }

  lemma CodeOver(c: Scan, input: seq<Byte>, g: Point)
    requires ScanOk(c) && g.Ok(c, input) && g.ph.AtCode? && g.k > c.se
    ensures Go(c, input, g) == Finished(g.b, g.r, 0)
  {
  }
}
