/**
 Decoding undoes encoding: the sequential Huffman encoder of sections F.1.2.1 and F.1.2.2 of ITU-T T.81, and
 the proof that decode_mcu gives the coefficients back, however the data is cut.
 */
module McuEncode {
  import opened Bits
  import opened Huffman
  import opened HuffTables
  import opened BitReader
  import opened HuffDecode
  import opened ZigzagOrder
  import opened McuDecode
  import opened McuChunks
  import opened Encoding

  // ----- the encoder -----

  /** The next nonzero coefficient in zigzag order, 64 if there is none. */
  function NextNonzero(x: seq<int>, k: int): (j: int)
    requires |x| == 64 && 0 <= k <= 64
    ensures k <= j <= 64 && (j < 64 ==> x[Natural(j)] != 0)
    ensures forall i :: k <= i < j ==> x[Natural(i)] == 0
    decreases 64 - k
  {
    hide Natural;
    if k == 64 || x[Natural(k)] != 0 then k else NextNonzero(x, k + 1)
  }

  /** The AC coefficients from zigzag position `k` on: run and size, a run of 16 zeros, or the end of the block. */
  function AcUnits(x: seq<int>, k: int): seq<Unit>
    requires |x| == 64 && 1 <= k <= 64
    decreases 64 - k
  {
    hide Natural;
    if k == 64 then []
    else
      var j := NextNonzero(x, k);
      if j == 64 then [Unit(0x00, [])]
      else if j - k >= 16 then [Unit(0xF0, [])] + AcUnits(x, k + 16)
      else
        var v := x[Natural(j)];
        [Unit(16 * (j - k) + Size(Abs(v)), Appended(v))] + AcUnits(x, j + 1)
  }

  function DcUnit(diff: int): Unit {
    Unit(Size(Abs(diff)), Appended(diff))
  }

  /** Coefficients of a block that the coding can express. */
  ghost predicate InRange(x: seq<int>) {
    |x| == 64 && forall p :: 0 <= p < 64 ==> -32768 < x[p] < 32768
  }

  // ----- the AC coefficients -----

  /** Memory `c` with the nonzero coefficients of `x` from zigzag position `k` on in block `blk`. */
  function Laid(c: seq<int>, blk: int, x: seq<int>, k: int, needed: bool): (m: seq<int>)
    requires |x| == 64
    ensures |m| == |c|
  {
    seq(|c|, i requires 0 <= i < |c| =>
      if needed && i / 64 == blk && Zigzag(i % 64) >= k && x[i % 64] != 0 then x[i % 64] else c[i])
  }

  lemma LaidNone(c: seq<int>, blk: int, x: seq<int>, k: int, needed: bool)
    requires |x| == 64 && 0 <= k <= 64 && (k == 64 || NextNonzero(x, k) == 64)
    ensures Laid(c, blk, x, k, needed) == c
  {
    hide Zigzag, Natural;
    forall i | 0 <= i < |c| ensures Laid(c, blk, x, k, needed)[i] == c[i] {
      NaturalZigzag(i % 64);
      assert x[Natural(Zigzag(i % 64))] == x[i % 64];
    }
  }

  /** Zeros may be passed over. */
  lemma LaidPass(c: seq<int>, blk: int, x: seq<int>, k: int, k': int, needed: bool)
    requires |x| == 64 && 0 <= k <= 64 && k <= k' <= NextNonzero(x, k)
    ensures Laid(c, blk, x, k, needed) == Laid(c, blk, x, k', needed)
  {
    hide Zigzag, Natural;
    forall i | 0 <= i < |c| ensures Laid(c, blk, x, k, needed)[i] == Laid(c, blk, x, k', needed)[i] {
      NaturalZigzag(i % 64);
      assert x[Natural(Zigzag(i % 64))] == x[i % 64];
    }
  }

  lemma LaidOne(c: seq<int>, blk: int, x: seq<int>, j: int, needed: bool)
    requires |x| == 64 && 0 <= j < 64 && 0 <= blk < |c| / 64 && x[Natural(j)] != 0
    ensures var at := blk * 64 + Natural(j);
            0 <= at < |c|
            && Laid(if needed then c[at := x[Natural(j)]] else c, blk, x, j + 1, needed) == Laid(c, blk, x, j, needed)
  {
    hide Zigzag, Natural;
    var p := Natural(j);
    var at := blk * 64 + p;
    ZigzagNatural(j);
    var c' := if needed then c[at := x[p]] else c;
    forall i | 0 <= i < |c| ensures Laid(c', blk, x, j + 1, needed)[i] == Laid(c, blk, x, j, needed)[i] {
      NaturalZigzag(i % 64);
      assert i == at <==> i / 64 == blk && i % 64 == p;
    }
  }

  /** What decoding the AC coefficients has to come to. */
  ghost predicate AcBack(o: Out, input: seq<Byte>, r: Reader, w: seq<bool>, rest: seq<bool>, c: seq<int>, m: seq<int>) {
    match o
    case Stop(_, _) => Stalls(input, r, |w|)
    case Done(_, _) => Moved(input, r, w, rest, o.r) && Inside(o.writes, |c| / 64) && Apply(c, o.writes) == m
  }

  lemma ApplyFirst(c: seq<int>, w: Write, ws: seq<Write>)
    requires Inside([w] + ws, |c| / 64)
    ensures Inside(ws, |c| / 64) && 0 <= Loc(w) < |c| && Apply(c, [w] + ws) == Apply(c[Loc(w) := w.value], ws)
  {
    var all := [w] + ws;
    assert all[0] == w && all[1..] == ws;
    forall i | 0 <= i < |ws| ensures ws[i] == all[i + 1] {}
  }

  /** The end of the block. */
  lemma AcEob(t: Table, d: Derived, input: seq<Byte>, r: Reader, x: seq<int>, k: int, blk: int, needed: bool,
              c: seq<int>, rest: seq<bool>)
    requires InUse(t, d) && |x| == 64 && 1 <= k < 64 && NextNonzero(x, k) == 64 && Codable(t, AcUnits(x, k))
    requires Feeds(input, r, Emit(t, AcUnits(x, k)) + rest)
    ensures r.Ok(input)
    ensures AcBack(AcFrom(t, d, input, r, blk, needed, k), input, r, Emit(t, AcUnits(x, k)), rest, c,
                   Laid(c, blk, x, k, needed))
  {
    hide Fetch, Get, InUse, Natural, AcFrom, HasCode, CodeOf, Ahead, AtEnd, Moved, Stalls;
    var u := Unit(0x00, []);
    assert AcUnits(x, k) == [u] + [];
    TableFacts(t, d);
    EmitCons(t, u, []);
    FetchUnit(t, d, input, r, u, [], rest);
    AcStep(t, d, input, r, blk, needed, k);
    LaidNone(c, blk, x, k, needed);
    assert Emit(t, []) == [];
    assert Emit(t, [u] + []) == CodeOf(t, u.symbol);
    assert u.extra + (Emit(t, []) + rest) == rest;
  }

  /** One unit and the bits behind its code have been read: the decoder is at `r2` and goes on from `k2`. */
  ghost predicate Stepped(t: Table, d: Derived, input: seq<Byte>, r: Reader, k: int, blk: int, needed: bool,
                          w: seq<bool>, more: seq<bool>, ws: seq<Write>, r2: Reader, k2: int)
    requires InUse(t, d) && r.Ok(input) && 1 <= k <= k2
  {
    && Moved(input, r, w, more, r2) && r2.Ok(input)
    && AcFrom(t, d, input, r, blk, needed, k) == After(ws, AcFrom(t, d, input, r2, blk, needed, k2))
  }

  lemma ZrlStep(t: Table, d: Derived, input: seq<Byte>, r: Reader, us: seq<Unit>, k: int, blk: int, needed: bool,
                rest: seq<bool>) returns (r2: Reader, stuck: bool)
    requires InUse(t, d) && 1 <= k < 64 && Codable(t, [Unit(0xF0, [])] + us)
    requires Feeds(input, r, Emit(t, [Unit(0xF0, [])] + us) + rest)
    ensures r.Ok(input) && HasCode(t, 0xF0) && Codable(t, us)
    ensures if stuck
            then AcFrom(t, d, input, r, blk, needed, k).Stop? && Stalls(input, r, |Emit(t, [Unit(0xF0, [])] + us)|)
            else Stepped(t, d, input, r, k, blk, needed, CodeOf(t, 0xF0), Emit(t, us) + rest, [], r2, k + 16)
  {
    hide Fetch, Get, InUse, Natural, AcFrom, HasCode, CodeOf, Ahead, AtEnd, Moved, Stalls, Codable, Emit;
    TableFacts(t, d);
    var u := Unit(0xF0, []);
    FetchUnit(t, d, input, r, u, us, rest);
    AcStep(t, d, input, r, blk, needed, k);
    r2, stuck := r, Fetch(t, d, input, r).NoSymbol?;
    if !stuck {
      r2 := Fetch(t, d, input, r).r;
      assert u.extra + (Emit(t, us) + rest) == Emit(t, us) + rest;
      MovedOk(input, r, CodeOf(t, 0xF0), Emit(t, us) + rest, r2);
      var o := AcFrom(t, d, input, r2, blk, needed, k + 16);
      assert After([], o) == o;
    }
  }

  lemma CoefStep(t: Table, d: Derived, input: seq<Byte>, r: Reader, us: seq<Unit>, k: int, run: int, v: int, blk: int,
                 needed: bool, rest: seq<bool>) returns (r2: Reader, stuck: bool)
    requires InUse(t, d) && 1 <= k && 0 <= run <= 15 && k + run < 64 && v != 0 && -32768 < v < 32768
    requires Codable(t, [Unit(16 * run + Size(Abs(v)), Appended(v))] + us)
    requires Feeds(input, r, Emit(t, [Unit(16 * run + Size(Abs(v)), Appended(v))] + us) + rest)
    ensures r.Ok(input) && HasCode(t, 16 * run + Size(Abs(v))) && Codable(t, us)
    ensures var u := Unit(16 * run + Size(Abs(v)), Appended(v));
            if stuck then AcFrom(t, d, input, r, blk, needed, k).Stop? && Stalls(input, r, |Emit(t, [u] + us)|)
            else Stepped(t, d, input, r, k, blk, needed, CodeOf(t, u.symbol) + u.extra, Emit(t, us) + rest,
                         if needed then [Write(blk, Natural(k + run), v)] else [], r2, k + run + 1)
  {
    hide Fetch, Get, InUse, Natural, AcFrom, HasCode, CodeOf, Ahead, AtEnd, Moved, Stalls, Feeds, Codable, Emit, Extend,
         Appended, Size;
    TableFacts(t, d);
    var n := Size(Abs(v));
    var u := Unit(16 * run + n, Appended(v));
    EmitCons(t, u, us);
    var more := Emit(t, us) + rest;
    CoefSize(v);
    AppendedBack(v);
    FeedsOk(input, r, Emit(t, [u] + us) + rest);
    FetchUnit(t, d, input, r, u, us, rest);
    CoefCase(t, d, input, r, k, run, n, blk, needed);
    r2, stuck := r, Fetch(t, d, input, r).NoSymbol?;
    if !stuck {
      var w, r1 := CodeOf(t, u.symbol), Fetch(t, d, input, r).r;
      MovedOk(input, r, w, u.extra + more, r1);
      GetFeeds(input, r1, u.extra, more);
      stuck := Get(input, r1, n).Stuck?;
      if stuck {
        StallsLater(input, r, w, u.extra + more, r1, 0);
        StallsMore(input, r, |w|, |Emit(t, [u] + us)|);
      } else {
        r2 := Get(input, r1, n).r;
        MovedTrans(input, r, w, u.extra, more, r1, r2);
        MovedOk(input, r1, u.extra, more, r2);
      }
    }
  }

  /** The AC loop at a symbol with run and size. */
  lemma CoefCase(t: Table, d: Derived, input: seq<Byte>, r: Reader, k: int, run: int, n: int, blk: int, needed: bool)
    requires InUse(t, d) && r.Ok(input) && 1 <= k && 0 <= run <= 15 && k + run < 64 && 1 <= n <= 15
    ensures Fetch(t, d, input, r).NoSymbol? ==> AcFrom(t, d, input, r, blk, needed, k).Stop?
    ensures Fetch(t, d, input, r).Decoded? && Fetch(t, d, input, r).value == 16 * run + n ==>
              var g := Get(input, Fetch(t, d, input, r).r, n);
              && (g.Stuck? ==> AcFrom(t, d, input, r, blk, needed, k).Stop?)
              && (g.Got? ==>
                    AcFrom(t, d, input, r, blk, needed, k)
                    == After(if needed then [Write(blk, Natural(k + run), Coef(Extend(g.value, n)))] else [],
                             AcFrom(t, d, input, g.r, blk, needed, k + run + 1)))
  {
    hide InUse, Fetch, Get, AcFrom, Natural, Extend, Coef;
    AcStep(t, d, input, r, blk, needed, k);
  }

  lemma CoefSize(v: int)
    requires v != 0 && -32768 < v < 32768
    ensures 1 <= Size(Abs(v)) <= 15 && Coef(v) == v
  {
    SizeIs(Abs(v));
    assert Pow2(15) == 32768 by { Pow2Add(8, 7); assert Pow2(8) == 256 && Pow2(7) == 128; }
    SizeBound(Abs(v), 15);
  }

  lemma FeedsOk(input: seq<Byte>, r: Reader, w: seq<bool>)
    requires Feeds(input, r, w)
    ensures r.Ok(input)
  {
  }

  /** The rest of the block decodes as it should, and so does the block. */
  lemma AcJoin(t: Table, d: Derived, input: seq<Byte>, r: Reader, k: int, blk: int, needed: bool, w: seq<bool>,
               w2: seq<bool>, rest: seq<bool>, ws: seq<Write>, r2: Reader, k2: int, c: seq<int>, c2: seq<int>,
               m: seq<int>)
    requires InUse(t, d) && r.Ok(input) && 1 <= k <= k2 && 0 <= blk < |c| / 64 && |c2| == |c|
    requires Stepped(t, d, input, r, k, blk, needed, w, w2 + rest, ws, r2, k2)
    requires r2.Ok(input) && AcBack(AcFrom(t, d, input, r2, blk, needed, k2), input, r2, w2, rest, c2, m)
    requires ws == [] ==> c2 == c
    requires ws != [] ==> |ws| == 1 && 0 <= Loc(ws[0]) < |c| && c2 == c[Loc(ws[0]) := ws[0].value]
    ensures AcBack(AcFrom(t, d, input, r, blk, needed, k), input, r, w + w2, rest, c, m)
  {
    hide InUse, AcFrom, Moved, Stalls, Inside, Apply, Loc;
    AcInside(t, d, input, r, blk, needed, k, |c| / 64);
    BackJoin(AcFrom(t, d, input, r2, blk, needed, k2), input, r, w, w2, rest, ws, r2, c, c2, m);
  }

  lemma BackJoin(o: Out, input: seq<Byte>, r: Reader, w: seq<bool>, w2: seq<bool>, rest: seq<bool>, ws: seq<Write>,
                 r2: Reader, c: seq<int>, c2: seq<int>, m: seq<int>)
    requires Moved(input, r, w, w2 + rest, r2) && AcBack(o, input, r2, w2, rest, c2, m)
    requires Inside(After(ws, o).writes, |c| / 64) && |c2| == |c|
    requires ws == [] ==> c2 == c
    requires ws != [] ==> |ws| == 1 && 0 <= Loc(ws[0]) < |c| && c2 == c[Loc(ws[0]) := ws[0].value]
    ensures AcBack(After(ws, o), input, r, w + w2, rest, c, m)
  {
    hide Moved, Stalls, Inside, Apply, Loc;
    if o.Stop? {
      StallsLater(input, r, w, w2 + rest, r2, |w2|);
    } else {
      MovedTrans(input, r, w, w2, rest, r2, o.r);
      if ws == [] {
        assert ws + o.writes == o.writes;
      } else {
        assert ws + o.writes == [ws[0]] + o.writes;
        ApplyFirst(c, ws[0], o.writes);
      }
    }
  }

  lemma AcUnitsStep(x: seq<int>, k: int)
    requires |x| == 64 && 1 <= k < 64 && NextNonzero(x, k) < 64
    ensures var j := NextNonzero(x, k);
            if j - k >= 16 then k + 16 <= 64 && AcUnits(x, k) == [Unit(0xF0, [])] + AcUnits(x, k + 16)
            else AcUnits(x, k)
                 == [Unit(16 * (j - k) + Size(Abs(x[Natural(j)])), Appended(x[Natural(j)]))] + AcUnits(x, j + 1)
  {
    hide Natural, Size, Appended;
  }

  lemma AcNone(t: Table, d: Derived, input: seq<Byte>, r: Reader, x: seq<int>, blk: int, needed: bool, c: seq<int>,
               rest: seq<bool>)
    requires InUse(t, d) && |x| == 64 && Feeds(input, r, Emit(t, AcUnits(x, 64)) + rest)
    ensures r.Ok(input)
    ensures AcBack(AcFrom(t, d, input, r, blk, needed, 64), input, r, Emit(t, AcUnits(x, 64)), rest, c,
                   Laid(c, blk, x, 64, needed))
  {
    hide InUse, Natural, Ahead, AtEnd, Moved;
    AcOver(t, d, input, r, blk, needed, 64);
    TableFacts(t, d);
    assert Emit(t, []) + rest == rest;
    MovedNone(input, r, rest);
    LaidNone(c, blk, x, 64, needed);
  }

  /** The AC coefficients of a block come back. */
  lemma {:induction false} AcRound(t: Table, d: Derived, input: seq<Byte>, r: Reader, x: seq<int>, k: int, blk: int,
                                   needed: bool, c: seq<int>, rest: seq<bool>)
    requires InUse(t, d) && InRange(x) && 1 <= k <= 64 && Codable(t, AcUnits(x, k)) && 0 <= blk < |c| / 64
    requires Feeds(input, r, Emit(t, AcUnits(x, k)) + rest)
    ensures r.Ok(input)
    ensures AcBack(AcFrom(t, d, input, r, blk, needed, k), input, r, Emit(t, AcUnits(x, k)), rest, c,
                   Laid(c, blk, x, k, needed))
    decreases 64 - k
  {
    hide Fetch, Get, InUse, Natural, AcFrom, HasCode, CodeOf, Ahead, AtEnd, Moved, Stalls, Feeds, Laid, Inside, Apply,
         Codable, Emit, AcUnits, Size, Appended, Stepped, AcBack;
    TableFacts(t, d);
    FeedsOk(input, r, Emit(t, AcUnits(x, k)) + rest);
    if k == 64 {
      AcNone(t, d, input, r, x, blk, needed, c, rest);
      return;
    }
    var j := NextNonzero(x, k);
    if j == 64 {
      AcEob(t, d, input, r, x, k, blk, needed, c, rest);
      return;
    }
    AcUnitsStep(x, k);
    if j - k >= 16 {
      var us := AcUnits(x, k + 16);
      EmitCons(t, Unit(0xF0, []), us);
      var r2, stuck := ZrlStep(t, d, input, r, us, k, blk, needed, rest);
      if stuck {
        StuckBack(AcFrom(t, d, input, r, blk, needed, k), input, r, Emit(t, AcUnits(x, k)), rest, c,
                  Laid(c, blk, x, k, needed));
      } else {
        SteppedFeeds(t, d, input, r, k, blk, needed, CodeOf(t, 0xF0), Emit(t, us) + rest, [], r2, k + 16);
        AcRound(t, d, input, r2, x, k + 16, blk, needed, c, rest);
        LaidPass(c, blk, x, k, k + 16, needed);
        AcJoin(t, d, input, r, k, blk, needed, CodeOf(t, 0xF0), Emit(t, us), rest, [], r2, k + 16, c, c,
               Laid(c, blk, x, k, needed));
        assert CodeOf(t, 0xF0) + [] + Emit(t, us) == CodeOf(t, 0xF0) + Emit(t, us);
      }
    } else {
      var v, us := x[Natural(j)], AcUnits(x, j + 1);
      var u := Unit(16 * (j - k) + Size(Abs(v)), Appended(v));
      EmitCons(t, u, us);
      var r2, stuck := CoefStep(t, d, input, r, us, k, j - k, v, blk, needed, rest);
      if stuck {
        StuckBack(AcFrom(t, d, input, r, blk, needed, k), input, r, Emit(t, AcUnits(x, k)), rest, c,
                  Laid(c, blk, x, k, needed));
      } else {
        var w, at := CodeOf(t, u.symbol) + u.extra, blk * 64 + Natural(j);
        var ws := if needed then [Write(blk, Natural(j), v)] else [];
        LaidPass(c, blk, x, k, j, needed);
        LaidOne(c, blk, x, j, needed);
        var c2 := if needed then c[at := v] else c;
        SteppedFeeds(t, d, input, r, k, blk, needed, w, Emit(t, us) + rest, ws, r2, j + 1);
        AcRound(t, d, input, r2, x, j + 1, blk, needed, c2, rest);
        AcJoin(t, d, input, r, k, blk, needed, w, Emit(t, us), rest, ws, r2, j + 1, c, c2, Laid(c, blk, x, k, needed));
      }
    }
  }

  lemma StuckBack(o: Out, input: seq<Byte>, r: Reader, w: seq<bool>, rest: seq<bool>, c: seq<int>, m: seq<int>)
    requires o.Stop? && Stalls(input, r, |w|)
    ensures AcBack(o, input, r, w, rest, c, m)
  {
  }

  lemma SteppedFeeds(t: Table, d: Derived, input: seq<Byte>, r: Reader, k: int, blk: int, needed: bool,
                     w: seq<bool>, more: seq<bool>, ws: seq<Write>, r2: Reader, k2: int)
    requires InUse(t, d) && r.Ok(input) && 1 <= k <= k2
    requires Stepped(t, d, input, r, k, blk, needed, w, more, ws, r2, k2)
    ensures Feeds(input, r2, more)
  {
    hide InUse, AcFrom;
  }

  // ----- one block -----

  /** The bits of a block: the difference of its DC coefficient to `pred`, then its AC coefficients. */
  ghost function BlockBits(s: Slot, x: seq<int>, pred: int): seq<bool> {
    if BlockOk(s, x, pred) then Emit(s.dcTable, [DcUnit(x[0] - pred)]) + Emit(s.acTable, AcUnits(x, 1)) else []
  }

  /** A block that the tables can code. */
  ghost predicate BlockOk(s: Slot, x: seq<int>, pred: int) {
    && s.dcTable.Typed() && Legal(s.dcTable.bits) && s.acTable.Typed() && Legal(s.acTable.bits)
    && InRange(x) && -32768 < x[0] - pred < 32768
    && Codable(s.dcTable, [DcUnit(x[0] - pred)]) && Codable(s.acTable, AcUnits(x, 1))
  }

  /** Memory `c` with block `blk` decoded into it. */
  function BlockLaid(c: seq<int>, blk: int, x: seq<int>, s: Slot): (m: seq<int>)
    requires |x| == 64
    ensures |m| == |c|
  {
    seq(|c|, i requires 0 <= i < |c| =>
      if i / 64 != blk then c[i]
      else if i % 64 == 0 then (if s.dcNeeded then x[0] else c[i])
      else if s.acNeeded && x[i % 64] != 0 then x[i % 64] else c[i])
  }

  lemma BlockLaidIs(c: seq<int>, blk: int, x: seq<int>, s: Slot)
    requires |x| == 64 && 0 <= blk < |c| / 64
    ensures var c1 := if s.dcNeeded then c[blk * 64 := x[0]] else c;
            Laid(c1, blk, x, 1, s.acNeeded) == BlockLaid(c, blk, x, s)
  {
    var c1 := if s.dcNeeded then c[blk * 64 := x[0]] else c;
    forall i | 0 <= i < |c| ensures Laid(c1, blk, x, 1, s.acNeeded)[i] == BlockLaid(c, blk, x, s)[i] {
      assert i == blk * 64 <==> i / 64 == blk && i % 64 == 0;
      FirstPlace(i % 64);
    }
  }

  lemma FirstPlace(p: int)
    requires 0 <= p < 64
    ensures Zigzag(p) >= 1 <==> p != 0
  {
    NaturalZigzag(p);
  }

  /** What decoding the DC difference has to come to. */
  ghost predicate DcBack(o: Diff, input: seq<Byte>, r: Reader, w: seq<bool>, rest: seq<bool>, diff: int) {
    match o
    case NoDiff(_) => Stalls(input, r, |w|)
    case Diff(_, _) => o.value == diff && Moved(input, r, w, rest, o.r)
  }

  lemma DcRound(t: Table, d: Derived, input: seq<Byte>, r: Reader, diff: int, rest: seq<bool>)
    requires InUse(t, d) && DcSymbols(t) && -32768 < diff < 32768 && Codable(t, [DcUnit(diff)])
    requires Feeds(input, r, Emit(t, [DcUnit(diff)]) + rest)
    ensures r.Ok(input) && DcBack(DcDiff(t, d, input, r), input, r, Emit(t, [DcUnit(diff)]), rest, diff)
  {
    hide Fetch, Get, DerivedOk, Legal, HasCode, CodeOf, Ahead, AtEnd, Moved, Stalls, Feeds, Codable, Emit, Extend,
         Appended, Size;
    var u, all := DcUnit(diff), Emit(t, [DcUnit(diff)]);
    assert [u] == [u] + [];
    FeedsOk(input, r, all + rest);
    EmitCons(t, u, []);
    EmitNone(t);
    FetchUnit(t, d, input, r, u, [], rest);
    DecodeSmall(t, d, input, r);
    if Fetch(t, d, input, r).Decoded? {
      var w, r1 := CodeOf(t, u.symbol), Fetch(t, d, input, r).r;
      assert u.extra + ([] + rest) == u.extra + rest;
      MovedOk(input, r, w, u.extra + rest, r1);
      if diff == 0 {
        NoSize();
        assert w + u.extra + [] == w && u.extra + rest == rest;
      } else {
        CoefSize(diff);
        AppendedBack(diff);
        GetFeeds(input, r1, u.extra, rest);
        assert all == w + u.extra;
        if Get(input, r1, |u.extra|).Stuck? {
          StallsLater(input, r, w, u.extra + rest, r1, 0);
          StallsMore(input, r, |w|, |all|);
        } else {
          MovedTrans(input, r, w, u.extra, rest, r1, Get(input, r1, |u.extra|).r);
        }
      }
    }
  }

  lemma NoSize()
    ensures Size(Abs(0)) == 0 && Appended(0) == []
  {
  }

  /** What decoding a block, or the rest of an MCU, has to come to. */
  ghost predicate McuBack(o: McuOut, input: seq<Byte>, r: Reader, w: seq<bool>, rest: seq<bool>, c: seq<int>,
                          m: seq<int>, dc: seq<int>) {
    match o
    case Wait(_, _) => Stalls(input, r, |w|)
    case Complete(_, _, _) =>
      Moved(input, r, w, rest, o.r) && Inside(o.writes, |c| / 64) && Apply(c, o.writes) == m && o.dc == dc
  }

  function DcNext(s: Slot, x: seq<int>, dc: seq<int>): seq<int>
    requires |x| == 64 && 0 <= s.comp < |dc|
  {
    if s.dcNeeded then dc[s.comp := x[0]] else dc
  }

  lemma BlockRound(s: Slot, input: seq<Byte>, r: Reader, dc: seq<int>, x: seq<int>, pred: int, blk: int, c: seq<int>,
                   rest: seq<bool>)
    requires SlotOk(s, |dc|) && BlockOk(s, x, pred) && (s.dcNeeded ==> dc[s.comp] == pred) && 0 <= blk < |c| / 64
    requires Feeds(input, r, BlockBits(s, x, pred) + rest)
    ensures r.Ok(input)
    ensures McuBack(Block(s, input, r, dc, blk), input, r, BlockBits(s, x, pred), rest, c, BlockLaid(c, blk, x, s),
                    DcNext(s, x, dc))
  {
    hide Feeds, Codable, Emit, Legal, AcUnits, InRange, McuBack, Block, SlotOk, BlockLaid, DcUnit, DcNext, BlockOk,
         BlockBits;
    BlockFacts(s, x, pred);
    var diff := x[0] - pred;
    var wd, wa := Emit(s.dcTable, [DcUnit(diff)]), Emit(s.acTable, AcUnits(x, 1));
    assert (wd + wa) + rest == wd + (wa + rest);
    SlotFacts(s, |dc|);
    BlockParts(s, input, r, dc, x, diff, blk, c, wd, wa, rest);
  }

  lemma BlockParts(s: Slot, input: seq<Byte>, r: Reader, dc: seq<int>, x: seq<int>, diff: int, blk: int, c: seq<int>,
                   wd: seq<bool>, wa: seq<bool>, rest: seq<bool>)
    requires SlotOk(s, |dc|) && InRange(x) && 0 <= blk < |c| / 64 && -32768 < diff < 32768
    requires s.dcNeeded ==> x[0] == diff + dc[s.comp]
    requires s.acTable.Typed() && Legal(s.acTable.bits) && Codable(s.acTable, AcUnits(x, 1))
    requires s.dcTable.Typed() && Legal(s.dcTable.bits) && Codable(s.dcTable, [DcUnit(diff)])
    requires wd == Emit(s.dcTable, [DcUnit(diff)]) && wa == Emit(s.acTable, AcUnits(x, 1))
    requires Feeds(input, r, wd + (wa + rest))
    ensures r.Ok(input)
    ensures McuBack(Block(s, input, r, dc, blk), input, r, wd + wa, rest, c, BlockLaid(c, blk, x, s), DcNext(s, x, dc))
  {
    hide DcDiff, Feeds, Codable, Emit, Legal, BlockLaid, AcUnits, McuBack, DcBack, Block, SlotOk, DcUnit, DcNext, InUse;
    SlotFacts(s, |dc|);
    DcRound(s.dcTable, s.dcDerived, input, r, diff, wa + rest);
    if DcDiff(s.dcTable, s.dcDerived, input, r).NoDiff? {
      BlockWaits(s, input, r, dc, blk, diff, wd, wa, rest, c, BlockLaid(c, blk, x, s), DcNext(s, x, dc));
    } else {
      BlockTail(s, input, r, dc, x, diff, blk, c, wd, wa, rest);
    }
  }

  lemma BlockFacts(s: Slot, x: seq<int>, pred: int)
    requires BlockOk(s, x, pred)
    ensures s.dcTable.Typed() && Legal(s.dcTable.bits) && s.acTable.Typed() && Legal(s.acTable.bits)
    ensures |x| == 64 && InRange(x) && -32768 < x[0] - pred < 32768
    ensures Codable(s.dcTable, [DcUnit(x[0] - pred)]) && Codable(s.acTable, AcUnits(x, 1))
    ensures BlockBits(s, x, pred) == Emit(s.dcTable, [DcUnit(x[0] - pred)]) + Emit(s.acTable, AcUnits(x, 1))
  {
    hide Codable, Emit, Legal, AcUnits, DcUnit;
  }

  lemma SlotFacts(s: Slot, comps: int)
    requires SlotOk(s, comps) && s.dcTable.Typed() && Legal(s.dcTable.bits)
    ensures InUse(s.dcTable, s.dcDerived) && DcSymbols(s.dcTable) && 0 <= s.comp < comps
  {
  }

  lemma BlockWaits(s: Slot, input: seq<Byte>, r: Reader, dc: seq<int>, blk: int, diff: int, wd: seq<bool>,
                   wa: seq<bool>, rest: seq<bool>, c: seq<int>, m: seq<int>, dc': seq<int>)
    requires SlotOk(s, |dc|) && r.Ok(input) && DcDiff(s.dcTable, s.dcDerived, input, r).NoDiff?
    requires DcBack(DcDiff(s.dcTable, s.dcDerived, input, r), input, r, wd, wa + rest, diff)
    ensures McuBack(Block(s, input, r, dc, blk), input, r, wd + wa, rest, c, m, dc')
  {
    hide DcDiff, InUse;
    StallsMore(input, r, |wd|, |wd + wa|);
  }

  /** The block when its DC difference has been read. */
  lemma BlockTail(s: Slot, input: seq<Byte>, r: Reader, dc: seq<int>, x: seq<int>, diff: int, blk: int, c: seq<int>,
                  wd: seq<bool>, wa: seq<bool>, rest: seq<bool>)
    requires SlotOk(s, |dc|) && r.Ok(input) && InRange(x) && 0 <= blk < |c| / 64
    requires s.dcNeeded ==> x[0] == diff + dc[s.comp]
    requires s.acTable.Typed() && Legal(s.acTable.bits) && Codable(s.acTable, AcUnits(x, 1))
    requires wa == Emit(s.acTable, AcUnits(x, 1))
    requires var o := DcDiff(s.dcTable, s.dcDerived, input, r); o.Diff? && DcBack(o, input, r, wd, wa + rest, diff)
    ensures McuBack(Block(s, input, r, dc, blk), input, r, wd + wa, rest, c, BlockLaid(c, blk, x, s), DcNext(s, x, dc))
  {
    RangeCoef(x);
    hide InUse, DcDiff, AcFrom, Moved, Feeds, Codable, Emit, Legal, Inside, Laid, BlockLaid, AcUnits, InRange, AcBack,
         McuBack, Block;
    var o := DcDiff(s.dcTable, s.dcDerived, input, r);
    MovedOk(input, r, wd, wa + rest, o.r);
    var c1 := if s.dcNeeded then c[blk * 64 := x[0]] else c;
    AcRound(s.acTable, s.acDerived, input, o.r, x, 1, blk, s.acNeeded, c1, rest);
    BlockLaidIs(c, blk, x, s);
    AcInside(s.acTable, s.acDerived, input, o.r, blk, s.acNeeded, 1, |c| / 64);
    var a := AcFrom(s.acTable, s.acDerived, input, o.r, blk, s.acNeeded, 1);
    var ws := if s.dcNeeded then [Write(blk, 0, x[0])] else [];
    BlockSplit(s, input, r, dc, x, blk, diff);
    BlockJoin(a, input, r, o.r, wd, wa, rest, ws, blk, x[0], c, c1, BlockLaid(c, blk, x, s), DcNext(s, x, dc));
  }

  lemma BlockSplit(s: Slot, input: seq<Byte>, r: Reader, dc: seq<int>, x: seq<int>, blk: int, diff: int)
    requires SlotOk(s, |dc|) && r.Ok(input) && |x| == 64 && Coef(x[0]) == x[0]
    requires s.dcNeeded ==> x[0] == diff + dc[s.comp]
    requires DcDiff(s.dcTable, s.dcDerived, input, r).Diff? && DcDiff(s.dcTable, s.dcDerived, input, r).value == diff
    ensures var r1 := DcDiff(s.dcTable, s.dcDerived, input, r).r;
            var a := AcFrom(s.acTable, s.acDerived, input, r1, blk, s.acNeeded, 1);
            var ws := if s.dcNeeded then [Write(blk, 0, x[0])] else [];
            Block(s, input, r, dc, blk) == Closed(ws, a, DcNext(s, x, dc))
  {
    hide InUse, DcDiff, AcFrom, Coef;
  }

  function Closed(ws: seq<Write>, a: Out, dc: seq<int>): McuOut {
    if a.Stop? then Wait(ws + a.writes, a.r) else Complete(ws + a.writes, a.r, dc)
  }

  lemma BlockJoin(a: Out, input: seq<Byte>, r: Reader, r1: Reader, wd: seq<bool>, wa: seq<bool>, rest: seq<bool>,
                  ws: seq<Write>, blk: int, v: int, c: seq<int>, c1: seq<int>, m: seq<int>, dc: seq<int>)
    requires Moved(input, r, wd, wa + rest, r1) && AcBack(a, input, r1, wa, rest, c1, m) && Inside(a.writes, |c| / 64)
    requires 0 <= blk < |c| / 64 && -32768 <= v < 32768 && |c1| == |c|
    requires (ws == [] && c1 == c) || (ws == [Write(blk, 0, v)] && c1 == c[blk * 64 := v])
    ensures McuBack(Closed(ws, a, dc), input, r, wd + wa, rest, c, m, dc)
  {
    hide Moved, Stalls, Inside, Apply;
    if a.Stop? {
      StallsLater(input, r, wd, wa + rest, r1, |wa|);
    } else {
      MovedTrans(input, r, wd, wa, rest, r1, a.r);
      if ws == [] {
        assert ws + a.writes == a.writes;
      } else {
        InsideCons(Write(blk, 0, v), a.writes, |c| / 64);
        ApplyFirst(c, Write(blk, 0, v), a.writes);
      }
    }
  }

  lemma RangeCoef(x: seq<int>)
    requires InRange(x)
    ensures |x| == 64 && Coef(x[0]) == x[0] && -32768 <= x[0] < 32768
  {
  }

  // ----- an MCU -----

  /** The predictions after an MCU, from block `blk` on. */
  function Preds(slots: seq<Slot>, xs: seq<seq<int>>, pred: seq<int>, blk: int): (p: seq<int>)
    requires 0 <= blk <= |slots| && Fits(slots, xs, |pred|)
    ensures |p| == |pred|
    decreases |slots| - blk
  {
    if blk == |slots| then pred else Preds(slots, xs, pred[slots[blk].comp := xs[blk][0]], blk + 1)
  }

  predicate Fits(slots: seq<Slot>, xs: seq<seq<int>>, comps: int) {
    |xs| == |slots| && forall i :: 0 <= i < |slots| ==> |xs[i]| == 64 && 0 <= slots[i].comp < comps
  }

  lemma FitsAt(slots: seq<Slot>, xs: seq<seq<int>>, comps: int, blk: int)
    requires Fits(slots, xs, comps) && 0 <= blk < |slots|
    ensures |xs| == |slots| && |xs[blk]| == 64 && 0 <= slots[blk].comp < comps
  {
  }

  ghost predicate McuOk(slots: seq<Slot>, xs: seq<seq<int>>, pred: seq<int>, blk: int)
    requires 0 <= blk <= |slots| && Fits(slots, xs, |pred|)
    decreases |slots| - blk
  {
    hide BlockOk, Fits;
    if blk == |slots| then true
    else
      FitsAt(slots, xs, |pred|, blk);
      && BlockOk(slots[blk], xs[blk], pred[slots[blk].comp])
      && McuOk(slots, xs, pred[slots[blk].comp := xs[blk][0]], blk + 1)
  }

  ghost function McuBits(slots: seq<Slot>, xs: seq<seq<int>>, pred: seq<int>, blk: int): seq<bool>
    requires 0 <= blk <= |slots| && Fits(slots, xs, |pred|)
    decreases |slots| - blk
  {
    if blk == |slots| then []
    else
      var s := slots[blk];
      BlockBits(s, xs[blk], pred[s.comp]) + McuBits(slots, xs, pred[s.comp := xs[blk][0]], blk + 1)
  }

  /** Memory `c` with the blocks from `blk` on decoded into it. */
  function McuLaid(slots: seq<Slot>, xs: seq<seq<int>>, c: seq<int>, blk: int): (m: seq<int>)
    requires 0 <= blk <= |slots| && |xs| == |slots| && forall i :: 0 <= i < |xs| ==> |xs[i]| == 64
    ensures |m| == |c|
    decreases |slots| - blk
  {
    if blk == |slots| then c else McuLaid(slots, xs, BlockLaid(c, blk, xs[blk], slots[blk]), blk + 1)
  }

  /** The decoder's predictions are the encoder's for the components that matter. */
  ghost predicate Tracks(slots: seq<Slot>, dc: seq<int>, pred: seq<int>) {
    && |dc| == |pred|
    && forall i :: 0 <= i < |slots| && slots[i].dcNeeded ==>
         0 <= slots[i].comp < |dc| && dc[slots[i].comp] == pred[slots[i].comp]
  }

  /** Whether a component matters is the same for all its blocks. */
  predicate Uniform(slots: seq<Slot>) {
    forall i, j :: 0 <= i < |slots| && 0 <= j < |slots| && slots[i].comp == slots[j].comp ==>
      slots[i].dcNeeded == slots[j].dcNeeded
  }

  lemma TracksNext(slots: seq<Slot>, dc: seq<int>, pred: seq<int>, blk: int, x: seq<int>)
    requires Tracks(slots, dc, pred) && Uniform(slots) && 0 <= blk < |slots| && 0 <= slots[blk].comp < |dc| && |x| == 64
    ensures Tracks(slots, DcNext(slots[blk], x, dc), pred[slots[blk].comp := x[0]])
  {
  }

  function DcAfter(slots: seq<Slot>, xs: seq<seq<int>>, dc: seq<int>, blk: int): (d: seq<int>)
    requires 0 <= blk <= |slots| && Fits(slots, xs, |dc|)
    ensures |d| == |dc|
    decreases |slots| - blk
  {
    if blk == |slots| then dc else DcAfter(slots, xs, DcNext(slots[blk], xs[blk], dc), blk + 1)
  }

  lemma {:induction false} ApplyConcat(c: seq<int>, a: seq<Write>, b: seq<Write>)
    requires Inside(a, |c| / 64) && Inside(b, |c| / 64)
    ensures Inside(a + b, |c| / 64) && Apply(c, a + b) == Apply(Apply(c, a), b)
    decreases |a|
  {
    if a == [] {
      assert a + b == b;
    } else {
      assert a + b == [a[0]] + (a[1..] + b);
      assert a == [a[0]] + a[1..];
      ApplyFirst(c, a[0], a[1..]);
      ApplyConcat(c[Loc(a[0]) := a[0].value], a[1..], b);
      ApplyFirst(c, a[0], a[1..] + b);
    }
  }

  lemma {:induction false} BlocksRound(slots: seq<Slot>, input: seq<Byte>, r: Reader, dc: seq<int>, xs: seq<seq<int>>,
                                       pred: seq<int>, blk: int, c: seq<int>, rest: seq<bool>)
    requires SlotsOk(slots, |dc|) && Uniform(slots) && Tracks(slots, dc, pred) && Fits(slots, xs, |pred|)
    requires 0 <= blk <= |slots| && McuOk(slots, xs, pred, blk) && |c| == 64 * |slots|
    requires Feeds(input, r, McuBits(slots, xs, pred, blk) + rest)
    ensures r.Ok(input)
    ensures McuBack(BlocksFrom(slots, input, r, dc, blk), input, r, McuBits(slots, xs, pred, blk), rest, c,
                    McuLaid(slots, xs, c, blk), DcAfter(slots, xs, dc, blk))
    decreases |slots| - blk
  {
    hide Block, BlockBits, BlockOk, SlotOk, Moved, Stalls, Feeds, Inside, Apply, BlockLaid, Tracks, Uniform;
    FeedsOk(input, r, McuBits(slots, xs, pred, blk) + rest);
    if blk == |slots| {
      assert [] + rest == rest;
      NothingBack(input, r, rest, c, dc);
    } else {
      var s, x := slots[blk], xs[blk];
      var pred' := pred[s.comp := x[0]];
      var w, w2 := BlockBits(s, x, pred[s.comp]), McuBits(slots, xs, pred', blk + 1);
      assert SlotOk(s, |dc|);
      TracksHere(slots, dc, pred, blk);
      assert (w + w2) + rest == w + (w2 + rest);
      BlockRound(s, input, r, dc, x, pred[s.comp], blk, c, w2 + rest);
      var o := Block(s, input, r, dc, blk);
      if o.Wait? {
        StallsMore(input, r, |w|, |w + w2|);
      } else {
        MovedOk(input, r, w, w2 + rest, o.r);
        TracksNext(slots, dc, pred, blk, x);
        var c' := BlockLaid(c, blk, x, s);
        BlocksRound(slots, input, o.r, o.dc, xs, pred', blk + 1, c', rest);
        McuJoin(BlocksFrom(slots, input, o.r, o.dc, blk + 1), o, input, r, w, w2, rest, c, c',
                McuLaid(slots, xs, c, blk), DcAfter(slots, xs, dc, blk));
      }
    }
  }

  lemma NothingBack(input: seq<Byte>, r: Reader, rest: seq<bool>, c: seq<int>, dc: seq<int>)
    requires Feeds(input, r, rest)
    ensures McuBack(Complete([], r, dc), input, r, [], rest, c, c, dc)
  {
    hide Moved;
    MovedNone(input, r, rest);
  }

  lemma TracksHere(slots: seq<Slot>, dc: seq<int>, pred: seq<int>, blk: int)
    requires Tracks(slots, dc, pred) && 0 <= blk < |slots| && 0 <= slots[blk].comp < |pred|
    ensures |dc| == |pred| && (slots[blk].dcNeeded ==> dc[slots[blk].comp] == pred[slots[blk].comp])
  {
  }

  lemma McuJoin(o2: McuOut, o: McuOut, input: seq<Byte>, r: Reader, w: seq<bool>, w2: seq<bool>, rest: seq<bool>,
                c: seq<int>, c': seq<int>, m: seq<int>, dc: seq<int>)
    requires o.Complete? && |c'| == |c| && McuBack(o, input, r, w, w2 + rest, c, c', o.dc)
    requires McuBack(o2, input, o.r, w2, rest, c', m, dc)
    ensures McuBack(AfterMcu(o.writes, o2), input, r, w + w2, rest, c, m, dc)
  {
    hide Moved, Stalls, Inside, Apply;
    if o2.Wait? {
      StallsLater(input, r, w, w2 + rest, o.r, |w2|);
    } else {
      MovedTrans(input, r, w, w2, rest, o.r, o2.r);
      ApplyConcat(c, o.writes, o2.writes);
    }
  }

  // ----- a scan -----

  /** MCUs that the tables can code one after the other. */
  ghost predicate ScanOk(slots: seq<Slot>, mcus: seq<seq<seq<int>>>, pred: seq<int>)
    decreases |mcus|
  {
    mcus == [] || (&& Fits(slots, mcus[0], |pred|) && McuOk(slots, mcus[0], pred, 0)
                   && ScanOk(slots, mcus[1..], Preds(slots, mcus[0], pred, 0)))
  }

  ghost function ScanBits(slots: seq<Slot>, mcus: seq<seq<seq<int>>>, pred: seq<int>): seq<bool>
    requires ScanOk(slots, mcus, pred)
    decreases |mcus|
  {
    if mcus == [] then []
    else McuBits(slots, mcus[0], pred, 0) + ScanBits(slots, mcus[1..], Preds(slots, mcus[0], pred, 0))
  }

  /** The memory of each MCU with its blocks decoded into it. */
  ghost predicate AllLaid(slots: seq<Slot>, mcus: seq<seq<seq<int>>>, mem: seq<seq<int>>, coefs: seq<seq<int>>) {
    && |coefs| == |mem| == |mcus|
    && forall i :: 0 <= i < |mcus| ==> LaidIn(slots, mcus[i], mem[i], coefs[i])
  }

  ghost predicate LaidIn(slots: seq<Slot>, xs: seq<seq<int>>, c: seq<int>, m: seq<int>) {
    |xs| == |slots| && (forall i :: 0 <= i < |xs| ==> |xs[i]| == 64) && m == McuLaid(slots, xs, c, 0)
  }

  lemma {:induction false} TracksAfter(slots: seq<Slot>, xs: seq<seq<int>>, dc: seq<int>, pred: seq<int>, blk: int)
    requires Tracks(slots, dc, pred) && Uniform(slots) && Fits(slots, xs, |pred|) && 0 <= blk <= |slots|
    ensures |dc| == |pred| && Tracks(slots, DcAfter(slots, xs, dc, blk), Preds(slots, xs, pred, blk))
    decreases |slots| - blk
  {
    hide Uniform;
    if blk < |slots| {
      TracksNext(slots, dc, pred, blk, xs[blk]);
      TracksAfter(slots, xs, DcNext(slots[blk], xs[blk], dc), pred[slots[blk].comp := xs[blk][0]], blk + 1);
    }
  }

  lemma {:induction false} WholeRound(slots: seq<Slot>, input: seq<Byte>, r: Reader, dc: seq<int>,
                                      mcus: seq<seq<seq<int>>>, pred: seq<int>, mem: seq<seq<int>>, rest: seq<bool>)
    requires SlotsOk(slots, |dc|) && Uniform(slots) && Tracks(slots, dc, pred) && ScanOk(slots, mcus, pred)
    requires |mem| == |mcus| && Sized(mem, |slots|) && Feeds(input, r, ScanBits(slots, mcus, pred) + rest)
    ensures r.Ok(input)
    ensures var p := Whole(slots, input, r, dc, mem);
            if p.Starving? then !AtEnd(input, r) else AllLaid(slots, mcus, mem, p.coefs)
    decreases |mcus|
  {
    hide Mcu, SlotsOk, Uniform, Tracks, Moved, Stalls, Apply, McuOk, McuBits, Preds, DcAfter, McuLaid, Fits, Inside,
         Ahead, AtEnd;
    if mcus != [] {
      var xs, pred' := mcus[0], Preds(slots, mcus[0], pred, 0);
      var w, w2 := McuBits(slots, xs, pred, 0), ScanBits(slots, mcus[1..], pred');
      assert (w + w2) + rest == w + (w2 + rest);
      McuRound(slots, input, r, dc, xs, pred, mem[0], w2 + rest);
      McuInside(slots, input, r, dc);
      var o := Mcu(slots, input, r, dc);
      if o.Complete? {
        MovedOk(input, r, w, w2 + rest, o.r);
        TracksAfter(slots, xs, dc, pred, 0);
        WholeRound(slots, input, o.r, o.dc, mcus[1..], pred', mem[1..], rest);
        MovedEnd(input, r, w, w2 + rest, o.r);
        FitsSizes(slots, xs, |pred|);
        var p := Whole(slots, input, o.r, o.dc, mem[1..]);
        if p.Finished? { AllLaidCons(slots, mcus, mem, Apply(mem[0], o.writes), p.coefs); }
      } else {
        StallsEnd(input, r, |w|);
      }
    }
  }

  lemma FitsSizes(slots: seq<Slot>, xs: seq<seq<int>>, comps: int)
    requires Fits(slots, xs, comps)
    ensures |xs| == |slots| && forall i :: 0 <= i < |xs| ==> |xs[i]| == 64
  {
  }

  lemma AllLaidCons(slots: seq<Slot>, mcus: seq<seq<seq<int>>>, mem: seq<seq<int>>, c: seq<int>, coefs: seq<seq<int>>)
    requires mcus != [] && |mem| == |mcus| && LaidIn(slots, mcus[0], mem[0], c)
    requires AllLaid(slots, mcus[1..], mem[1..], coefs)
    ensures AllLaid(slots, mcus, mem, [c] + coefs)
  {
    hide LaidIn;
    forall i | 0 <= i < |mcus| ensures LaidIn(slots, mcus[i], mem[i], ([c] + coefs)[i]) {
      if i > 0 { assert LaidIn(slots, mcus[1..][i - 1], mem[1..][i - 1], coefs[i - 1]); }
    }
  }

  /** One MCU comes back, with its predictions and the reader behind it. */
  lemma McuRound(slots: seq<Slot>, input: seq<Byte>, r: Reader, dc: seq<int>, xs: seq<seq<int>>, pred: seq<int>,
                 c: seq<int>, rest: seq<bool>)
    requires SlotsOk(slots, |dc|) && Uniform(slots) && Tracks(slots, dc, pred) && Fits(slots, xs, |pred|)
    requires McuOk(slots, xs, pred, 0) && |c| == 64 * |slots| && Feeds(input, r, McuBits(slots, xs, pred, 0) + rest)
    ensures r.Ok(input) && |dc| == |pred|
    ensures McuBack(Mcu(slots, input, r, dc), input, r, McuBits(slots, xs, pred, 0), rest, c,
                    McuLaid(slots, xs, c, 0), DcAfter(slots, xs, dc, 0))
  {
    hide McuBack, BlocksFrom;
    BlocksRound(slots, input, r, dc, xs, pred, 0, c, rest);
  }

  /** What is wanted of the coefficient at place `q`: components may be used by their DC values only, or not at all. */
  predicate Wanted(s: Slot, q: int) {
    if q == 0 then s.dcNeeded else s.acNeeded
  }

  /** An MCU's memory that starts out zero holds the coefficients wanted, block after block. */
  lemma {:induction false} LaidCoefs(slots: seq<Slot>, xs: seq<seq<int>>, c: seq<int>, blk: int, b: int, p: int)
    requires 0 <= blk <= |slots| && |xs| == |slots| && forall i :: 0 <= i < |xs| ==> |xs[i]| == 64
    requires |c| == 64 * |slots| && 0 <= b < |slots| && 0 <= p < 64 && (b >= blk ==> c[64 * b + p] == 0)
    ensures McuLaid(slots, xs, c, blk)[64 * b + p]
            == if b < blk then c[64 * b + p] else if Wanted(slots[b], p) then xs[b][p] else 0
    decreases |slots| - blk
  {
    if blk < |slots| {
      assert (64 * b + p) / 64 == b && (64 * b + p) % 64 == p;
      LaidCoefs(slots, xs, BlockLaid(c, blk, xs[blk], slots[blk]), blk + 1, b, p);
    }
  }

  /**
   Decoding undoes encoding: the bits of some MCUs, packed into bytes, with a zero byte stuffed behind every FF and a
   marker behind it all, give back every coefficient that is wanted and zeros elsewhere, however the data is cut.
   */
  lemma ScanRoundTrip(slots: seq<Slot>, comps: nat, mcus: seq<seq<seq<int>>>, d: seq<Byte>, m: Byte, after: seq<Byte>,
                      input: seq<Byte>, chunks: seq<seq<Byte>>, mem: seq<seq<int>>)
    requires SlotsOk(slots, comps) && Uniform(slots) && ScanOk(slots, mcus, seq(comps, i => 0))
    requires ScanBits(slots, mcus, seq(comps, i => 0)) <= ByteBits(d) && m != 0 && m != 0xFF
    requires input + Concat(chunks) == Stuff(d) + [0xFF, m] + after
    requires |mem| == |mcus| && Sized(mem, |slots|)
    requires forall i, j :: 0 <= i < |mem| && 0 <= j < 64 * |slots| ==> mem[i][j] == 0
    ensures var p := Chunked(slots, input, chunks, Reader(0, 0, 0, 0, false), seq(comps, i => 0), mem);
            && p.Finished? && |p.coefs| == |mcus|
            && forall i, b, q :: 0 <= i < |mcus| && 0 <= b < |slots| && 0 <= q < 64 ==>
                 |mcus[i]| == |slots| && |mcus[i][b]| == 64 && |p.coefs[i]| == 64 * |slots|
                 && p.coefs[i][64 * b + q] == if Wanted(slots[b], q) then mcus[i][b][q] else 0
  {
    hide SlotsOk, Uniform, ScanOk, ScanBits, Chunked, McuLaid;
    var r, dc, all := Reader(0, 0, 0, 0, false), seq(comps, i => 0), input + Concat(chunks);
    ChunkedIsWhole(slots, input, chunks, r, dc, mem);
    AllAhead(d, m, after, all);
    var w := ScanBits(slots, mcus, dc);
    var rest := ByteBits(d)[|w|..];
    assert w + rest == ByteBits(d);
    assert Tracks(slots, dc, dc) by { SlotsComps(slots, comps); }
    WholeRound(slots, all, r, dc, mcus, dc, mem, rest);
    var p := Whole(slots, all, r, dc, mem);
    forall i, b, q | 0 <= i < |mcus| && 0 <= b < |slots| && 0 <= q < 64
      ensures |mcus[i]| == |slots| && |mcus[i][b]| == 64 && |p.coefs[i]| == 64 * |slots|
              && p.coefs[i][64 * b + q] == if Wanted(slots[b], q) then mcus[i][b][q] else 0
    {
      assert LaidIn(slots, mcus[i], mem[i], p.coefs[i]);
      LaidCoefs(slots, mcus[i], mem[i], 0, b, q);
    }
  }

  lemma SlotsComps(slots: seq<Slot>, comps: nat)
    requires SlotsOk(slots, comps)
    ensures forall i :: 0 <= i < |slots| ==> 0 <= slots[i].comp < comps
  {
    forall i | 0 <= i < |slots| ensures 0 <= slots[i].comp < comps { assert SlotOk(slots[i], comps); }
  }
}
