/**
 Suspension of decode_mcu: a call that runs out of data commits nothing, and decoding data that arrives
 in pieces gives the coefficients of decoding it whole.
 */
module McuChunks {
  import opened Huffman
  import opened HuffTables
  import opened BitReader
  import opened HuffDecode
  import opened ZigzagOrder
  import opened McuDecode

  // ----- more data -----

  ghost predicate Extends(o: Out, o': Out) {
    (o.Done? ==> o' == o) && o.writes <= o'.writes
  }

  lemma AfterExtends(ws: seq<Write>, o: Out, o': Out)
    requires Extends(o, o')
    ensures Extends(After(ws, o), After(ws, o'))
  {
  }

  lemma {:induction false} AcMore(t: Table, d: Derived, input: seq<Byte>, more: seq<Byte>, r: Reader, blk: int,
      needed: bool, k: int)
    requires InUse(t, d) && r.Ok(input) && 1 <= k
    ensures Extends(AcFrom(t, d, input, r, blk, needed, k), AcFrom(t, d, input + more, r, blk, needed, k))
    decreases 80 - k
  {
    hide InUse, Fetch, Get, Natural, Coef, Extend, AcFrom;
    if k >= 64 {
      AcOver(t, d, input, r, blk, needed, k);
      AcOver(t, d, input + more, r, blk, needed, k);
    } else {
      DecodeMore(t, d, input, more, r);
      AcStep(t, d, input, r, blk, needed, k);
      AcStep(t, d, input + more, r, blk, needed, k);
      match Fetch(t, d, input, r)
      case NoSymbol =>
      case Decoded(s, r1) =>
        var run, size := s / 16, s % 16;
        if size != 0 {
          GetMore(input, more, r1, size);
          match Get(input, r1, size)
          case Stuck =>
          case Got(v, r2) =>
            AcMore(t, d, input, more, r2, blk, needed, k + run + 1);
            var ws := if needed then [Write(blk, Natural(k + run), Coef(Extend(v, size)))] else [];
            AfterExtends(ws, AcFrom(t, d, input, r2, blk, needed, k + run + 1),
                         AcFrom(t, d, input + more, r2, blk, needed, k + run + 1));
        } else if run == 15 {
          AcMore(t, d, input, more, r1, blk, needed, k + 16);
        }
    }
  }

  lemma AcOver(t: Table, d: Derived, input: seq<Byte>, r: Reader, blk: int, needed: bool, k: int)
    requires InUse(t, d) && r.Ok(input) && k >= 64
    ensures AcFrom(t, d, input, r, blk, needed, k) == Done([], r)
  {
  }

  lemma DcMore(t: Table, d: Derived, input: seq<Byte>, more: seq<Byte>, r: Reader)
    requires InUse(t, d) && DcSymbols(t) && r.Ok(input)
    ensures DcDiff(t, d, input, r).Diff? ==> DcDiff(t, d, input + more, r) == DcDiff(t, d, input, r)
  {
    hide InUse, Fetch, Get, Extend;
    DecodeMore(t, d, input, more, r);
    DecodeSmall(t, d, input, r);
    match Fetch(t, d, input, r)
    case NoSymbol =>
    case Decoded(s, r1) => if s != 0 { GetMore(input, more, r1, s); }
  }

  ghost predicate ExtendsMcu(o: McuOut, o': McuOut) {
    (o.Complete? ==> o' == o) && o.writes <= o'.writes
  }

  lemma BlockMore(s: Slot, input: seq<Byte>, more: seq<Byte>, r: Reader, dc: seq<int>, blk: int)
    requires SlotOk(s, |dc|) && r.Ok(input)
    ensures ExtendsMcu(Block(s, input, r, dc, blk), Block(s, input + more, r, dc, blk))
  {
    hide InUse, DcDiff, AcFrom, Coef;
    DcMore(s.dcTable, s.dcDerived, input, more, r);
    match DcDiff(s.dcTable, s.dcDerived, input, r)
    case NoDiff(r1) =>
    case Diff(v, r1) => AcMore(s.acTable, s.acDerived, input, more, r1, blk, s.acNeeded, 1);
  }

  lemma {:induction false} BlocksMore(slots: seq<Slot>, input: seq<Byte>, more: seq<Byte>, r: Reader, dc: seq<int>,
      blk: int)
    requires SlotsOk(slots, |dc|) && r.Ok(input) && 0 <= blk <= |slots|
    ensures ExtendsMcu(BlocksFrom(slots, input, r, dc, blk), BlocksFrom(slots, input + more, r, dc, blk))
    decreases |slots| - blk
  {
    hide Block, SlotOk;
    if blk < |slots| {
      assert SlotOk(slots[blk], |dc|);
      BlockMore(slots[blk], input, more, r, dc, blk);
      match Block(slots[blk], input, r, dc, blk)
      case Wait(_, _) =>
      case Complete(ws, r1, dc1) => BlocksMore(slots, input, more, r1, dc1, blk + 1);
    }
  }

  /** A finished MCU is the same with more data behind it; an unfinished one has made the first of its assignments. */
  lemma McuMore(slots: seq<Slot>, input: seq<Byte>, more: seq<Byte>, r: Reader, dc: seq<int>)
    requires SlotsOk(slots, |dc|) && r.Ok(input)
    ensures ExtendsMcu(Mcu(slots, input, r, dc), Mcu(slots, input + more, r, dc))
  {
    BlocksMore(slots, input, more, r, dc, 0);
  }

  // ----- a suspended call has not met a marker -----

  lemma FetchEnd(t: Table, d: Derived, input: seq<Byte>, r: Reader)
    requires InUse(t, d) && r.Ok(input)
    ensures match Fetch(t, d, input, r)
            case NoSymbol => r.marker == 0 && !AtEnd(input, r)
            case Decoded(_, r1) => AtEnd(input, r) <==> AtEnd(input, r1)
  {
    hide Fetch, Next, Past;
    DecodeAgrees(t, d, input, r);
  }

  lemma GetEnd(input: seq<Byte>, r: Reader, n: int)
    requires r.Ok(input) && 0 <= n <= MIN_GET_BITS
    ensures match Get(input, r, n)
            case Stuck => r.marker == 0 && !AtEnd(input, r)
            case Got(_, r1) => AtEnd(input, r) <==> AtEnd(input, r1)
  {
    hide Get, Past;
    GetKeeps(input, r, n);
  }

  lemma {:induction false} AcEnd(t: Table, d: Derived, input: seq<Byte>, r: Reader, blk: int, needed: bool, k: int)
    requires InUse(t, d) && r.Ok(input) && 1 <= k
    ensures match AcFrom(t, d, input, r, blk, needed, k)
            case Stop(_, r') => r'.marker == 0 && !AtEnd(input, r)
            case Done(_, r') => AtEnd(input, r) <==> AtEnd(input, r')
    decreases 80 - k
  {
    hide InUse, Fetch, Get, Natural, Coef, Extend, AtEnd;
    if k < 64 {
      FetchEnd(t, d, input, r);
      match Fetch(t, d, input, r)
      case NoSymbol =>
      case Decoded(s, r1) =>
        var run, size := s / 16, s % 16;
        if size != 0 {
          GetEnd(input, r1, size);
          match Get(input, r1, size)
          case Stuck =>
          case Got(v, r2) => AcEnd(t, d, input, r2, blk, needed, k + run + 1);
        } else if run == 15 {
          AcEnd(t, d, input, r1, blk, needed, k + 16);
        }
    }
  }

  lemma DcEnd(t: Table, d: Derived, input: seq<Byte>, r: Reader)
    requires InUse(t, d) && DcSymbols(t) && r.Ok(input)
    ensures match DcDiff(t, d, input, r)
            case NoDiff(r1) => r1.marker == 0 && !AtEnd(input, r)
            case Diff(_, r1) => AtEnd(input, r) <==> AtEnd(input, r1)
  {
    hide InUse, Fetch, Get, Extend, AtEnd;
    FetchEnd(t, d, input, r);
    DecodeSmall(t, d, input, r);
    match Fetch(t, d, input, r)
    case NoSymbol =>
    case Decoded(s, r1) => if s != 0 { GetEnd(input, r1, s); }
  }

  lemma {:induction false} BlocksStop(slots: seq<Slot>, input: seq<Byte>, r: Reader, dc: seq<int>, blk: int)
    requires SlotsOk(slots, |dc|) && r.Ok(input) && 0 <= blk <= |slots| && BlocksFrom(slots, input, r, dc, blk).Wait?
    ensures BlocksFrom(slots, input, r, dc, blk).r.marker == 0 && !AtEnd(input, r)
    decreases |slots| - blk
  {
    hide InUse, DcDiff, AcFrom, Coef, AtEnd;
    if blk < |slots| {
      var s := slots[blk];
      assert SlotOk(s, |dc|);
      DcEnd(s.dcTable, s.dcDerived, input, r);
      match DcDiff(s.dcTable, s.dcDerived, input, r)
      case NoDiff(_) =>
      case Diff(v, r1) =>
        AcEnd(s.acTable, s.acDerived, input, r1, blk, s.acNeeded, 1);
        match Block(s, input, r, dc, blk)
        case Wait(_, _) =>
        case Complete(_, r2, dc1) => BlocksStop(slots, input, r2, dc1, blk + 1);
    }
  }

  /** When decoding suspends, unread_marker and insufficient_data, which are not saved and restored, are as before. */
  lemma McuStop(slots: seq<Slot>, input: seq<Byte>, r: Reader, dc: seq<int>)
    requires SlotsOk(slots, |dc|) && r.Ok(input) && Mcu(slots, input, r, dc).Wait?
    ensures var r' := Mcu(slots, input, r, dc).r; r'.marker == r.marker == 0 && r'.starved == r.starved == false
  {
    BlocksStop(slots, input, r, dc, 0);
  }

  // ----- assignments to the coefficients -----

  function Loc(w: Write): int { w.block * 64 + w.index }

  /** The coefficient memory of an MCU, block after block, after some assignments. */
  function Apply(c: seq<int>, ws: seq<Write>): (r: seq<int>)
    requires Inside(ws, |c| / 64)
    ensures |r| == |c|
    decreases |ws|
  {
    if ws == [] then c else Apply(c[Loc(ws[0]) := ws[0].value], ws[1..])
  }

  ghost predicate Written(ws: seq<Write>, x: int) {
    exists i :: 0 <= i < |ws| && Loc(ws[i]) == x
  }

  lemma WrittenTail(ws: seq<Write>, x: int)
    requires ws != []
    ensures Written(ws, x) <==> Loc(ws[0]) == x || Written(ws[1..], x)
  {
    if Written(ws, x) {
      var i :| 0 <= i < |ws| && Loc(ws[i]) == x;
      if i > 0 { assert ws[1..][i - 1] == ws[i]; }
    }
    if Written(ws[1..], x) {
      var i :| 0 <= i < |ws[1..]| && Loc(ws[1..][i]) == x;
      assert ws[i + 1] == ws[1..][i];
    }
  }

  lemma WrittenPrefix(ws: seq<Write>, all: seq<Write>, x: int)
    requires ws <= all && Written(ws, x)
    ensures Written(all, x)
  {
    var i :| 0 <= i < |ws| && Loc(ws[i]) == x;
    assert all[i] == ws[i];
  }

  lemma {:induction false} ApplyAgree(a: seq<int>, b: seq<int>, ws: seq<Write>)
    requires |a| == |b| && Inside(ws, |a| / 64)
    requires forall x :: 0 <= x < |a| && !Written(ws, x) ==> a[x] == b[x]
    ensures Apply(a, ws) == Apply(b, ws)
    decreases |ws|
  {
    if ws != [] {
      var a', b' := a[Loc(ws[0]) := ws[0].value], b[Loc(ws[0]) := ws[0].value];
      forall x | 0 <= x < |a'| && !Written(ws[1..], x) ensures a'[x] == b'[x] {
        WrittenTail(ws, x);
      }
      ApplyAgree(a', b', ws[1..]);
    } else {
      forall x | 0 <= x < |a| ensures a[x] == b[x] { assert !Written(ws, x); }
    }
  }

  lemma {:induction false} ApplyOutside(c: seq<int>, ws: seq<Write>, x: int)
    requires Inside(ws, |c| / 64) && 0 <= x < |c| && !Written(ws, x)
    ensures Apply(c, ws)[x] == c[x]
    decreases |ws|
  {
    if ws != [] {
      WrittenTail(ws, x);
      ApplyOutside(c[Loc(ws[0]) := ws[0].value], ws[1..], x);
    }
  }

  /** Making the first of the assignments twice makes no difference. */
  lemma ApplyTwice(c: seq<int>, ws: seq<Write>, all: seq<Write>)
    requires ws <= all && Inside(all, |c| / 64)
    ensures Inside(ws, |c| / 64) && Apply(Apply(c, ws), all) == Apply(c, all)
  {
    assert forall i :: 0 <= i < |ws| ==> ws[i] == all[i];
    forall x | 0 <= x < |c| && !Written(all, x) ensures Apply(c, ws)[x] == c[x] {
      if Written(ws, x) { WrittenPrefix(ws, all, x); }
      ApplyOutside(c, ws, x);
    }
    ApplyAgree(Apply(c, ws), c, all);
  }

  // ----- data in pieces -----

  datatype Progress = Starving | Finished(coefs: seq<seq<int>>, r: Reader, dc: seq<int>)

  function With(c: seq<int>, p: Progress): Progress {
    match p
    case Starving => Starving
    case Finished(coefs, r, dc) => Finished([c] + coefs, r, dc)
  }

  ghost predicate Sized(mem: seq<seq<int>>, blocks: int) {
    forall i :: 0 <= i < |mem| ==> |mem[i]| == 64 * blocks
  }

  /** Decode one MCU into each of `mem`, calling again with one more piece whenever decode_mcu suspends. */
  ghost function Chunked(slots: seq<Slot>, input: seq<Byte>, chunks: seq<seq<Byte>>, r: Reader, dc: seq<int>,
      mem: seq<seq<int>>): Progress
    requires SlotsOk(slots, |dc|) && r.Ok(input) && Sized(mem, |slots|)
    decreases |mem|, |chunks|
  {
    hide Mcu, SlotsOk, Apply;
    if mem == [] then Finished([], r, dc)
    else
      McuInside(slots, input, r, dc);
      match Mcu(slots, input, r, dc)
      case Complete(ws, r', dc') => With(Apply(mem[0], ws), Chunked(slots, input, chunks, r', dc', mem[1..]))
      case Wait(ws, _) =>
        if chunks == [] then Starving
        else Chunked(slots, input + chunks[0], chunks[1..], r, dc, [Apply(mem[0], ws)] + mem[1..])
  }

  ghost function Whole(slots: seq<Slot>, input: seq<Byte>, r: Reader, dc: seq<int>, mem: seq<seq<int>>): Progress
    requires SlotsOk(slots, |dc|) && r.Ok(input) && Sized(mem, |slots|)
  {
    Chunked(slots, input, [], r, dc, mem)
  }

  /** However the data is cut, the same coefficients, predictions and position come out as from decoding it whole. */
  lemma {:induction false} ChunkedIsWhole(slots: seq<Slot>, input: seq<Byte>, chunks: seq<seq<Byte>>, r: Reader,
      dc: seq<int>, mem: seq<seq<int>>)
    requires SlotsOk(slots, |dc|) && r.Ok(input) && Sized(mem, |slots|)
    ensures Chunked(slots, input, chunks, r, dc, mem) == Whole(slots, input + Concat(chunks), r, dc, mem)
    decreases |mem|, |chunks|
  {
    hide Mcu, SlotsOk, Apply;
    var all := input + Concat(chunks);
    if mem != [] {
      McuInside(slots, input, r, dc);
      McuInside(slots, all, r, dc);
      McuMore(slots, input, Concat(chunks), r, dc);
      match Mcu(slots, input, r, dc)
      case Complete(ws, r', dc') =>
        ChunkedIsWhole(slots, input, chunks, r', dc', mem[1..]);
      case Wait(ws, _) =>
        if chunks == [] {
          assert all == input;
        } else {
          var mem' := [Apply(mem[0], ws)] + mem[1..];
          ChunkedIsWhole(slots, input + chunks[0], chunks[1..], r, dc, mem');
          assert (input + chunks[0]) + Concat(chunks[1..]) == all;
          WholeAgain(slots, all, r, dc, mem, mem', ws);
        }
    }
  }

  lemma WholeAgain(slots: seq<Slot>, all: seq<Byte>, r: Reader, dc: seq<int>, mem: seq<seq<int>>, mem': seq<seq<int>>,
      ws: seq<Write>)
    requires SlotsOk(slots, |dc|) && r.Ok(all) && Sized(mem, |slots|) && mem != [] && Sized(mem', |slots|)
    requires ws <= Mcu(slots, all, r, dc).writes && Inside(ws, |mem[0]| / 64) && mem' == [Apply(mem[0], ws)] + mem[1..]
    ensures Whole(slots, all, r, dc, mem') == Whole(slots, all, r, dc, mem)
  {
    hide Mcu, SlotsOk, Apply;
    McuInside(slots, all, r, dc);
    assert mem'[1..] == mem[1..];
    match Mcu(slots, all, r, dc)
    case Wait(_, _) =>
    case Complete(all', _, _) => ApplyTwice(mem[0], ws, all');
  }
}
