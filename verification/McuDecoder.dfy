/**
 decode_mcu as a method on the decoder's saved state and the coefficient memory, with its loops, proved
 against the functions of McuDecode.
 */
module McuDecoder {
  import opened Huffman
  import opened HuffTables
  import opened BitReader
  import opened HuffDecode
  import opened ZigzagOrder
  import opened McuDecode
  import opened McuChunks

  lemma {:induction false} ApplyPush(c: seq<int>, ws: seq<Write>, w: Write)
    requires Inside(ws + [w], |c| / 64)
    ensures Inside(ws, |c| / 64) && 0 <= Loc(w) < |c| && Apply(c, ws + [w]) == Apply(c, ws)[Loc(w) := w.value]
    decreases |ws|
  {
    assert w == (ws + [w])[|ws|];
    assert Inside(ws, |c| / 64) by { forall i | 0 <= i < |ws| ensures ws[i] == (ws + [w])[i] {} }
    if ws == [] {
      assert ws + [w] == [w] && [w][1..] == [];
    } else {
      assert (ws + [w])[1..] == ws[1..] + [w];
      ApplyPush(c[Loc(ws[0]) := ws[0].value], ws[1..], w);
    }
  }

  /** `mem` is `c` after the assignments `ws`. */
  ghost predicate Holds(mem: seq<int>, c: seq<int>, ws: seq<Write>) {
    Inside(ws, |c| / 64) && mem == Apply(c, ws)
  }

  lemma HoldsPush(mem: seq<int>, c: seq<int>, ws: seq<Write>, w: Write)
    requires Holds(mem, c, ws) && 0 <= w.block < |c| / 64 && 0 <= w.index < 64 && -32768 <= w.value < 32768
    ensures 0 <= Loc(w) < |mem| && Holds(mem[Loc(w) := w.value], c, ws + [w])
  {
    ApplyPush(c, ws, w);
  }

  lemma HoldsNone(c: seq<int>)
    ensures Holds(c, c, [])
  {
  }

  lemma {:induction false} HoldsMore(mem: seq<int>, mem': seq<int>, c: seq<int>, ws: seq<Write>, ws': seq<Write>)
    requires Holds(mem, c, ws) && Holds(mem', mem, ws')
    ensures Holds(mem', c, ws + ws')
    decreases |ws'|
  {
    if ws' == [] {
      assert ws + ws' == ws;
    } else {
      var w := ws'[0];
      HoldsPush(mem, c, ws, w);
      assert Holds(mem', mem[Loc(w) := w.value], ws'[1..]);
      HoldsMore(mem[Loc(w) := w.value], mem', c, ws + [w], ws'[1..]);
      assert (ws + [w]) + ws'[1..] == ws + ws';
    }
  }

  lemma AfterAfter(a: seq<Write>, b: seq<Write>, o: Out)
    ensures After(a, After(b, o)) == After(a + b, o) && After([], o) == o
  {
    assert a + (b + o.writes) == (a + b) + o.writes;
    assert [] + o.writes == o.writes;
  }

  /** The AC coefficients of a block. */
  method DecodeAc(t: Table, d: Derived, input: seq<Byte>, r: Reader, blk: int, needed: bool, coef: array<int>)
      returns (ok: bool, r': Reader)
    requires InUse(t, d) && r.Ok(input) && 0 <= blk < coef.Length / 64
    modifies coef
    ensures r' == AcFrom(t, d, input, r, blk, needed, 1).r && ok == AcFrom(t, d, input, r, blk, needed, 1).Done?
    ensures Holds(coef[..], old(coef[..]), AcFrom(t, d, input, r, blk, needed, 1).writes)
  {
    hide InUse, Fetch, Get, Coef, Extend, Natural, Holds, After, AcFrom;
    ghost var c := coef[..];
    ghost var full := AcFrom(t, d, input, r, blk, needed, 1);
    ghost var ws := [];
    HoldsNone(c);
    AfterAfter([], [], full);
    var k := 1;
    r' := r;
    while k < 64
      invariant 1 <= k && r'.Ok(input)
      invariant full == After(ws, AcFrom(t, d, input, r', blk, needed, k))
      invariant Holds(coef[..], c, ws)
      decreases 80 - k
    {
      ghost var r0, k0 := r', k;
      AcStep(t, d, input, r0, blk, needed, k0);
      var s := DecodeSymbol(t, d, input, r');
      if s.NoSymbol? {
        AfterStop(ws, r0);
        return false, r';
      }
      r' := s.r;
      var run, size := s.value / 16, s.value % 16;
      if size != 0 {
        k := k + run;
        var g := GetBits(input, r', size);
        if g.Stuck? {
          AfterStop(ws, r');
          return false, r';
        }
        r' := g.r;
        if needed {
          var v := Coef(Extend(g.value, size));
          ghost var w := Write(blk, Natural(k), v);
          HoldsPush(coef[..], c, ws, w);
          ghost var mem := coef[..];
          coef[blk * 64 + Natural(k)] := v;
          assert coef[..] == mem[Loc(w) := w.value];
          AfterAfter(ws, [w], AcFrom(t, d, input, r', blk, needed, k + 1));
          ws := ws + [w];
        } else {
          AfterAfter(ws, [], AcFrom(t, d, input, r', blk, needed, k + 1));
        }
      } else {
        if run != 15 {
          AfterStop(ws, r');
          return true, r';
        }
        k := k + 15;
      }
      k := k + 1;
    }
    AfterStop(ws, r');
    AcOver(t, d, input, r', blk, needed, k);
    return true, r';
  }

  lemma AcOver(t: Table, d: Derived, input: seq<Byte>, r: Reader, blk: int, needed: bool, k: int)
    requires InUse(t, d) && r.Ok(input) && 64 <= k
    ensures AcFrom(t, d, input, r, blk, needed, k) == Done([], r)
  {
  }

  lemma AfterStop(ws: seq<Write>, r: Reader)
    ensures After(ws, Stop([], r)) == Stop(ws, r) && After(ws, Done([], r)) == Done(ws, r)
  {
    assert ws + [] == ws;
  }

  /** What read_restart_marker reports when it is called, and how far it has read. */
  datatype Restart = NotYet(pos: int, marker: Byte) | Synced(pos: int, marker: Byte)

  /** The saved state that decode_mcu starts from. */
  datatype State = State(r: Reader, dc: seq<int>, togo: int)

  function Resync(s: State, interval: int, restart: Restart): State
    requires restart.Synced?
  {
    var r := Reader(s.r.buffer, 0, restart.pos, restart.marker, s.r.starved && restart.marker != 0);
    State(r, seq(|s.dc|, i => 0), interval)
  }

  /** Decoding starts over behind a restart marker: no bits in hand, every prediction 0, a full interval to go, and no
      longer out of data unless the marker reader has stopped at another marker. */
  ghost predicate StartsOver(s: State, s': State, interval: int, restart: Restart) {
    && s'.r.left == 0 && s'.r.pos == restart.pos && s'.r.marker == restart.marker
    && (s'.r.starved <==> s.r.starved && restart.marker != 0)
    && |s'.dc| == |s.dc| && (forall i :: 0 <= i < |s'.dc| ==> s'.dc[i] == 0) && s'.togo == interval
  }

  /** The restart has to wait: the bits are dropped, and the marker reader may have got further. */
  function Halted(s: State, restart: Restart): State {
    s.(r := s.r.(left := 0, pos := restart.pos, marker := restart.marker))
  }

  class Decoder {
    const slots: seq<Slot>
    const comps: nat
    const interval: int
    var input: seq<Byte>
    var buffer: int
    var left: int
    var pos: int
    var marker: Byte
    var starved: bool
    var dc: seq<int>
    var restartsToGo: int

    function Saved(): State
      reads this
    {
      State(Reader(buffer, left, pos, marker, starved), dc, restartsToGo)
    }

    ghost predicate Valid()
      reads this
    {
      SlotsOk(slots, comps) && |dc| == comps && Saved().r.Ok(input) && 0 <= restartsToGo < WORD && 0 <= interval < WORD
    }

    /** start_pass_huff_decoder with the tables already derived. */
    constructor (slots: seq<Slot>, comps: nat, interval: int, input: seq<Byte>, pos: int)
      requires SlotsOk(slots, comps) && 0 <= interval < WORD && 0 <= pos <= |input|
      ensures Valid() && Saved() == State(Reader(0, 0, pos, 0, false), seq(comps, i => 0), interval)
      ensures this.slots == slots && this.input == input && this.interval == interval
    {
      this.slots, this.comps, this.interval, this.input, this.pos := slots, comps, interval, input, pos;
      buffer, left, marker, starved := 0, 0, 0, false;
      dc, restartsToGo := seq(comps, i => 0), interval;
    }

    /** More data arrives between two calls. */
    method Deliver(more: seq<Byte>)
      requires Valid()
      modifies this`input
      ensures Valid() && input == old(input) + more
    {
      input := input + more;
    }

    /** The marker reader stays within the data and does not lose the marker that stopped the decoder. */
    predicate RestartOk(restart: Restart)
      reads this
    {
      0 <= restart.pos <= |input| && (restart.NotYet? && starved ==> restart.marker != 0)
    }

    /** process_restart: what is reset, and when. */
    method ProcessRestart(restart: Restart) returns (ok: bool)
      requires Valid() && RestartOk(restart)
      modifies this
      ensures Valid() && input == old(input) && ok == restart.Synced?
      ensures ok ==> Saved() == Resync(old(Saved()), interval, restart)
      ensures ok ==> StartsOver(old(Saved()), Saved(), interval, restart)
      ensures !ok ==> Saved() == Halted(old(Saved()), restart)
    {
      left := 0;
      pos, marker := restart.pos, restart.marker;
      if restart.NotYet? {
        return false;
      }
      var ci := 0;
      while ci < comps
        invariant 0 <= ci <= comps && |dc| == comps && forall i :: 0 <= i < ci ==> dc[i] == 0
        invariant input == old(input) && buffer == old(buffer) && left == 0 && pos == restart.pos
        invariant marker == restart.marker
        invariant starved == old(starved)
      {
        dc := dc[ci := 0];
        ci := ci + 1;
      }
      restartsToGo := interval;
      if marker == 0 {
        starved := false;
      }
      return true;
    }

    ghost function Due(): bool
      reads this
    {
      interval != 0 && restartsToGo == 0
    }

    method DecodeMcu(coef: array<int>, restart: Restart) returns (ok: bool)
      requires Valid() && coef.Length == 64 * |slots| && RestartOk(restart)
      modifies this, coef
      ensures Valid() && input == old(input)
      ensures old(Due()) <==> old(interval != 0 && restartsToGo == 0)
      ensures old(Due()) && restart.NotYet? ==>
                !ok && coef[..] == old(coef[..]) && Saved() == Halted(old(Saved()), restart)
      ensures !(old(Due()) && restart.NotYet?) ==>
                var s := if old(Due()) then Resync(old(Saved()), interval, restart) else old(Saved());
                s.r.Ok(input) && |s.dc| == comps &&
                (old(Due()) ==> StartsOver(old(Saved()), s, interval, restart)) &&
                match Mcu(slots, input, s.r, s.dc)
                case Wait(ws, _) => !ok && Holds(coef[..], old(coef[..]), ws) && Saved() == s
                case Complete(ws, r', dc') => ok && Holds(coef[..], old(coef[..]), ws)
                                              && Saved() == State(r', dc', (s.togo - 1) % WORD)
    {
      hide Mcu, SlotsOk, Holds;
      if interval != 0 && restartsToGo == 0 {
        ok := ProcessRestart(restart);
        if !ok {
          return;
        }
      }
      ok := DecodeCoefs(coef);
    }

    /** decode_mcu after restart processing. */
    method DecodeCoefs(coef: array<int>) returns (ok: bool)
      requires Valid() && coef.Length == 64 * |slots|
      modifies this, coef
      ensures Valid() && input == old(input)
      ensures match Mcu(slots, input, old(Saved()).r, old(Saved()).dc)
              case Wait(ws, _) => !ok && Holds(coef[..], old(coef[..]), ws) && Saved() == old(Saved())
              case Complete(ws, r', dc') => ok && Holds(coef[..], old(coef[..]), ws)
                                            && Saved() == State(r', dc', (old(restartsToGo) - 1) % WORD)
    {
      hide Mcu, SlotsOk, Holds;
      var r := Reader(buffer, left, pos, marker, starved);
      if !starved {
        var good, r', dc' := DecodeBlocks(slots, input, r, dc, coef);
        if !good {
          McuStop(slots, input, r, dc);
          marker, starved := r'.marker, r'.starved;
          return false;
        }
        buffer, left, pos, marker, starved := r'.buffer, r'.left, r'.pos, r'.marker, r'.starved;
        dc := dc';
      } else {
        McuStarved(slots, input, r, dc);
        HoldsNone(coef[..]);
      }
      restartsToGo := (restartsToGo - 1) % WORD;
      return true;
    }
  }

  lemma McuStarved(slots: seq<Slot>, input: seq<Byte>, r: Reader, dc: seq<int>)
    requires SlotsOk(slots, |dc|) && r.Ok(input) && r.starved
    ensures Mcu(slots, input, r, dc) == Complete([], r, dc)
  {
  }

  /** The blocks of an MCU that is not skipped. */
  method DecodeBlocks(slots: seq<Slot>, input: seq<Byte>, r: Reader, dc: seq<int>, coef: array<int>)
      returns (ok: bool, r': Reader, dc': seq<int>)
    requires SlotsOk(slots, |dc|) && r.Ok(input) && !r.starved && coef.Length == 64 * |slots|
    modifies coef
    ensures var o := Mcu(slots, input, r, dc); ok == o.Complete? && r' == o.r && (ok ==> dc' == o.dc)
    ensures Holds(coef[..], old(coef[..]), Mcu(slots, input, r, dc).writes)
  {
    hide SlotOk, Holds, Block, AfterMcu, BlocksFrom;
    ghost var c := coef[..];
    ghost var full := BlocksFrom(slots, input, r, dc, 0);
    ghost var ws := [];
    HoldsNone(c);
    McuAfter([], [], full);
    r', dc' := r, dc;
    var blkn := 0;
    while blkn < |slots|
      invariant 0 <= blkn <= |slots| && r'.Ok(input) && |dc'| == |dc|
      invariant full == AfterMcu(ws, BlocksFrom(slots, input, r', dc', blkn))
      invariant Holds(coef[..], c, ws)
    {
      assert SlotOk(slots[blkn], |dc'|);
      BlocksStep(slots, input, r', dc', blkn);
      ghost var mem, r0, dc0 := coef[..], r', dc';
      ok, r', dc' := DecodeBlock(slots[blkn], input, r', dc', blkn, coef);
      ghost var o := Block(slots[blkn], input, r0, dc0, blkn);
      HoldsMore(mem, coef[..], c, ws, o.writes);
      if !ok {
        McuAfter(ws, o.writes, full);
        return;
      }
      McuAfter(ws, o.writes, BlocksFrom(slots, input, r', dc', blkn + 1));
      ws := ws + o.writes;
      blkn := blkn + 1;
    }
    BlocksOver(slots, input, r', dc');
    McuAfter(ws, [], full);
    assert ws + [] == ws;
    return true, r', dc';
  }

  lemma McuAfter(a: seq<Write>, b: seq<Write>, o: McuOut)
    ensures AfterMcu(a, AfterMcu(b, o)) == AfterMcu(a + b, o) && AfterMcu([], o) == o
    ensures forall r :: AfterMcu(a, Wait(b, r)) == Wait(a + b, r)
    ensures forall r, dc :: AfterMcu(a, Complete(b, r, dc)) == Complete(a + b, r, dc)
  {
    assert a + (b + o.writes) == (a + b) + o.writes;
    assert [] + o.writes == o.writes;
  }

  lemma BlocksStep(slots: seq<Slot>, input: seq<Byte>, r: Reader, dc: seq<int>, blk: int)
    requires SlotsOk(slots, |dc|) && r.Ok(input) && 0 <= blk < |slots|
    ensures SlotOk(slots[blk], |dc|)
    ensures match Block(slots[blk], input, r, dc, blk)
            case Wait(ws, r1) => BlocksFrom(slots, input, r, dc, blk) == Wait(ws, r1)
            case Complete(ws, r1, dc1) => BlocksFrom(slots, input, r, dc, blk)
                                          == AfterMcu(ws, BlocksFrom(slots, input, r1, dc1, blk + 1))
  {
    hide Block;
  }

  lemma BlocksOver(slots: seq<Slot>, input: seq<Byte>, r: Reader, dc: seq<int>)
    requires SlotsOk(slots, |dc|) && r.Ok(input)
    ensures BlocksFrom(slots, input, r, dc, |slots|) == Complete([], r, dc)
  {
    hide Block, SlotsOk;
  }

  method DecodeBlock(s: Slot, input: seq<Byte>, r: Reader, dc: seq<int>, blk: int, coef: array<int>)
      returns (ok: bool, r': Reader, dc': seq<int>)
    requires SlotOk(s, |dc|) && r.Ok(input) && 0 <= blk < coef.Length / 64
    modifies coef
    ensures var o := Block(s, input, r, dc, blk); ok == o.Complete? && r' == o.r && (ok ==> dc' == o.dc)
    ensures |dc'| == |dc|
    ensures Holds(coef[..], old(coef[..]), Block(s, input, r, dc, blk).writes)
  {
    hide InUse, Fetch, Get, Holds, AcFrom, Coef, Extend;
    ghost var c := coef[..];
    ghost var ws := [];
    HoldsNone(c);
    r', dc' := r, dc;
    DecodeSmall(s.dcTable, s.dcDerived, input, r);
    var y := DecodeSymbol(s.dcTable, s.dcDerived, input, r);
    if y.NoSymbol? {
      assert Block(s, input, r, dc, blk) == Wait([], r');
      return false, r', dc';
    }
    r' := y.r;
    var v := y.value;
    if v != 0 {
      var g := GetBits(input, r', v);
      if g.Stuck? {
        assert Block(s, input, r, dc, blk) == Wait([], r');
        return false, r', dc';
      }
      r' := g.r;
      v := Extend(g.value, v);
    }
    assert DcDiff(s.dcTable, s.dcDerived, input, r) == Diff(v, r');
    if s.dcNeeded {
      v := v + dc'[s.comp];
      dc' := dc'[s.comp := v];
      ghost var w := Write(blk, 0, Coef(v));
      HoldsPush(coef[..], c, ws, w);
      coef[blk * 64] := Coef(v);
      assert coef[..] == c[Loc(w) := w.value];
      ws := ws + [w];
    }
    ghost var mem, r1 := coef[..], r';
    ok, r' := DecodeAc(s.acTable, s.acDerived, input, r', blk, s.acNeeded, coef);
    assert Block(s, input, r, dc, blk).writes
        == ws + AcFrom(s.acTable, s.acDerived, input, r1, blk, s.acNeeded, 1).writes;
    HoldsMore(mem, coef[..], c, ws, AcFrom(s.acTable, s.acDerived, input, r1, blk, s.acNeeded, 1).writes);
  }
}
