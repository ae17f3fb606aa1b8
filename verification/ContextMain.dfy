/**
 process_data_context_main of components/gui/GUI/JPEG/jdmainct.c.  decompress_data and the postprocessor
 are outside: each call may find no data, and the postprocessor may take any number of the row groups it
 is offered.
 */
module ContextMain {
  import opened Arith
  import opened ContextPointers
  import opened ContextRows

  datatype Phase = Prepare | Process | Postponed

  predicate RoomAt(s: Shape, p: Comp, pos: int) {
    s.Ok() && Sized(s, p) && pos * s.g + 3 * s.g <= s.l + 4 * s.g
  }

  /** What all components show around position `pos` of list `w`. */
  function Offered(shapes: seq<Shape>, comps: seq<Comp>, w: int, pos: int): (v: seq<seq<int>>)
    requires |comps| == |shapes| && pos >= 0
    requires forall i :: 0 <= i < |comps| ==> RoomAt(shapes[i], comps[i], pos)
    ensures |v| == |comps|
  {
    seq(|comps|, i requires 0 <= i < |comps| && RoomAt(shapes[i], comps[i], pos) =>
        Shows(shapes[i], List(comps[i], w), comps[i].rows, pos))
  }

  ghost predicate AllSized(c: Config, comps: seq<Comp>) {
    c.Valid() && |comps| == |c.shapes| && forall i :: 0 <= i < |comps| ==> c.Fits(c.shapes[i])
                                                                           && Sized(c.shapes[i], comps[i])
  }

  /** The lists and the workspace of every component are in order before the bottom of the image. */
  ghost predicate AllOk(c: Config, comps: seq<Comp>, read: int, wrapped: bool)
    requires AllSized(c, comps)
  {
    forall i :: 0 <= i < |comps| ==> Held(c.shapes[i], comps[i].rows, read) && ListsOk(c.shapes[i], comps[i], wrapped)
  }

  /** Position `pos` of list `w` can be offered, and shows group `n` as it should be. */
  ghost predicate Offers(c: Config, comps: seq<Comp>, w: int, pos: int, n: int)
    requires AllSized(c, comps)
  {
    && pos >= 0 && (forall i :: 0 <= i < |comps| ==> RoomAt(c.shapes[i], comps[i], pos))
    && Offered(c.shapes, comps, w, pos) == Expected(c, n)
  }

  lemma ProcessOffers(c: Config, comps: seq<Comp>, read: int, j: int)
    requires AllSized(c, comps) && 1 <= read < c.t && 0 <= j <= c.m - 2 && AllOk(c, comps, read, read >= 2)
    ensures Offers(c, comps, Turn(read), j, (read - 1) * c.m + j)
  {
    hide Held, ListsOk;
    forall i | 0 <= i < |comps|
      ensures RoomAt(c.shapes[i], comps[i], j)
      ensures Shows(c.shapes[i], List(comps[i], Turn(read)), comps[i].rows, j)
              == Around(c, c.shapes[i], (read - 1) * c.m + j)
    {
      ProcessShows(c, c.shapes[i], comps[i], read, j);
    }
  }

  lemma PostponedOffers(c: Config, comps: seq<Comp>, read: int)
    requires AllSized(c, comps) && 2 <= read <= c.t && AllOk(c, comps, read, true)
    ensures Offers(c, comps, Turn(read), c.m + 1, (read - 1) * c.m - 1)
  {
    hide Held, ListsOk;
    forall i | 0 <= i < |comps|
      ensures RoomAt(c.shapes[i], comps[i], c.m + 1)
      ensures Shows(c.shapes[i], List(comps[i], Turn(read)), comps[i].rows, c.m + 1)
              == Around(c, c.shapes[i], (read - 1) * c.m - 1)
    {
      PostponedShows(c, c.shapes[i], comps[i], read);
    }
  }

  /** Every component after set_bottom_pointers on list `w`. */
  ghost predicate AllBottomed(c: Config, comps: seq<Comp>, comps': seq<Comp>, w: int)
    requires AllSized(c, comps) && AllSized(c, comps')
  {
    forall i :: 0 <= i < |comps| ==> comps'[i].rows == comps[i].rows
                                     && Bottomed(c.shapes[i], List(comps[i], w), List(comps'[i], w))
  }

  lemma BottomOffers(c: Config, comps: seq<Comp>, comps': seq<Comp>, j: int)
    requires AllSized(c, comps) && AllSized(c, comps') && AllOk(c, comps, c.t, c.t >= 2)
    requires AllBottomed(c, comps, comps', Turn(c.t))
    requires 0 <= j < c.n - (c.t - 1) * c.m
    ensures Offers(c, comps', Turn(c.t), j, (c.t - 1) * c.m + j)
  {
    hide Held, ListsOk, Bottomed;
    forall i | 0 <= i < |comps'|
      ensures RoomAt(c.shapes[i], comps'[i], j)
      ensures Shows(c.shapes[i], List(comps'[i], Turn(c.t)), comps'[i].rows, j)
              == Around(c, c.shapes[i], (c.t - 1) * c.m + j)
    {
      SameCount(c, c.shapes[i]);
      BottomShows(c, c.shapes[i], comps[i], List(comps'[i], Turn(c.t)), j);
    }
  }

  function Nth(base: int, j: int): int { base + j }

  /** The number of group `j` of the last iMCU row read. */
  function Group(c: Config, read: int, j: int): int { (read - 1) * c.m + j }

  /** Row groups offered before the next iMCU row is needed. */
  function Avail(c: Config, read: int): int {
    if read == c.t then c.n - (c.t - 1) * c.m else c.m - 1
  }

  /** The number of row groups that `read` iMCU rows let through: all but the last of them, or all at the bottom. */
  function End(c: Config, read: int): int { if read == c.t then c.n else read * c.m - 1 }

  function Upto(x: int, end: int): int { if x <= end then x else end }

  /** The number of row groups passed on after a call that has `read` iMCU rows, `n` groups having been passed on
      before: first the postponed one, if it is its turn, then those of the iMCU row. */
  function Passed(c: Config, read: int, n: int, take: nat, outputFull: bool, more: nat): int {
    if n == (read - 1) * c.m - 1 then
      if take == 0 then n else if outputFull then n + 1 else Upto(n + 1 + more, End(c, read))
    else Upto(n + more, End(c, read))
  }

  class Controller {
    const c: Config
    var comps: seq<Comp>
    var full: bool
    var ctr: int
    var which: int
    var phase: Phase
    var avail: int
    var read: int
    ghost var shown: seq<seq<seq<int>>>

    /** Everything passed on so far: groups 0, 1, 2, ... in order, each between its neighbours. */
    ghost predicate InOrder()
      reads this
      requires c.Valid()
    {
      |shown| <= c.n && forall i :: 0 <= i < |shown| ==> shown[i] == Expected(c, i)
    }

    /** Where the machine is, by phase. */
    ghost predicate Control()
      reads this
    {
      match phase
      case Prepare =>
        if !full then read == 0 && |shown| == 0 && which == 0
        else 1 <= read <= c.t && which == Turn(read) && |shown| == (read - 1) * c.m
      case Process =>
        full && 1 <= read <= c.t && which == Turn(read) && avail == Avail(c, read) && 0 <= ctr < avail
            && |shown| == (read - 1) * c.m + ctr
      case Postponed =>
        && ctr == c.m + 1 && avail == c.m + 2 && 1 <= read <= c.t
        && if full then 2 <= read && which == Turn(read) && |shown| == (read - 1) * c.m - 1
           else which == Turn(read + 1) && |shown| == if read == c.t then c.n else read * c.m - 1
    }

    /** Before the bottom the lists are in order; at the bottom the groups still to come are as they should be. */
    ghost predicate Pointers()
      reads this
      requires AllSized(c, comps)
    {
      && (phase.Process? && read == c.t ==>
            forall j :: ctr <= j < avail ==> Offers(c, comps, which, j, Group(c, read, j)))
      && (!(phase.Process? && read == c.t) && !Finished() ==> AllOk(c, comps, read, read >= 2 || phase.Postponed?))
    }

    ghost predicate Finished()
      reads this
    {
      |shown| == c.n
    }

    ghost predicate Valid()
      reads this
    {
      AllSized(c, comps) && InOrder() && Control() && Pointers()
    }

    /** start_pass_main for a pass with context rows. */
    constructor (c: Config)
      requires c.Valid()
      ensures Valid() && this.c == c && |shown| == 0
    {
      hide Held, ListsOk;
      var comps: seq<Comp> := [];
      var i := 0;
      while i < |c.shapes|
        invariant 0 <= i <= |c.shapes| && |comps| == i
        invariant forall k :: 0 <= k < i ==> c.Fits(c.shapes[k]) && Sized(c.shapes[k], comps[k])
        invariant forall k :: 0 <= k < i ==> Held(c.shapes[k], comps[k].rows, 0)
                                             && ListsOk(c.shapes[k], comps[k], false)
      {
        var s := c.shapes[i];
        assert c.Fits(s);
        var p := NewComp(s);
        comps := comps + [p];
        i := i + 1;
      }
      this.c, this.comps := c, comps;
      full, ctr, which, phase, avail, read, shown := false, 0, 0, Prepare, 0, 0, [];
    }

    /** The postprocessor takes up to `take` of the row groups it is offered. */
    method Feed(take: nat, ghost base: int)
      requires AllSized(c, comps) && InOrder() && base == |shown| - ctr && 0 <= ctr <= avail && base + avail <= c.n
      requires forall j :: ctr <= j < avail ==> Offers(c, comps, which, j, Nth(base, j))
      modifies this`ctr, this`shown
      ensures InOrder() && |shown| == base + ctr && old(shown) <= shown
      ensures ctr == if old(ctr) + take <= avail then old(ctr) + take else avail
    {
      hide Offered, Expected;
      var taken := 0;
      while taken < take && ctr < avail
        invariant taken == ctr - old(ctr) <= take
        invariant old(ctr) <= ctr <= avail && |shown| == base + ctr && InOrder() && old(shown) <= shown
      {
        ghost var before := shown;
        assert Offers(c, comps, which, ctr, Nth(base, ctr));
        shown := shown + [Offered(c.shapes, comps, which, ctr)];
        assert forall i :: 0 <= i < |before| ==> shown[i] == before[i];
        ctr := ctr + 1;
        taken := taken + 1;
      }
    }

    /** The next iMCU row arrives through the list in use. */
    method ReadRow()
      requires AllSized(c, comps) && 0 <= read < c.t && which == Turn(read + 1) && AllOk(c, comps, read, read >= 1)
      modifies this`comps
      ensures AllSized(c, comps) && AllOk(c, comps, read + 1, read >= 1)
    {
      hide Held, ListsOk;
      ghost var was := comps;
      var i := 0;
      while i < |comps|
        invariant 0 <= i <= |comps| && AllSized(c, comps) && |comps| == |was|
        invariant forall k :: 0 <= k < i ==> Held(c.shapes[k], comps[k].rows, read + 1)
                                             && ListsOk(c.shapes[k], comps[k], read >= 1)
        invariant forall k :: i <= k < |was| ==> comps[k] == was[k]
      {
        var s := c.shapes[i];
        assert c.Fits(s) && Held(s, comps[i].rows, read) && ListsOk(s, comps[i], read >= 1);
        var p := ReadInto(s, comps[i], which, read);
        comps := comps[i := p];
        i := i + 1;
      }
    }

    /** After the first iMCU row the lists wrap around. */
    method WrapLists()
      requires AllSized(c, comps)
      modifies this`comps
      ensures AllSized(c, comps) && (old(AllOk(c, comps, 1, false)) ==> AllOk(c, comps, 1, true))
    {
      hide Held, ListsOk;
      ghost var was := comps;
      var i := 0;
      while i < |comps|
        invariant 0 <= i <= |comps| && AllSized(c, comps) && |comps| == |was|
        invariant forall k :: 0 <= k < i && Held(c.shapes[k], was[k].rows, 1) && ListsOk(c.shapes[k], was[k], false) ==>
                    Held(c.shapes[k], comps[k].rows, 1) && ListsOk(c.shapes[k], comps[k], true)
        invariant forall k :: i <= k < |was| ==> comps[k] == was[k]
      {
        var s := c.shapes[i];
        assert c.Fits(s) && Sized(s, comps[i]);
        var p := WrapComp(s, comps[i]);
        comps := comps[i := p];
        i := i + 1;
      }
    }

    /** set_bottom_pointers: repeat the last real row and count the real row groups. */
    method BottomLists()
      requires AllSized(c, comps) && read == c.t && which == Turn(read) && AllOk(c, comps, read, read >= 2)
      modifies this`comps, this`avail
      ensures AllSized(c, comps) && avail == c.n - (c.t - 1) * c.m && 1 <= avail <= c.m
      ensures forall j :: 0 <= j < avail ==> Offers(c, comps, which, j, Group(c, read, j))
    {
      hide Held, ListsOk, Bottomed, Offers, RowsLeft;
      ghost var was := comps;
      var i := 0;
      while i < |comps|
        invariant 0 <= i <= |comps| && AllSized(c, comps) && |comps| == |was|
        invariant forall k :: 0 <= k < i ==> comps[k].rows == was[k].rows
                                             && Bottomed(c.shapes[k], List(was[k], which), List(comps[k], which))
        invariant forall k :: i <= k < |was| ==> comps[k] == was[k]
        invariant i > 0 ==> avail == c.n - (c.t - 1) * c.m && 1 <= avail <= c.m
      {
        var s := c.shapes[i];
        assert c.Fits(s) && Sized(s, comps[i]);
        SameCount(c, s);
        if i == 0 {
          avail := (RowsLeft(s) - 1) / s.g + 1;
        }
        var p := SetBottom(s, comps[i], which);
        comps := comps[i := p];
        i := i + 1;
      }
      forall j | 0 <= j < avail ensures Offers(c, comps, which, j, Group(c, read, j)) {
        BottomOffers(c, was, comps, j);
      }
    }

    /** Ask for an iMCU row when the last one is used up. */
    method ReadNext()
      requires Valid() && !Finished() && !full
      modifies this`comps, this`full, this`read
      ensures Valid() && !Finished() && full && read == old(read) + 1
    {
      hide AllOk, Offers, Expected;
      assert read == 0 ==> Turn(read + 1) == 0;
      ReadRow();
      full := true;
      read := read + 1;
    }

    /** Pass on the postponed last group of the iMCU row before. */
    method FeedPostponed(take: nat)
      requires Valid() && full && phase.Postponed?
      modifies this`ctr, this`shown
      ensures InOrder() && |shown| == old(|shown|) + ctr - old(ctr) && old(shown) <= shown
      ensures ctr == if take == 0 then old(ctr) else avail
    {
      hide AllOk, Offers, Expected;
      PostponedOffers(c, comps, read);
      GroupsLeft(c, read);
      ghost var base := |shown| - ctr;
      forall j | ctr <= j < avail ensures Offers(c, comps, which, j, Nth(base, j)) {
        assert j == c.m + 1;
      }
      Feed(take, base);
    }

    /** Offer the groups of the new iMCU row, all but the last, or all of them at the bottom of the image. */
    method PrepareRow()
      requires Valid() && full && phase.Prepare?
      modifies this`comps, this`ctr, this`avail, this`phase
      ensures Valid() && phase.Process? && ctr == 0
    {
      hide AllOk, Offers, Expected;
      ctr := 0;
      avail := c.m - 1;
      if read == c.t {
        BottomLists();
      }
      phase := Process;
    }

    method FeedRow(more: nat)
      requires Valid() && phase.Process?
      modifies this`ctr, this`shown
      ensures InOrder() && |shown| == old(|shown|) + ctr - old(ctr) && old(shown) <= shown
      ensures ctr == if old(ctr) + more <= avail then old(ctr) + more else avail
    {
      hide AllOk, Offers, Expected;
      GroupsLeft(c, read);
      ghost var base := (read - 1) * c.m;
      forall j | ctr <= j < avail ensures Offers(c, comps, which, j, Nth(base, j)) {
        if read < c.t { ProcessOffers(c, comps, read, j); }
        assert Group(c, read, j) == Nth(base, j);
      }
      Feed(more, base);
    }

    /** The postponed group, if the postprocessor takes it. */
    method PassPostponed(take: nat)
      requires Valid() && full && phase.Postponed?
      modifies this`ctr, this`shown, this`phase
      ensures Valid() && full && !phase.Process? && old(shown) <= shown
      ensures if take == 0 then phase.Postponed? && shown == old(shown)
              else phase.Prepare? && |shown| == old(|shown|) + 1
    {
      hide AllOk, Offers, Expected;
      GroupsLeft(c, read);
      FeedPostponed(take);
      if ctr < avail {
        return;
      }
      phase := Prepare;
    }

    /** The groups of the iMCU row; when all are taken, switch to the other list. */
    method PassRow(more: nat)
      requires Valid() && phase.Process?
      modifies this
      ensures Valid() && old(shown) <= shown && read == old(read) && |shown| == Upto(old(|shown|) + more, End(c, read))
      ensures full <==> |shown| < End(c, read)
    {
      hide AllOk, Offers, Expected;
      GroupsLeft(c, read);
      FeedRow(more);
      if ctr < avail {
        return;
      }
      SwitchLists();
    }

    method SwitchLists()
      requires AllSized(c, comps) && InOrder() && phase.Process? && 1 <= read <= c.t && which == Turn(read)
      requires |shown| == (read - 1) * c.m + Avail(c, read)
      requires read < c.t ==> AllOk(c, comps, read, read >= 2)
      modifies this
      ensures Valid() && shown == old(shown) && read == old(read) && !full
    {
      hide AllOk, Offers, Expected;
      GroupsLeft(c, read);
      if read == 1 {
        WrapLists();
      }
      which := 1 - which;
      full := false;
      ctr, avail := c.m + 1, c.m + 2;
      phase := Postponed;
    }

    /** One call: `got` says whether an iMCU row is there, `take` and `more` how many groups the postprocessor takes. */
    method ProcessData(got: bool, take: nat, outputFull: bool, more: nat)
      requires Valid() && !Finished()
      modifies this
      ensures Valid() && old(shown) <= shown
      ensures !old(full) && !got ==> shown == old(shown) && read == old(read) && !full
      ensures old(full) || got ==>
                && read == (if old(full) then old(read) else old(read) + 1)
                && |shown| == Passed(c, read, old(|shown|), take, outputFull, more)
                && (full <==> |shown| < End(c, read))
      ensures got && take >= 1 && more >= 1 ==> |shown| > old(|shown|)
    {
      hide AllOk, Offers, Expected, Valid;
      ControlFacts();
      if !full {
        if !got {
          return;
        }
        ReadNext();
        ControlFacts();
      }
      if phase.Postponed? {
        PassPostponed(take);
        ControlFacts();
        if phase.Postponed? {
          return;
        }
        if outputFull {
          return;
        }
      }
      if phase.Prepare? {
        PrepareRow();
      }
      PassRow(more);
    }

    /** While there is an iMCU row, a group of it or the postponed one before it is still to come. */
    lemma ControlFacts()
      requires Valid()
      ensures c.Valid() && (full ==> 1 <= read <= c.t && |shown| < End(c, read))
      ensures full ==> (phase.Postponed? <==> |shown| == (read - 1) * c.m - 1)
    {
      hide AllOk, Offers, Expected, InOrder, Pointers;
      if full {
        GroupsLeft(c, read);
        Mono(read, read, c.m);
      }
    }

    /** The last row group has been passed on. */
    predicate Done()
      reads this
    {
      phase.Postponed? && !full && read == c.t
    }

    lemma DoneIff()
      requires Valid()
      ensures Done() <==> Finished()
    {
      hide AllOk, Offers, Expected, InOrder, Pointers;
      if 1 <= read <= c.t { GroupsLeft(c, read); }
    }

    /** A whole pass: as many calls with data and room as there are row groups pass on the whole image. */
    method RunPass(calls: seq<Call>)
      requires Valid()
      modifies this
      ensures Valid() && old(shown) <= shown
      ensures Useful(calls) >= c.n ==> |shown| == c.n && forall i :: 0 <= i < c.n ==> shown[i] == Expected(c, i)
    {
      hide Valid;
      var i := 0;
      DoneIff();
      assert calls[..0] == [];
      while i < |calls| && !Done()
        invariant 0 <= i <= |calls| && Valid() && old(shown) <= shown && (Done() <==> Finished())
        invariant |shown| >= Useful(calls[..i])
      {
        ProcessData(calls[i].got, calls[i].take, calls[i].outputFull, calls[i].more);
        UsefulNext(calls, i);
        i := i + 1;
        DoneIff();
      }
      assert i == |calls| ==> calls[..i] == calls;
      ShownFacts();
    }

    lemma ShownFacts()
      requires Valid()
      ensures |shown| <= c.n && forall i :: 0 <= i < |shown| ==> shown[i] == Expected(c, i)
    {
    }
  }

  /** One call: is an iMCU row there, how many groups are taken, is the output full, how many more are taken. */
  datatype Call = Call(got: bool, take: nat, outputFull: bool, more: nat)

  /** The number of calls with data and room. */
  function Useful(calls: seq<Call>): nat {
    if calls == [] then 0
    else
      var call := calls[|calls| - 1];
      Useful(calls[..|calls| - 1]) + if call.got && call.take >= 1 && call.more >= 1 then 1 else 0
  }

  lemma UsefulNext(calls: seq<Call>, i: int)
    requires 0 <= i < |calls|
    ensures Useful(calls[..i + 1])
            == Useful(calls[..i]) + if calls[i].got && calls[i].take >= 1 && calls[i].more >= 1 then 1 else 0
  {
    assert calls[..i + 1][..i] == calls[..i];
  }

  /** The groups of the iMCU rows read so far are groups of the image. */
  lemma GroupsLeft(c: Config, read: int)
    requires c.Valid() && 1 <= read <= c.t
    ensures (read - 1) * c.m + Avail(c, read) <= c.n && (read - 1) * c.m < c.n
    ensures read < c.t ==> read * c.m - 1 < c.n && (read - 1) * c.m + c.m - 1 == read * c.m - 1
  {
    Mono(read - 1, c.t - 1, c.m);
    Mono(read, read, c.m);
    if read < c.t { Mono(read, c.t - 1, c.m); }
  }

  method ReadInto(s: Shape, p: Comp, w: int, read: int) returns (p': Comp)
    requires s.Ok() && Sized(s, p) && read >= 0 && w == Turn(read + 1) && Held(s, p.rows, read)
    requires ListsOk(s, p, read >= 1)
    ensures Sized(s, p') && Held(s, p'.rows, read + 1) && ListsOk(s, p', read >= 1)
  {
    ListsPlain(s, p, w, read >= 1);
    hide Held, ListsOk, Plain;
    p' := FillRows(s, p, w, read * s.l);
    FilledHeld(s, p.rows, p'.rows, read);
    SameLists(s, p, p', read >= 1);
  }

  lemma ListsPlain(s: Shape, p: Comp, w: int, wrapped: bool)
    requires s.Ok() && Sized(s, p) && (w == 0 || w == 1) && ListsOk(s, p, wrapped)
    ensures Plain(s, p.x0, 0) && Plain(s, p.x1, 1) && Plain(s, List(p, w), w)
  {
  }

  lemma SameLists(s: Shape, p: Comp, p': Comp, wrapped: bool)
    requires s.Ok() && Sized(s, p) && Sized(s, p') && p'.x0 == p.x0 && p'.x1 == p.x1 && ListsOk(s, p, wrapped)
    ensures ListsOk(s, p', wrapped)
  {
  }

  method WrapComp(s: Shape, p: Comp) returns (p': Comp)
    requires s.Ok() && Sized(s, p)
    ensures Sized(s, p') && (Held(s, p.rows, 1) && ListsOk(s, p, false) ==> Held(s, p'.rows, 1) && ListsOk(s, p', true))
  {
    hide Held, WrapOf, Wrapped, Plain;
    p' := SetWraparound(s, p);
    if ListsOk(s, p, false) {
      WrapPlain(s, p.x0, p'.x0, 0);
      WrapPlain(s, p.x1, p'.x1, 1);
    }
  }

  method NewComp(s: Shape) returns (p: Comp)
    requires s.Ok()
    ensures Sized(s, p) && Held(s, p.rows, 0) && ListsOk(s, p, false)
  {
    var rows, x := seq(s.l + 2 * s.g, _ => -1), seq(s.l + 4 * s.g, _ => -1);
    p := MakeFunny(s, Comp(rows, x, x));
  }

  /** decompress_data: an iMCU row goes to the first `l` rows of a list. */
  method FillRows(s: Shape, p: Comp, w: int, from: int) returns (p': Comp)
    requires s.Ok() && Sized(s, p) && (w == 0 || w == 1) && Plain(s, List(p, w), w)
    ensures Sized(s, p') && p'.x0 == p.x0 && p'.x1 == p.x1 && Filled(s, p.rows, p'.rows, w, from)
  {
    var x, rows := List(p, w), p.rows;
    var i := 0;
    while i < s.l
      invariant 0 <= i <= s.l && |rows| == |p.rows|
      invariant forall q :: 0 <= q < s.l + 2 * s.g ==> rows[Base(s, w, q)] == if q < i then from + q
              else p.rows[Base(s, w, q)]
    {
      rows := rows[x[i + s.g] := from + i];
      i := i + 1;
    }
    p' := p.(rows := rows);
  }
}
