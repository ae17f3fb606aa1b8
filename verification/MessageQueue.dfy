/**
 The message queue of kernel/ipc/messagequeue.cpp as a concurrent protocol: each section that runs with
 interrupts disabled is one step, and the copying in between goes byte by byte.
 */
module MessageQueue {

  type Byte = x: int | 0 <= x <= 255

  /** Slots are numbered; -1 is the null pointer. */
  const NULL := -1

  /** The number of slots and the bytes in each. */
  datatype Pool = Pool(slots: nat, size: nat)

  /** Where a caller is.  A receiver also keeps the message it took, for the record. */
  datatype Pc =
    | Outside
    | Sending(slot: int, buf: seq<Byte>, done: int, urgent: bool, cleared: bool)
    | Receiving(slot: int, want: int, got: seq<Byte>, msg: seq<Byte>)

  /** The queue object, the callers, and for the record the slots and messages that are queued and the free slots. */
  datatype State = State(next: seq<int>, data: seq<seq<Byte>>, head: int, tail: int, free: int, entry: int,
                         callers: map<int, Pc>, queue: seq<int>, idle: seq<int>, msgs: seq<seq<Byte>>)

  predicate Holding(pc: Pc) { !pc.Outside? }

  // ----- lists of slots -----

  predicate Distinct(l: seq<int>) {
    forall i, j :: 0 <= i < j < |l| ==> l[i] != l[j]
  }

  /** Slot number `i` of the list points to the one behind it. */
  predicate Follows(next: seq<int>, l: seq<int>, i: int)
    requires 0 <= i < |l|
  {
    0 <= l[i] < |next| && next[l[i]] == if i + 1 < |l| then l[i + 1] else NULL
  }

  /** `l` is the list of slots that starts at `first`. */
  predicate Linked(next: seq<int>, l: seq<int>, first: int) {
    && first == (if l == [] then NULL else l[0])
    && forall i :: 0 <= i < |l| ==> Follows(next, l, i)
  }

  function LastOf(l: seq<int>): int { if l == [] then NULL else l[|l| - 1] }

  lemma LinkedFrame(next: seq<int>, l: seq<int>, first: int, x: int, v: int)
    requires Linked(next, l, first) && x !in l && 0 <= x < |next|
    ensures Linked(next[x := v], l, first)
  {
    var next' := next[x := v];
    forall i | 0 <= i < |l| ensures Follows(next', l, i) {
      assert Follows(next, l, i);
    }
  }

  lemma LinkedPush(next: seq<int>, l: seq<int>, first: int, x: int)
    requires Linked(next, l, first) && x !in l && 0 <= x < |next|
    ensures Linked(next[x := first], [x] + l, x)
  {
    var m, next' := [x] + l, next[x := first];
    forall i | 0 <= i < |m| ensures Follows(next', m, i) {
      if i > 0 { assert Follows(next, l, i - 1); }
    }
  }

  lemma LinkedPop(next: seq<int>, l: seq<int>, first: int)
    requires Linked(next, l, first) && l != []
    ensures 0 <= first < |next| && Linked(next, l[1..], next[first]) && first == l[0]
  {
    assert Follows(next, l, 0);
    forall i | 0 <= i < |l[1..]| ensures Follows(next, l[1..], i) {
      assert Follows(next, l, i + 1);
    }
  }

  lemma LinkedAppend(next: seq<int>, l: seq<int>, first: int, x: int)
    requires Linked(next, l, first) && Distinct(l) && x !in l && 0 <= x < |next| && next[x] == NULL
    ensures l != [] ==> 0 <= LastOf(l) < |next|
    ensures var next' := if l == [] then next else next[LastOf(l) := x];
            Linked(next', l + [x], if l == [] then x else first)
  {
    var m := l + [x];
    if l != [] { assert Follows(next, l, |l| - 1); }
    var next' := if l == [] then next else next[LastOf(l) := x];
    forall i | 0 <= i < |m| ensures Follows(next', m, i) {
      if i < |l| { assert Follows(next, l, i); }
    }
  }

  lemma DistinctPush(l: seq<int>, x: int)
    requires Distinct(l) && x !in l
    ensures Distinct([x] + l) && Distinct(l + [x])
  {
  }

  // ----- the invariant -----

  ghost predicate Shape(p: Pool, s: State) {
    && |s.next| == p.slots && |s.data| == p.slots && (forall i :: 0 <= i < p.slots ==> |s.data[i]| == p.size)
  }

  ghost predicate Lists(s: State) {
    && Linked(s.next, s.queue, s.head) && s.tail == LastOf(s.queue) && Distinct(s.queue) && s.entry == |s.queue|
    && Linked(s.next, s.idle, s.free) && Distinct(s.idle)
  }

  /** A slot is queued, free, or held by one caller, and never two of these. */
  ghost predicate OnePlace(p: Pool, queue: seq<int>, idle: seq<int>, callers: map<int, Pc>) {
    && (forall x :: x in queue ==> 0 <= x < p.slots && x !in idle)
    && (forall x :: x in idle ==> 0 <= x < p.slots)
    && (forall c :: c in callers && Holding(callers[c]) ==> 0 <= callers[c].slot < p.slots && callers[c].slot !in queue
                                                            && callers[c].slot !in idle)
    && (forall c, d :: c in callers && d in callers && c != d && Holding(callers[c]) && Holding(callers[d]) ==>
        callers[c].slot != callers[d].slot)
    && (forall x :: 0 <= x < p.slots ==> x in queue || x in idle || HeldBySome(callers, x))
  }

  ghost predicate HeldBySome(callers: map<int, Pc>, x: int) {
    exists c :: c in callers && Holding(callers[c]) && callers[c].slot == x
  }

  /** Every queued slot holds its message. */
  ghost predicate Stored(p: Pool, data: seq<seq<Byte>>, queue: seq<int>, msgs: seq<seq<Byte>>)
    requires |data| == p.slots && forall i :: 0 <= i < p.slots ==> |data[i]| == p.size
  {
    |msgs| == |queue| && forall i :: 0 <= i < |queue| ==> 0 <= queue[i] < p.slots && 1 <= |msgs[i]| <= p.size
                                                          && msgs[i] <= data[queue[i]]
  }

  /** What a caller has copied so far is right. */
  ghost predicate CopyOk(p: Pool, next: seq<int>, data: seq<seq<Byte>>, pc: Pc) {
    match pc
    case Outside => true
    case Sending(slot, buf, done, urgent, cleared) =>
      && 1 <= |buf| <= p.size && 0 <= done <= |buf| && 0 <= slot < |data| && 0 <= slot < |next|
          && |data[slot]| == p.size
      && buf[..done] == data[slot][..done] && (cleared ==> next[slot] == NULL)
    case Receiving(slot, want, got, msg) =>
      && want >= 1 && 1 <= |msg| <= p.size && 0 <= slot < |data| && |data[slot]| == p.size
      && |got| <= p.size && |got| <= want && got <= data[slot] && msg <= data[slot]
  }

  ghost predicate Copies(p: Pool, next: seq<int>, data: seq<seq<Byte>>, callers: map<int, Pc>) {
    forall c :: c in callers ==> CopyOk(p, next, data, callers[c])
  }

  ghost predicate Inv(p: Pool, s: State) {
    Shape(p, s) && Lists(s) && OnePlace(p, s.queue, s.idle, s.callers) && Stored(p, s.data, s.queue, s.msgs)
        && Copies(p, s.next, s.data, s.callers)
  }

  // ----- the steps -----

  datatype Event =
    | SendStart(c: int, buf: seq<Byte>)
    | UrgentStart(c: int, buf: seq<Byte>)
    | Clear(c: int)
    | CopyIn(c: int)
    | Link(c: int)
    | RecvStart(c: int, want: int)
    | CopyOut(c: int)
    | Release(c: int)
    | Reset

  function Least(a: int, b: int): int { if a < b then a else b }

  /** Where in its routine a caller must be to take a step. */
  ghost predicate Enabled(p: Pool, s: State, e: Event) {
    match e
    case SendStart(c, buf) => c in s.callers && s.callers[c].Outside? && buf != []
    case UrgentStart(c, buf) => c in s.callers && s.callers[c].Outside? && buf != []
    case Clear(c) => c in s.callers && s.callers[c].Sending? && !s.callers[c].urgent && !s.callers[c].cleared
    case CopyIn(c) => c in s.callers && s.callers[c].Sending? && (s.callers[c].urgent || s.callers[c].cleared)
        && s.callers[c].done < |s.callers[c].buf|
    case Link(c) => c in s.callers && s.callers[c].Sending? && (s.callers[c].urgent || s.callers[c].cleared)
        && s.callers[c].done == |s.callers[c].buf|
    case RecvStart(c, want) => c in s.callers && s.callers[c].Outside? && want >= 1
    case CopyOut(c) => c in s.callers && s.callers[c].Receiving?
        && |s.callers[c].got| < Least(s.callers[c].want, p.size)
    case Release(c) => c in s.callers && s.callers[c].Receiving?
        && |s.callers[c].got| == Least(s.callers[c].want, p.size)
    case Reset => true
  }

  /** First section of send and urgent: take a free slot, unless the message is too long or there is none. */
  function Start(p: Pool, s: State, c: int, buf: seq<Byte>, urgent: bool): State
    requires s.free == NULL || (0 <= s.free < |s.next| && s.idle != [])
  {
    if |buf| > p.size || s.free == NULL then s
    else s.(free := s.next[s.free], idle := s.idle[1..],
        callers := s.callers[c := Sending(s.free, buf, 0, urgent, false)])
  }

  /** Last section of send: behind the tail. */
  function LinkTail(s: State, c: int, pc: Pc): State
    requires pc.Sending? && (s.tail == NULL || 0 <= s.tail < |s.next|)
  {
    s.(next := if s.tail != NULL then s.next[s.tail := pc.slot] else s.next, tail := pc.slot,
       head := if s.head == NULL then pc.slot else s.head, entry := s.entry + 1, callers := s.callers[c := Outside],
       queue := s.queue + [pc.slot], msgs := s.msgs + [pc.buf])
  }

  /** Last section of urgent: before the head. */
  function LinkHead(s: State, c: int, pc: Pc): State
    requires pc.Sending? && 0 <= pc.slot < |s.next|
  {
    s.(next := s.next[pc.slot := s.head], head := pc.slot, tail := if s.tail == NULL then pc.slot else s.tail,
       entry := s.entry + 1, callers := s.callers[c := Outside], queue := [pc.slot] + s.queue,
           msgs := [pc.buf] + s.msgs)
  }

  /** First section of recv when a message is there. */
  function Take(s: State, c: int, want: int): State
    requires s.queue != [] && s.msgs != [] && 0 <= s.head < |s.next|
  {
    s.(head := s.next[s.head], tail := if s.tail == s.head then NULL else s.tail, entry := s.entry - 1,
       callers := s.callers[c := Receiving(s.head, want, [], s.msgs[0])], queue := s.queue[1..], msgs := s.msgs[1..])
  }

  /** Last section of recv. */
  function Return(s: State, c: int, slot: int): State
    requires 0 <= slot < |s.next|
  {
    s.(next := s.next[slot := s.free], free := slot, idle := [slot] + s.idle, callers := s.callers[c := Outside])
  }

  /** One round of the loop of a reset. */
  function DrainOne(s: State): State
    requires s.queue != [] && s.msgs != [] && 0 <= s.head < |s.next|
  {
    s.(head := s.next[s.head], tail := if s.tail == s.head then NULL else s.tail, next := s.next[s.head := s.free],
        free := s.head,
       queue := s.queue[1..], msgs := s.msgs[1..], idle := [s.head] + s.idle, entry := s.entry - 1)
  }

  // ----- each step keeps the invariant -----

  /** Callers other than `c` keep what they have copied when only slot `x` is touched. */
  lemma CopiesFrame(p: Pool, next: seq<int>, data: seq<seq<Byte>>, next': seq<int>, data': seq<seq<Byte>>,
      callers: map<int, Pc>, c: int, pc: Pc, x: int)
    requires Copies(p, next, data, callers) && |next'| == |next| && |data'| == |data|
    requires forall i :: 0 <= i < |next| && i != x ==> next'[i] == next[i]
    requires forall i :: 0 <= i < |data| && i != x ==> data'[i] == data[i]
    requires forall d :: d in callers && d != c && Holding(callers[d]) ==> callers[d].slot != x
    requires CopyOk(p, next', data', pc)
    ensures Copies(p, next', data', callers[c := pc])
  {
    var callers' := callers[c := pc];
    forall d | d in callers' ensures CopyOk(p, next', data', callers'[d]) {
      if d != c { assert CopyOk(p, next, data, callers[d]); }
    }
  }

  lemma StartOk(p: Pool, s: State, c: int, buf: seq<Byte>, urgent: bool)
    requires Inv(p, s) && c in s.callers && s.callers[c].Outside? && buf != []
    ensures s.free == NULL || (0 <= s.free < |s.next| && s.idle != [])
    ensures Inv(p, Start(p, s, c, buf, urgent)) && Start(p, s, c, buf, urgent).msgs == s.msgs
  {
    if s.free != NULL {
      LinkedPop(s.next, s.idle, s.free);
      if |buf| <= p.size {
        var x := s.free;
        assert x in s.idle && x !in s.idle[1..];
        assert forall y :: y in s.idle <==> y == x || y in s.idle[1..];
        var pc := Sending(x, buf, 0, urgent, false);
        CopiesFrame(p, s.next, s.data, s.next, s.data, s.callers, c, pc, x);
        PlaceTaken(p, s.queue, s.idle, s.queue, s.idle[1..], s.callers, c, pc);
      }
    }
  }

  /** A slot leaves the two lists for the hands of caller `c`. */
  lemma PlaceTaken(p: Pool, queue: seq<int>, idle: seq<int>, queue': seq<int>, idle': seq<int>, callers: map<int, Pc>,
      c: int, pc: Pc)
    requires OnePlace(p, queue, idle, callers) && c in callers && callers[c].Outside? && Holding(pc)
    requires forall y :: (y in queue || y in idle) <==> y == pc.slot || y in queue' || y in idle'
    requires (forall y :: y in queue' ==> y in queue) && (forall y :: y in idle' ==> y in idle) && pc.slot !in queue'
    requires pc.slot !in idle'
    ensures OnePlace(p, queue', idle', callers[c := pc])
  {
    var callers' := callers[c := pc];
    forall x | 0 <= x < p.slots ensures x in queue' || x in idle' || HeldBySome(callers', x) {
      if HeldBySome(callers, x) {
        var d :| d in callers && Holding(callers[d]) && callers[d].slot == x;
        assert d != c && callers'[d] == callers[d];
      } else if x == pc.slot {
        assert callers'[c].slot == x;
      }
    }
  }

  /** The slot of caller `c` goes to one of the two lists. */
  lemma PlaceGiven(p: Pool, queue: seq<int>, idle: seq<int>, queue': seq<int>, idle': seq<int>, callers: map<int, Pc>,
      c: int)
    requires OnePlace(p, queue, idle, callers) && c in callers && Holding(callers[c])
    requires forall y :: (y in queue' || y in idle') <==> y == callers[c].slot || y in queue || y in idle
    requires forall y :: y in queue' ==> y in queue || y == callers[c].slot
    requires forall y :: y in idle' ==> y in idle || y == callers[c].slot
    requires callers[c].slot !in queue' || callers[c].slot !in idle'
    ensures OnePlace(p, queue', idle', callers[c := Outside])
  {
    var callers' := callers[c := Outside];
    forall x | 0 <= x < p.slots ensures x in queue' || x in idle' || HeldBySome(callers', x) {
      if HeldBySome(callers, x) {
        var d :| d in callers && Holding(callers[d]) && callers[d].slot == x;
        if d != c { assert callers'[d] == callers[d]; }
      }
    }
  }

  /** Same places, another state of one caller that keeps its slot. */
  lemma PlaceKept(p: Pool, queue: seq<int>, idle: seq<int>, callers: map<int, Pc>, c: int, pc: Pc)
    requires OnePlace(p, queue, idle, callers) && c in callers && Holding(callers[c]) && Holding(pc)
    requires pc.slot == callers[c].slot
    ensures OnePlace(p, queue, idle, callers[c := pc])
  {
    var callers' := callers[c := pc];
    forall x | 0 <= x < p.slots ensures x in queue || x in idle || HeldBySome(callers', x) {
      if HeldBySome(callers, x) {
        var d :| d in callers && Holding(callers[d]) && callers[d].slot == x;
        assert callers'[d].slot == x;
      }
    }
  }

  function Cleared(s: State, c: int, pc: Pc): State
    requires pc.Sending? && 0 <= pc.slot < |s.next|
  {
    s.(next := s.next[pc.slot := NULL], callers := s.callers[c := pc.(cleared := true)])
  }

  lemma ClearOk(p: Pool, s: State, c: int)
    requires Inv(p, s) && Enabled(p, s, Clear(c))
    ensures var pc := s.callers[c];
            0 <= pc.slot < |s.next| && Inv(p, Cleared(s, c, pc))
            && Cleared(s, c, pc).msgs == s.msgs
  {
    var pc := s.callers[c];
    var x := pc.slot;
    assert CopyOk(p, s.next, s.data, pc);
    var next := s.next[x := NULL];
    LinkedFrame(s.next, s.queue, s.head, x, NULL);
    LinkedFrame(s.next, s.idle, s.free, x, NULL);
    CopiesFrame(p, s.next, s.data, next, s.data, s.callers, c, pc.(cleared := true), x);
    PlaceKept(p, s.queue, s.idle, s.callers, c, pc.(cleared := true));
  }

  function CopiedIn(s: State, c: int, pc: Pc): State
    requires pc.Sending? && 0 <= pc.slot < |s.data| && 0 <= pc.done < |pc.buf| <= |s.data[pc.slot]|
  {
    s.(data := s.data[pc.slot := s.data[pc.slot][pc.done := pc.buf[pc.done]]],
        callers := s.callers[c := pc.(done := pc.done + 1)])
  }

  lemma CopyInOk(p: Pool, s: State, c: int)
    requires Inv(p, s) && Enabled(p, s, CopyIn(c))
    ensures var pc := s.callers[c];
            && 0 <= pc.slot < |s.data| && 0 <= pc.done < |pc.buf| <= |s.data[pc.slot]|
            && Inv(p, CopiedIn(s, c, pc)) && CopiedIn(s, c, pc).msgs == s.msgs
  {
    var pc := s.callers[c];
    assert CopyOk(p, s.next, s.data, pc);
    var x := pc.slot;
    CopyInPc(p, s.next, s.data, pc);
    hide CopyOk, Linked, Distinct;
    var s' := CopiedIn(s, c, pc);
    CopiesFrame(p, s.next, s.data, s.next, s'.data, s.callers, c, s'.callers[c], x);
    PlaceKept(p, s.queue, s.idle, s.callers, c, s'.callers[c]);
    StoredFrame(p, s.data, s'.data, s.queue, s.msgs, x);
  }

  /** One more byte of the sender's copy. */
  lemma CopyInPc(p: Pool, next: seq<int>, data: seq<seq<Byte>>, pc: Pc)
    requires CopyOk(p, next, data, pc) && pc.Sending? && pc.done < |pc.buf|
    ensures var bytes := data[pc.slot][pc.done := pc.buf[pc.done]];
            |bytes| == |data[pc.slot]| && CopyOk(p, next, data[pc.slot := bytes], pc.(done := pc.done + 1))
  {
    var was, n := data[pc.slot], pc.done;
    var bytes := was[n := pc.buf[n]];
    assert pc.buf[..n + 1] == pc.buf[..n] + [pc.buf[n]];
    assert bytes[..n + 1] == was[..n] + [pc.buf[n]];
  }

  lemma StoredFrame(p: Pool, data: seq<seq<Byte>>, data': seq<seq<Byte>>, queue: seq<int>, msgs: seq<seq<Byte>>, x: int)
    requires |data| == |data'| == p.slots
    requires forall i :: 0 <= i < p.slots ==> |data[i]| == p.size && |data'[i]| == p.size
    requires Stored(p, data, queue, msgs) && x !in queue && forall i :: 0 <= i < p.slots && i != x ==>
            data'[i] == data[i]
    ensures Stored(p, data', queue, msgs)
  {
  }

  lemma TailSlot(s: State)
    requires Lists(s)
    ensures s.tail == NULL <==> s.queue == []
    ensures s.head == NULL <==> s.queue == []
    ensures s.queue != [] ==> 0 <= s.tail < |s.next| && 0 <= s.head < |s.next| && s.tail in s.queue
                              && s.head == s.queue[0]
    ensures s.queue != [] ==> (s.tail == s.head <==> |s.queue| == 1)
  {
    if s.queue != [] {
      assert Follows(s.next, s.queue, |s.queue| - 1) && Follows(s.next, s.queue, 0);
    }
  }

  /** send appends its message. */
  lemma LinkTailOk(p: Pool, s: State, c: int)
    requires Inv(p, s) && Enabled(p, s, Link(c)) && !s.callers[c].urgent
    ensures var pc := s.callers[c];
            (s.tail == NULL || 0 <= s.tail < |s.next|) && Inv(p, LinkTail(s, c, pc))
                && LinkTail(s, c, pc).msgs == s.msgs + [pc.buf]
  {
    var pc := s.callers[c];
    assert CopyOk(p, s.next, s.data, pc);
    var x := pc.slot;
    TailSlot(s);
    var s' := LinkTail(s, c, pc);
    LinkedAppend(s.next, s.queue, s.head, x);
    DistinctPush(s.queue, x);
    if s.queue != [] {
      LinkedFrame(s.next, s.idle, s.free, s.tail, x);
      CopiesFrame(p, s.next, s.data, s'.next, s.data, s.callers, c, Outside, s.tail);
    } else {
      CopiesFrame(p, s.next, s.data, s'.next, s.data, s.callers, c, Outside, x);
    }
    assert forall y :: y in s.queue + [x] <==> y in s.queue || y == x;
    PlaceGiven(p, s.queue, s.idle, s.queue + [x], s.idle, s.callers, c);
    assert pc.buf[..pc.done] == pc.buf;
    assert pc.buf <= s.data[x];
  }

  /** urgent puts its message first. */
  lemma LinkHeadOk(p: Pool, s: State, c: int)
    requires Inv(p, s) && Enabled(p, s, Link(c)) && s.callers[c].urgent
    ensures var pc := s.callers[c];
            0 <= pc.slot < |s.next| && Inv(p, LinkHead(s, c, pc)) && LinkHead(s, c, pc).msgs == [pc.buf] + s.msgs
  {
    var pc := s.callers[c];
    assert CopyOk(p, s.next, s.data, pc);
    var x := pc.slot;
    TailSlot(s);
    var s' := LinkHead(s, c, pc);
    LinkedPush(s.next, s.queue, s.head, x);
    DistinctPush(s.queue, x);
    LinkedFrame(s.next, s.idle, s.free, x, s.head);
    CopiesFrame(p, s.next, s.data, s'.next, s.data, s.callers, c, Outside, x);
    assert forall y :: y in [x] + s.queue <==> y in s.queue || y == x;
    PlaceGiven(p, s.queue, s.idle, [x] + s.queue, s.idle, s.callers, c);
    assert pc.buf[..pc.done] == pc.buf;
    assert pc.buf <= s.data[x];
    StoredFront(p, s.data, s.queue, s.msgs, x, pc.buf);
  }

  lemma StoredFront(p: Pool, data: seq<seq<Byte>>, queue: seq<int>, msgs: seq<seq<Byte>>, x: int, m: seq<Byte>)
    requires |data| == p.slots && (forall i :: 0 <= i < p.slots ==> |data[i]| == p.size)
    requires Stored(p, data, queue, msgs) && 0 <= x < p.slots && 1 <= |m| <= p.size && m <= data[x]
    ensures Stored(p, data, [x] + queue, [m] + msgs)
  {
    var q, n := [x] + queue, [m] + msgs;
    forall i | 0 <= i < |q| ensures 0 <= q[i] < p.slots && 1 <= |n[i]| <= p.size && n[i] <= data[q[i]] {
      if i > 0 { assert q[i] == queue[i - 1] && n[i] == msgs[i - 1]; }
    }
  }

  lemma QueuePop(p: Pool, s: State)
    requires Inv(p, s) && s.queue != []
    ensures 0 <= s.head < |s.next| && s.msgs != [] && s.head == s.queue[0]
    ensures Linked(s.next, s.queue[1..], s.next[s.head]) && Distinct(s.queue[1..]) && s.head !in s.queue[1..]
    ensures (if s.tail == s.head then NULL else s.tail) == LastOf(s.queue[1..])
    ensures forall y :: y in s.queue <==> y == s.head || y in s.queue[1..]
    ensures Stored(p, s.data, s.queue[1..], s.msgs[1..]) && 1 <= |s.msgs[0]| <= p.size && s.msgs[0] <= s.data[s.head]
  {
    TailSlot(s);
    LinkedPop(s.next, s.queue, s.head);
  }

  /** recv takes the first message. */
  lemma TakeOk(p: Pool, s: State, c: int, want: int)
    requires Inv(p, s) && Enabled(p, s, RecvStart(c, want)) && s.queue != []
    ensures s.msgs != [] && 0 <= s.head < |s.next| && Inv(p, Take(s, c, want)) && Take(s, c, want).msgs == s.msgs[1..]
  {
    QueuePop(p, s);
    var x := s.head;
    var pc := Receiving(x, want, [], s.msgs[0]);
    CopiesFrame(p, s.next, s.data, s.next, s.data, s.callers, c, pc, x);
    PlaceTaken(p, s.queue, s.idle, s.queue[1..], s.idle, s.callers, c, pc);
  }

  function CopiedOut(s: State, c: int, pc: Pc): State
    requires pc.Receiving? && 0 <= pc.slot < |s.data| && |pc.got| < |s.data[pc.slot]|
  {
    s.(callers := s.callers[c := pc.(got := pc.got + [s.data[pc.slot][|pc.got|]])])
  }

  lemma CopyOutOk(p: Pool, s: State, c: int)
    requires Inv(p, s) && Enabled(p, s, CopyOut(c))
    ensures var pc := s.callers[c];
            && 0 <= pc.slot < |s.data| && |pc.got| < |s.data[pc.slot]|
            && Inv(p, CopiedOut(s, c, pc)) && CopiedOut(s, c, pc).msgs == s.msgs
  {
    var pc := s.callers[c];
    assert CopyOk(p, s.next, s.data, pc);
    var pc' := pc.(got := pc.got + [s.data[pc.slot][|pc.got|]]);
    CopiesFrame(p, s.next, s.data, s.next, s.data, s.callers, c, pc', pc.slot);
    PlaceKept(p, s.queue, s.idle, s.callers, c, pc');
  }

  lemma ReturnOk(p: Pool, s: State, c: int)
    requires Inv(p, s) && Enabled(p, s, Release(c))
    ensures var x := s.callers[c].slot; 0 <= x < |s.next| && Inv(p, Return(s, c, x)) && Return(s, c, x).msgs == s.msgs
  {
    var x := s.callers[c].slot;
    LinkedPush(s.next, s.idle, s.free, x);
    DistinctPush(s.idle, x);
    LinkedFrame(s.next, s.queue, s.head, x, s.free);
    var s' := Return(s, c, x);
    CopiesFrame(p, s.next, s.data, s'.next, s.data, s.callers, c, Outside, x);
    assert forall y :: y in [x] + s.idle <==> y in s.idle || y == x;
    PlaceGiven(p, s.queue, s.idle, s.queue, [x] + s.idle, s.callers, c);
  }

  // ----- reset -----

  lemma DrainOneOk(p: Pool, s: State)
    requires Inv(p, s) && s.queue != []
    ensures s.msgs != [] && 0 <= s.head < |s.next| && Inv(p, DrainOne(s)) && DrainOne(s).callers == s.callers
    ensures |DrainOne(s).queue| == |s.queue| - 1
  {
    QueuePop(p, s);
    var x := s.head;
    var s' := DrainOne(s);
    LinkedFrame(s.next, s.queue[1..], s.next[x], x, s.free);
    assert x in s.queue;
    LinkedPush(s.next, s.idle, s.free, x);
    DistinctPush(s.idle, x);
    assert forall y :: y in [x] + s.idle <==> y in s.idle || y == x;
    forall d | d in s.callers ensures CopyOk(p, s'.next, s.data, s.callers[d]) {
      assert CopyOk(p, s.next, s.data, s.callers[d]);
    }
    assert OnePlace(p, s.queue[1..], [x] + s.idle, s.callers);
  }

  /** The loop of a reset: every queued slot goes back to the free ones. */
  function Drain(p: Pool, s: State): (s': State)
    requires Inv(p, s)
    ensures Inv(p, s') && s'.queue == [] && s'.msgs == [] && s'.callers == s.callers && s'.data == s.data
    decreases |s.queue|
  {
    if s.queue == [] then s
    else
      DrainOneOk(p, s);
      Drain(p, DrainOne(s))
  }

  // ----- runs -----

  /** One step of some caller. */
  ghost function Step(p: Pool, s: State, e: Event): (s': State)
    requires Inv(p, s) && Enabled(p, s, e)
    ensures Inv(p, s')
  {
    hide Inv;
    match e
    case SendStart(c, buf) => StartOk(p, s, c, buf, false); Start(p, s, c, buf, false)
    case UrgentStart(c, buf) => StartOk(p, s, c, buf, true); Start(p, s, c, buf, true)
    case Clear(c) => ClearOk(p, s, c); Cleared(s, c, s.callers[c])
    case CopyIn(c) => CopyInOk(p, s, c); CopiedIn(s, c, s.callers[c])
    case Link(c) =>
      if s.callers[c].urgent then LinkHeadOk(p, s, c); LinkHead(s, c, s.callers[c])
      else LinkTailOk(p, s, c); LinkTail(s, c, s.callers[c])
    case RecvStart(c, want) => if s.queue == [] then s else TakeOk(p, s, c, want); Take(s, c, want)
    case CopyOut(c) => CopyOutOk(p, s, c); CopiedOut(s, c, s.callers[c])
    case Release(c) => ReturnOk(p, s, c); Return(s, c, s.callers[c].slot)
    case Reset => Drain(p, s)
  }

  lemma EmptyMsgs(p: Pool, s: State)
    requires Inv(p, s)
    ensures s.queue == [] <==> s.msgs == []
  {
  }

  /** The first section of recv by the count of entries. */
  lemma TakeStep(p: Pool, s: State, c: int, want: int)
    requires Inv(p, s) && Enabled(p, s, RecvStart(c, want))
    ensures s.entry == 0 <==> s.msgs == []
    ensures s.entry == 0 ==> Step(p, s, RecvStart(c, want)) == s
    ensures s.entry != 0 ==> s.queue != [] && s.msgs != [] && 0 <= s.head < |s.next|
                             && Step(p, s, RecvStart(c, want)) == Take(s, c, want)
  {
    EmptyMsgs(p, s);
    assert s.entry == |s.queue|;
    hide Inv;
    if s.queue != [] { TakeOk(p, s, c, want); }
  }

  ghost predicate Legal(p: Pool, s: State, run: seq<Event>)
    requires Inv(p, s)
    decreases |run|
  {
    hide Inv, Step;
    run == [] || (Enabled(p, s, run[0]) && Legal(p, Step(p, s, run[0]), run[1..]))
  }

  ghost function After(p: Pool, s: State, run: seq<Event>): (s': State)
    requires Inv(p, s) && Legal(p, s, run)
    ensures Inv(p, s')
    decreases |run|
  {
    hide Inv, Step;
    if run == [] then s else After(p, Step(p, s, run[0]), run[1..])
  }

  /** The queue as a fresh object: all slots free, the last one first. */
  function Down(n: nat): (l: seq<int>)
    ensures |l| == n && forall i :: 0 <= i < n ==> l[i] == n - 1 - i
  {
    if n == 0 then [] else [n - 1] + Down(n - 1)
  }

  ghost function Fresh(p: Pool, data: seq<seq<Byte>>, ids: set<int>): State {
    State(seq(p.slots, i => i - 1), data, NULL, NULL, p.slots - 1, 0, map c | c in ids :: Outside, [], Down(p.slots),
        [])
  }

  lemma FreshOk(p: Pool, data: seq<seq<Byte>>, ids: set<int>)
    requires |data| == p.slots && forall i :: 0 <= i < p.slots ==> |data[i]| == p.size
    ensures Inv(p, Fresh(p, data, ids))
  {
    var s := Fresh(p, data, ids);
    forall i | 0 <= i < p.slots ensures Follows(s.next, s.idle, i) {}
    forall x | 0 <= x < p.slots ensures x in s.idle { assert s.idle[p.slots - 1 - x] == x; }
  }

  /** After every run every slot is in exactly one place, `entry_` counts the queue, and the queue holds its messages.
      */
  lemma RunSafe(p: Pool, s: State, run: seq<Event>)
    requires Inv(p, s) && Legal(p, s, run)
    ensures var s' := After(p, s, run);
            && s'.entry == |s'.queue| == |s'.msgs| && OnePlace(p, s'.queue, s'.idle, s'.callers)
            && forall i :: 0 <= i < |s'.queue| ==> 0 <= s'.queue[i] < |s'.data| && s'.msgs[i] <= s'.data[s'.queue[i]]
  {
    var s' := After(p, s, run);
    assert Inv(p, s');
  }
}
