/**
 What the message queue holds and delivers, read off its links and bytes: the slots reached from the head
 by the next pointers, each with the bytes it stores.
 */
module QueueContents {
  import opened MessageQueue

  // ----- walking the links -----

  /** The slots on the way from `first`, at most `n` of them. */
  function Walk(next: seq<int>, first: int, n: nat): seq<int>
    decreases n
  {
    if n == 0 || !(0 <= first < |next|) then [] else [first] + Walk(next, next[first], n - 1)
  }

  lemma {:induction false} WalkLinked(next: seq<int>, l: seq<int>, first: int, n: nat)
    requires Linked(next, l, first) && |l| <= n
    ensures Walk(next, first, n) == l
    decreases |l|
  {
    if l != [] {
      LinkedPop(next, l, first);
      WalkLinked(next, l[1..], next[first], n - 1);
      assert l == [first] + l[1..];
    }
  }

  /** Distinct slot numbers below `n` are at most `n`. */
  lemma {:induction false} FewSlots(l: seq<int>, n: nat)
    requires Distinct(l) && forall x :: x in l ==> 0 <= x < n
    ensures |l| <= n
    decreases n
  {
    assert l != [] ==> l[0] in l;
    if n > 0 {
      if n - 1 in l {
        var i :| 0 <= i < |l| && l[i] == n - 1;
        var rest := l[..i] + l[i + 1..];
        forall x | x in rest ensures 0 <= x < n - 1 {
          var j :| 0 <= j < |rest| && rest[j] == x;
          var k := if j < i then j else j + 1;
          assert x == l[k] && l[k] != l[i] && l[k] in l;
        }
        FewSlots(rest, n - 1);
      } else {
        FewSlots(l, n - 1);
      }
    }
  }

  /** The bytes of some slots. */
  function Stores(data: seq<seq<Byte>>, l: seq<int>): (m: seq<seq<Byte>>)
    ensures |m| == |l|
  {
    seq(|l|, i requires 0 <= i < |l| => if 0 <= l[i] < |data| then data[l[i]] else [])
  }

  /** What is queued: the bytes of the slots from the head on. */
  function Contents(s: State): seq<seq<Byte>> {
    Stores(s.data, Walk(s.next, s.head, |s.next|))
  }

  lemma ContentsIs(p: Pool, s: State)
    requires Inv(p, s)
    ensures Contents(s) == Stores(s.data, s.queue)
  {
    FewSlots(s.queue, |s.next|);
    WalkLinked(s.next, s.queue, s.head, |s.next|);
  }

  /** Each queued slot starts with the message sent in it, and `entry_` counts them. */
  lemma ContentsSent(p: Pool, s: State)
    requires Inv(p, s)
    ensures s.entry == |Contents(s)| == |s.msgs| && forall i :: 0 <= i < |s.msgs| ==> s.msgs[i] <= Contents(s)[i]
  {
    ContentsIs(p, s);
  }

  // ----- the steps on the contents -----

  /** What a step does to the contents: append, prepend, pop, clear or nothing. */
  ghost function Abstract(q: seq<seq<Byte>>, s: State, e: Event): seq<seq<Byte>>
    requires e.Link? ==> e.c in s.callers && s.callers[e.c].Sending? && 0 <= s.callers[e.c].slot < |s.data|
  {
    match e
    case Link(c) =>
      var bytes := s.data[s.callers[c].slot];
      if s.callers[c].urgent then [bytes] + q else q + [bytes]
    case RecvStart(_, _) => if q == [] then [] else q[1..]
    case Reset => []
    case _ => q
  }

  /** A sender about to link its slot has the whole message in it. */
  lemma LinkStores(p: Pool, s: State, c: int)
    requires Inv(p, s) && Enabled(p, s, Link(c))
    ensures var pc := s.callers[c]; 0 <= pc.slot < |s.data| && pc.buf <= s.data[pc.slot]
  {
    var pc := s.callers[c];
    assert CopyOk(p, s.next, s.data, pc);
    assert pc.buf[..pc.done] == pc.buf;
  }

  lemma StoresFrame(data: seq<seq<Byte>>, data': seq<seq<Byte>>, l: seq<int>, x: int)
    requires |data'| == |data| && x !in l && forall i :: 0 <= i < |data| && i != x ==> data'[i] == data[i]
    ensures Stores(data', l) == Stores(data, l)
  {
  }

  /** A slot that a caller holds is not queued. */
  lemma HeldApart(p: Pool, s: State, c: int)
    requires Inv(p, s) && c in s.callers && Holding(s.callers[c])
    ensures s.callers[c].slot !in s.queue && 0 <= s.callers[c].slot < |s.data|
  {
  }

  /** The slots queued after a step. */
  lemma StepQueue(p: Pool, s: State, e: Event)
    requires Inv(p, s) && Enabled(p, s, e)
    ensures Step(p, s, e).queue
            == match e
               case Link(c) =>
                 if s.callers[c].urgent then [s.callers[c].slot] + s.queue else s.queue + [s.callers[c].slot]
               case RecvStart(_, _) => if s.queue == [] then [] else s.queue[1..]
               case Reset => []
               case _ => s.queue
    ensures !e.CopyIn? ==> Step(p, s, e).data == s.data
  {
    hide Inv;
    match e
    case SendStart(c, buf) => StartOk(p, s, c, buf, false);
    case UrgentStart(c, buf) => StartOk(p, s, c, buf, true);
    case Clear(c) => ClearOk(p, s, c);
    case CopyIn(c) => CopyInOk(p, s, c);
    case Link(c) => if s.callers[c].urgent { LinkHeadOk(p, s, c); } else { LinkTailOk(p, s, c); }
    case RecvStart(c, want) => if s.queue != [] { TakeOk(p, s, c, want); }
    case CopyOut(c) => CopyOutOk(p, s, c);
    case Release(c) => ReturnOk(p, s, c);
    case Reset =>
  }

  lemma StoresJoin(data: seq<seq<Byte>>, l: seq<int>, x: int)
    requires 0 <= x < |data|
    ensures Stores(data, l + [x]) == Stores(data, l) + [data[x]] && Stores(data, [x] + l) == [data[x]] + Stores(data, l)
  {
  }

  lemma StoresRest(data: seq<seq<Byte>>, l: seq<int>)
    requires l != []
    ensures Stores(data, l) != [] && Stores(data, l[1..]) == Stores(data, l)[1..]
  {
  }

  lemma CopyInRefines(p: Pool, s: State, c: int)
    requires Inv(p, s) && Enabled(p, s, CopyIn(c))
    ensures Contents(Step(p, s, CopyIn(c))) == Contents(s)
  {
    hide Inv, Step, Contents, Stores;
    var s' := Step(p, s, CopyIn(c));
    ContentsIs(p, s);
    ContentsIs(p, s');
    StepQueue(p, s, CopyIn(c));
    HeldApart(p, s, c);
    CopyInData(p, s, c);
    StoresFrame(s.data, s'.data, s.queue, s.callers[c].slot);
  }

  /** Every step of every interleaving is append, prepend, pop, clear or nothing on what the links lead to. */
  lemma StepRefines(p: Pool, s: State, e: Event)
    requires Inv(p, s) && Enabled(p, s, e)
    ensures e.Link? ==> 0 <= s.callers[e.c].slot < |s.data| && s.callers[e.c].buf <= s.data[s.callers[e.c].slot]
    ensures Contents(Step(p, s, e)) == Abstract(Contents(s), s, e)
  {
    hide Inv, Step, Contents, Stores;
    if e.CopyIn? {
      CopyInRefines(p, s, e.c);
    } else {
      var s' := Step(p, s, e);
      ContentsIs(p, s);
      ContentsIs(p, s');
      StepQueue(p, s, e);
      if e.Link? {
        LinkStores(p, s, e.c);
        StoresJoin(s.data, s.queue, s.callers[e.c].slot);
      } else if e.RecvStart? && s.queue != [] {
        StoresRest(s.data, s.queue);
      }
    }
  }

  // ----- the bytes -----

  lemma CopyInData(p: Pool, s: State, c: int)
    requires Inv(p, s) && Enabled(p, s, CopyIn(c))
    ensures var pc := s.callers[c];
            && 0 <= pc.slot < |s.data| && 0 <= pc.done < |pc.buf| <= |s.data[pc.slot]|
            && Step(p, s, CopyIn(c)).data == s.data[pc.slot := s.data[pc.slot][pc.done := pc.buf[pc.done]]]
  {
    hide Inv;
    CopyInOk(p, s, c);
  }

  /** A byte of a slot only changes when a sender that holds the slot copies its byte of that number in. */
  lemma StepByte(p: Pool, s: State, e: Event, x: int, i: int)
    requires Inv(p, s) && Enabled(p, s, e) && 0 <= x < p.slots && 0 <= i < p.size
    ensures |s.data| == |Step(p, s, e).data| == p.slots && |s.data[x]| == |Step(p, s, e).data[x]| == p.size
    ensures Step(p, s, e).data[x][i]
            == if Writes(s, e, x, i) then s.callers[e.c].buf[i] else s.data[x][i]
  {
    Sizes(p, s);
    Sizes(p, Step(p, s, e));
    hide Inv, Step;
    StepQueue(p, s, e);
    if e.CopyIn? { CopyInData(p, s, e.c); }
  }

  lemma Sizes(p: Pool, s: State)
    requires Inv(p, s)
    ensures |s.data| == p.slots && |s.next| == p.slots && forall x :: 0 <= x < p.slots ==> |s.data[x]| == p.size
  {
  }

  ghost predicate Writes(s: State, e: Event, x: int, i: int) {
    && e.CopyIn? && e.c in s.callers && s.callers[e.c].Sending? && s.callers[e.c].slot == x
    && s.callers[e.c].done == i && 0 <= i < |s.callers[e.c].buf|
  }

  /** What a receiver gets: as many bytes of its slot as it asked for, up to the message size of the queue.
      They are bytes of the message exactly when it did not ask for more than was sent. */
  lemma ReceivedIsSent(p: Pool, s: State, c: int)
    requires Inv(p, s) && Enabled(p, s, Release(c))
    ensures var pc := s.callers[c]; var n := if pc.want <= p.size then pc.want else p.size;
            && |pc.got| == n && 0 <= pc.slot < |s.data| && |s.data[pc.slot]| == p.size
            && pc.got == s.data[pc.slot][..n] && pc.msg <= s.data[pc.slot]
            && (pc.got <= pc.msg <==> n <= |pc.msg|)
  {
    assert CopyOk(p, s.next, s.data, s.callers[c]);
  }

  // ----- a message with the end of another one -----

  function Repeat(e: Event, n: nat): (run: seq<Event>)
    ensures |run| == n
  {
    if n == 0 then [] else [e] + Repeat(e, n - 1)
  }

  lemma {:induction false} AfterConcat(p: Pool, s: State, a: seq<Event>, b: seq<Event>)
    requires Inv(p, s) && Legal(p, s, a) && Legal(p, After(p, s, a), b)
    ensures Legal(p, s, a + b) && After(p, s, a + b) == After(p, After(p, s, a), b)
    decreases |a|
  {
    hide Inv, Step;
    if a == [] {
      assert a + b == b;
    } else {
      AfterConcat(p, Step(p, s, a[0]), a[1..], b);
      assert (a + b)[1..] == a[1..] + b;
    }
  }

  lemma AfterOne(p: Pool, s: State, e: Event)
    requires Inv(p, s) && Enabled(p, s, e)
    ensures Legal(p, s, [e]) && After(p, s, [e]) == Step(p, s, e)
  {
    hide Inv, Step;
    assert [e][1..] == [];
  }

  /** The state when a sender has copied its whole message: the rest of the slot is as before. */
  function Copied(s: State, c: int): State
    requires c in s.callers && s.callers[c].Sending?
    requires 0 <= s.callers[c].slot < |s.data| && |s.callers[c].buf| <= |s.data[s.callers[c].slot]|
  {
    var pc := s.callers[c];
    s.(data := s.data[pc.slot := pc.buf + s.data[pc.slot][|pc.buf|..]],
        callers := s.callers[c := pc.(done := |pc.buf|)])
  }

  lemma CopiedAll(s: State, c: int)
    requires c in s.callers && s.callers[c].Sending? && s.callers[c].done == |s.callers[c].buf|
    requires 0 <= s.callers[c].slot < |s.data| && |s.callers[c].buf| <= |s.data[s.callers[c].slot]|
    requires s.callers[c].buf <= s.data[s.callers[c].slot]
    ensures Copied(s, c) == s
  {
    var pc := s.callers[c];
    assert pc.buf + s.data[pc.slot][|pc.buf|..] == s.data[pc.slot];
    assert s.data[pc.slot := s.data[pc.slot]] == s.data;
    assert s.callers[c := pc] == s.callers;
  }

  lemma CopiedNext(s: State, c: int)
    requires c in s.callers && s.callers[c].Sending? && 0 <= s.callers[c].done < |s.callers[c].buf|
    requires 0 <= s.callers[c].slot < |s.data| && |s.callers[c].buf| <= |s.data[s.callers[c].slot]|
    ensures Copied(CopiedIn(s, c, s.callers[c]), c) == Copied(s, c)
  {
    var pc, s' := s.callers[c], CopiedIn(s, c, s.callers[c]);
    assert s'.data[pc.slot][|pc.buf|..] == s.data[pc.slot][|pc.buf|..];
  }

  /** The rest of a sender's copy. */
  lemma {:induction false} CopyAll(p: Pool, s: State, c: int, n: nat)
    requires Inv(p, s) && c in s.callers && s.callers[c].Sending? && s.callers[c].cleared
    requires s.callers[c].done + n == |s.callers[c].buf|
    ensures 0 <= s.callers[c].slot < |s.data| && |s.callers[c].buf| <= |s.data[s.callers[c].slot]|
    ensures Legal(p, s, Repeat(CopyIn(c), n)) && After(p, s, Repeat(CopyIn(c), n)) == Copied(s, c)
    decreases n
  {
    SenderFacts(p, s, c);
    hide Inv, Step, Copied;
    if n == 0 {
      var pc := s.callers[c];
      assert pc.buf[..pc.done] == pc.buf;
      CopiedAll(s, c);
    } else {
      CopyInStep(p, s, c);
      CopiedNext(s, c);
      CopyAll(p, Step(p, s, CopyIn(c)), c, n - 1);
      assert Repeat(CopyIn(c), n)[1..] == Repeat(CopyIn(c), n - 1);
    }
  }

  lemma SenderFacts(p: Pool, s: State, c: int)
    requires Inv(p, s) && c in s.callers && s.callers[c].Sending?
    ensures var pc := s.callers[c];
            && 0 <= pc.slot < |s.data| && 0 <= pc.done <= |pc.buf| <= |s.data[pc.slot]|
            && pc.buf[..pc.done] == s.data[pc.slot][..pc.done]
  {
    assert CopyOk(p, s.next, s.data, s.callers[c]);
  }

  lemma CopyInStep(p: Pool, s: State, c: int)
    requires Inv(p, s) && Enabled(p, s, CopyIn(c))
    ensures var pc := s.callers[c];
            && 0 <= pc.slot < |s.data| && 0 <= pc.done < |pc.buf| <= |s.data[pc.slot]|
            && Step(p, s, CopyIn(c)) == CopiedIn(s, c, pc)
  {
    hide Inv;
    CopyInOk(p, s, c);
  }

  /** The steps of a whole send by a caller that is alone. */
  function SendRun(c: int, buf: seq<Byte>): seq<Event> {
    [SendStart(c, buf), Clear(c)] + Repeat(CopyIn(c), |buf|) + [Link(c)]
  }

  /** The steps of a whole recv that asks for `want` bytes, up to the last section. */
  function RecvRun(c: int, want: int, n: nat): seq<Event> {
    [RecvStart(c, want)] + Repeat(CopyOut(c), n)
  }

  /** Ready for the next message: nothing queued, `x` is the next free slot, `c` is not in a call. */
  ghost predicate Ready(s: State, c: int, x: int) {
    s.queue == [] && s.free == x && x != NULL && s.idle != [] && c in s.callers && s.callers[c].Outside?
  }

  /** The copy of a sender and its link into the empty queue. */
  lemma SendRest(p: Pool, s: State, c: int)
    requires Inv(p, s) && s.queue == [] && c in s.callers && s.callers[c].Sending? && s.callers[c].cleared
    requires s.callers[c].done == 0 && !s.callers[c].urgent
    ensures var pc := s.callers[c]; 0 <= pc.slot < |s.data| && |pc.buf| <= |s.data[pc.slot]|
    ensures Legal(p, s, Repeat(CopyIn(c), |s.callers[c].buf|) + [Link(c)])
    ensures var pc, s' := s.callers[c], After(p, s, Repeat(CopyIn(c), |s.callers[c].buf|) + [Link(c)]);
            && s'.queue == [pc.slot] && s'.head == pc.slot && s'.msgs == s.msgs + [pc.buf]
            && s'.callers == s.callers[c := Outside]
                && s'.data == s.data[pc.slot := pc.buf + s.data[pc.slot][|pc.buf|..]]
  {
    hide Inv, Step, Copied, Legal, After, Repeat;
    var copy := Repeat(CopyIn(c), |s.callers[c].buf|);
    CopyAll(p, s, c, |s.callers[c].buf|);
    CopiedIs(s, c);
    var s1 := After(p, s, copy);
    LinkStep(p, s1, c);
    AfterOne(p, s1, Link(c));
    AfterConcat(p, s, copy, [Link(c)]);
  }

  lemma SendFirst(p: Pool, s: State, c: int, buf: seq<Byte>)
    requires Inv(p, s) && s.free != NULL && c in s.callers && s.callers[c].Outside? && 1 <= |buf| <= p.size
    ensures Legal(p, s, [SendStart(c, buf), Clear(c)])
    ensures var s' := After(p, s, [SendStart(c, buf), Clear(c)]);
            && s'.callers == s.callers[c := Sending(s.free, buf, 0, false, true)]
            && s'.data == s.data && s'.queue == s.queue && s'.msgs == s.msgs
  {
    hide Inv, Step, Legal, After;
    StartStep(p, s, c, buf);
    var s1 := Step(p, s, SendStart(c, buf));
    ClearStep(p, s1, c);
    AfterOne(p, s, SendStart(c, buf));
    AfterOne(p, s1, Clear(c));
    AfterConcat(p, s, [SendStart(c, buf)], [Clear(c)]);
    assert [SendStart(c, buf)] + [Clear(c)] == [SendStart(c, buf), Clear(c)];
  }

  /** A whole send leaves its message in the slot in front of what was there before. */
  lemma SendWhole(p: Pool, s: State, c: int, buf: seq<Byte>, x: int)
    requires Inv(p, s) && Ready(s, c, x) && 1 <= |buf| <= p.size
    ensures 0 <= x < |s.data| && |s.data[x]| == p.size && Legal(p, s, SendRun(c, buf))
    ensures var s' := After(p, s, SendRun(c, buf));
            && s'.queue == [x] && s'.head == x && s'.msgs == [buf] && s'.callers == s.callers
            && s'.data == s.data[x := buf + s.data[x][|buf|..]]
  {
    hide Inv, Step, Legal, After, Repeat;
    SlotFacts(p, s);
    EmptyMsgs(p, s);
    Sizes(p, s);
    SendFirst(p, s, c, buf);
    var first, rest := [SendStart(c, buf), Clear(c)], Repeat(CopyIn(c), |buf|) + [Link(c)];
    SendRest(p, After(p, s, first), c);
    AfterConcat(p, s, first, rest);
    assert SendRun(c, buf) == first + rest;
    assert s.callers[c := Sending(x, buf, 0, false, true)][c := Outside] == s.callers;
  }

  lemma SlotFacts(p: Pool, s: State)
    requires Inv(p, s)
    ensures s.free != NULL ==> 0 <= s.free < |s.next| && s.idle != []
  {
    if s.idle != [] { LinkedPop(s.next, s.idle, s.free); }
  }

  lemma StartStep(p: Pool, s: State, c: int, buf: seq<Byte>)
    requires Inv(p, s) && s.free != NULL && c in s.callers && s.callers[c].Outside? && 1 <= |buf| <= p.size
    ensures 0 <= s.free < |s.next| && s.idle != [] && Enabled(p, s, SendStart(c, buf))
    ensures Step(p, s, SendStart(c, buf)) == Start(p, s, c, buf, false)
  {
    SlotFacts(p, s);
    hide Inv;
    StartOk(p, s, c, buf, false);
  }

  lemma ClearStep(p: Pool, s: State, c: int)
    requires Inv(p, s) && Enabled(p, s, Clear(c))
    ensures 0 <= s.callers[c].slot < |s.next| && Step(p, s, Clear(c)) == Cleared(s, c, s.callers[c])
  {
    hide Inv;
    ClearOk(p, s, c);
  }

  lemma LinkStep(p: Pool, s: State, c: int)
    requires Inv(p, s) && Enabled(p, s, Link(c)) && !s.callers[c].urgent
    ensures (s.tail == NULL || 0 <= s.tail < |s.next|) && Step(p, s, Link(c)) == LinkTail(s, c, s.callers[c])
    ensures s.queue == [] ==> s.head == NULL
  {
    TailSlot(s);
    hide Inv;
    LinkTailOk(p, s, c);
  }

  lemma CopiedIs(s: State, c: int)
    requires c in s.callers && s.callers[c].Sending?
    requires 0 <= s.callers[c].slot < |s.data| && |s.callers[c].buf| <= |s.data[s.callers[c].slot]|
    ensures var pc, s' := s.callers[c], Copied(s, c);
            && s'.data == s.data[pc.slot := pc.buf + s.data[pc.slot][|pc.buf|..]]
            && s'.callers == s.callers[c := pc.(done := |pc.buf|)]
            && s'.queue == s.queue && s'.msgs == s.msgs && s'.head == s.head
  {
  }

  // ----- a whole recv -----

  /** The rest of a receiver's copy. */
  lemma {:induction false} TakeAll(p: Pool, s: State, c: int, n: nat)
    requires Inv(p, s) && c in s.callers && s.callers[c].Receiving?
    requires |s.callers[c].got| + n == Least(s.callers[c].want, p.size)
    ensures Legal(p, s, Repeat(CopyOut(c), n))
    ensures var s' := After(p, s, Repeat(CopyOut(c), n));
            && Enabled(p, s', Release(c)) && s' == s.(callers := s.callers[c := s'.callers[c]])
            && s'.callers[c].(got := s.callers[c].got) == s.callers[c]
    decreases n
  {
    hide Inv, Step;
    if n == 0 {
      assert s.callers[c := s.callers[c]] == s.callers;
    } else {
      CopyOutStep(p, s, c);
      var s1 := Step(p, s, CopyOut(c));
      TakeAll(p, s1, c, n - 1);
      assert Repeat(CopyOut(c), n)[1..] == Repeat(CopyOut(c), n - 1);
      var s' := After(p, s, Repeat(CopyOut(c), n));
      assert s1.callers[c := s'.callers[c]] == s.callers[c := s'.callers[c]];
    }
  }

  lemma CopyOutStep(p: Pool, s: State, c: int)
    requires Inv(p, s) && Enabled(p, s, CopyOut(c))
    ensures var pc := s.callers[c];
            0 <= pc.slot < |s.data| && |pc.got| < |s.data[pc.slot]| && Step(p, s, CopyOut(c)) == CopiedOut(s, c, pc)
  {
    hide Inv;
    CopyOutOk(p, s, c);
  }

  lemma QueueFacts(p: Pool, s: State)
    requires Inv(p, s) && s.queue != []
    ensures 0 <= s.head < |s.next| && s.msgs != [] && s.entry != 0
  {
    QueuePop(p, s);
  }

  /** A whole recv delivers the first bytes of the slot, whatever was sent. */
  lemma RecvWhole(p: Pool, s: State, c: int, want: int)
    requires Inv(p, s) && c in s.callers && s.callers[c].Outside? && want >= 1 && s.queue != []
    ensures 0 <= s.head < |s.data| && |s.data[s.head]| == p.size >= 0
    ensures var n := if want <= p.size then want else p.size;
            && Legal(p, s, RecvRun(c, want, n))
            && var s' := After(p, s, RecvRun(c, want, n));
               && Enabled(p, s', Release(c)) && s'.data == s.data && s'.queue == s.queue[1..]
               && s'.callers == s.callers[c := Receiving(s.head, want, s.data[s.head][..n], s.msgs[0])]
  {
    hide Inv, Step, Legal, After, Repeat;
    QueueFacts(p, s);
    Sizes(p, s);
    var n := Least(want, p.size);
    TakeStep(p, s, c, want);
    var s1 := Step(p, s, RecvStart(c, want));
    AfterOne(p, s, RecvStart(c, want));
    TakeAll(p, s1, c, n);
    AfterConcat(p, s, [RecvStart(c, want)], Repeat(CopyOut(c), n));
    var s' := After(p, s1, Repeat(CopyOut(c), n));
    ReceivedIsSent(p, s', c);
    assert s1.callers[c := s'.callers[c]] == s.callers[c := s'.callers[c]];
  }

  lemma ReleaseStep(p: Pool, s: State, c: int)
    requires Inv(p, s) && Enabled(p, s, Release(c))
    ensures 0 <= s.callers[c].slot < |s.next| && Step(p, s, Release(c)) == Return(s, c, s.callers[c].slot)
  {
    hide Inv;
    ReturnOk(p, s, c);
  }

  /** A message is received; the next one, shorter, is delivered with the end of the first one behind it. */
  lemma Leftover(p: Pool, s: State, c: int, x: int, m: seq<Byte>, k: seq<Byte>)
    requires Inv(p, s) && Ready(s, c, x) && 1 <= |k| < |m| <= p.size
    ensures var first := SendRun(c, m) + RecvRun(c, |m|, |m|) + [Release(c)];
            var run := first + SendRun(c, k) + RecvRun(c, |m|, |m|);
            && Legal(p, s, run) && c in After(p, s, run).callers
            && After(p, s, run).callers[c] == Receiving(x, |m|, k + m[|k|..], k)
  {
    hide Inv, Step, Legal, After, SendRun, RecvRun;
    SendWhole(p, s, c, m, x);
    var s1 := After(p, s, SendRun(c, m));
    RecvWhole(p, s1, c, |m|);
    var s2 := After(p, s1, RecvRun(c, |m|, |m|));
    ReleaseStep(p, s2, c);
    AfterOne(p, s2, Release(c));
    var s3 := Step(p, s2, Release(c));
    SendWhole(p, s3, c, k, x);
    var s4 := After(p, s3, SendRun(c, k));
    RecvWhole(p, s4, c, |m|);
    var first := SendRun(c, m) + RecvRun(c, |m|, |m|) + [Release(c)];
    AfterConcat(p, s, SendRun(c, m), RecvRun(c, |m|, |m|));
    AfterConcat(p, s, SendRun(c, m) + RecvRun(c, |m|, |m|), [Release(c)]);
    AfterConcat(p, s, first, SendRun(c, k));
    AfterConcat(p, s, first + SendRun(c, k), RecvRun(c, |m|, |m|));
    assert (k + (m + s.data[x][|m|..])[|k|..])[..|m|] == k + m[|k|..];
  }
}
