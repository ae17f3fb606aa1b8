/**
 The message queue object of kernel/ipc/messagequeue.cpp: its links and pointers as fields, each section
 with interrupts disabled as a method, proved equal to the step of the protocol.
 */
module QueueObject {
  import opened MessageQueue

  datatype Error = Ok | TooLong | Full | Empty

  class Queue {
    const p: Pool
    var next: seq<int>
    var data: seq<seq<Byte>>
    var head: int
    var tail: int
    var free: int
    var entry: int
    ghost var callers: map<int, Pc>
    ghost var queue: seq<int>
    ghost var idle: seq<int>
    ghost var msgs: seq<seq<Byte>>

    ghost function Abs(): State
      reads this
    {
      State(next, data, head, tail, free, entry, callers, queue, idle, msgs)
    }

    ghost predicate Valid()
      reads this
    {
      Inv(p, Abs())
    }

    /** The constructor's loop threads every slot onto the free list. */
    constructor (p: Pool, memory: seq<seq<Byte>>, ghost ids: set<int>)
      requires |memory| == p.slots && forall i :: 0 <= i < p.slots ==> |memory[i]| == p.size
      ensures Valid() && this.p == p && Abs() == Fresh(p, memory, ids)
    {
      var links := seq(p.slots, _ => NULL);
      var first, temp := NULL, 0;
      while temp < p.slots
        invariant 0 <= temp <= p.slots && |links| == p.slots && first == temp - 1
        invariant forall i :: 0 <= i < temp ==> links[i] == i - 1
      {
        links := links[temp := first];
        first := temp;
        temp := temp + 1;
      }
      this.p, next, data, head, tail, free, entry := p, links, memory, NULL, NULL, first, 0;
      callers, queue, idle, msgs := map c | c in ids :: Outside, [], Down(p.slots), [];
      new;
      assert next == seq(p.slots, i => i - 1);
      FreshOk(p, memory, ids);
    }

    /** First section of send and urgent. */
    method TakeFree(ghost c: int, buf: seq<Byte>, urgent: bool) returns (e: Error, slot: int)
      requires Valid() && c in callers && callers[c].Outside? && buf != []
      modifies this
      ensures Valid() && Abs() == Step(p, old(Abs()), if urgent then UrgentStart(c, buf) else SendStart(c, buf))
      ensures e == if |buf| > p.size then TooLong else if old(free) == NULL then Full else Ok
      ensures e == Ok ==> callers[c] == Sending(slot, buf, 0, urgent, false)
    {
      hide Inv;
      StartOk(p, Abs(), c, buf, urgent);
      slot := NULL;
      if |buf| > p.size {
        return TooLong, slot;
      }
      slot := free;
      if slot == NULL {
        return Full, slot;
      }
      free := next[slot];
      idle := idle[1..];
      callers := callers[c := Sending(slot, buf, 0, urgent, false)];
      return Ok, slot;
    }

    /** send clears the link of its slot, outside any section. */
    method ClearLink(ghost c: int, slot: int)
      requires Valid() && Enabled(p, Abs(), Clear(c)) && callers[c].slot == slot
      modifies this
      ensures Valid() && Abs() == Step(p, old(Abs()), Clear(c))
    {
      hide Inv;
      ClearOk(p, Abs(), c);
      next := next[slot := NULL];
      callers := callers[c := callers[c].(cleared := true)];
    }

    /** One byte of the sender's copy. */
    method StoreByte(ghost c: int, slot: int, i: int, x: Byte)
      requires Valid() && Enabled(p, Abs(), CopyIn(c)) && callers[c].slot == slot && callers[c].done == i
      requires callers[c].buf[i] == x
      modifies this
      ensures Valid() && Abs() == Step(p, old(Abs()), CopyIn(c))
    {
      hide Inv;
      CopyInOk(p, Abs(), c);
      var bytes: seq<Byte> := data[slot][i := x];
      data := data[slot := bytes];
      callers := callers[c := callers[c].(done := i + 1)];
    }

    /** Last section of send. */
    method AppendSlot(ghost c: int, slot: int)
      requires Valid() && Enabled(p, Abs(), Link(c)) && !callers[c].urgent && callers[c].slot == slot
      modifies this
      ensures Valid() && Abs() == Step(p, old(Abs()), Link(c))
    {
      hide Inv;
      LinkTailOk(p, Abs(), c);
      if tail != NULL {
        next := next[tail := slot];
      }
      tail := slot;
      if head == NULL {
        head := slot;
      }
      entry := entry + 1;
      queue, msgs := queue + [slot], msgs + [callers[c].buf];
      callers := callers[c := Outside];
    }

    /** Last section of urgent. */
    method PrependSlot(ghost c: int, slot: int)
      requires Valid() && Enabled(p, Abs(), Link(c)) && callers[c].urgent && callers[c].slot == slot
      modifies this
      ensures Valid() && Abs() == Step(p, old(Abs()), Link(c))
    {
      hide Inv;
      LinkHeadOk(p, Abs(), c);
      next := next[slot := head];
      head := slot;
      if tail == NULL {
        tail := slot;
      }
      entry := entry + 1;
      queue, msgs := [slot] + queue, [callers[c].buf] + msgs;
      callers := callers[c := Outside];
    }

    /** First section of recv without waiting. */
    method TakeFirst(ghost c: int, ghost want: int) returns (e: Error, slot: int)
      requires Valid() && Enabled(p, Abs(), RecvStart(c, want))
      modifies this
      ensures Valid() && Abs() == Step(p, old(Abs()), RecvStart(c, want))
      ensures e == if old(msgs) == [] then Empty else Ok
      ensures e == Ok ==> callers[c] == Receiving(slot, want, [], old(msgs)[0])
    {
      hide Inv, Step, Enabled;
      TakeStep(p, Abs(), c, want);
      slot := NULL;
      if entry == 0 {
        return Empty, slot;
      }
      slot := head;
      head := next[slot];
      if tail == slot {
        tail := NULL;
      }
      entry := entry - 1;
      callers := callers[c := Receiving(slot, want, [], msgs[0])];
      queue, msgs := queue[1..], msgs[1..];
      return Ok, slot;
    }

    /** One byte of the receiver's copy. */
    method LoadByte(ghost c: int, slot: int, i: int) returns (x: Byte)
      requires Valid() && Enabled(p, Abs(), CopyOut(c)) && callers[c].slot == slot && |callers[c].got| == i
      modifies this`callers
      ensures Valid() && Abs() == Step(p, old(Abs()), CopyOut(c)) && callers[c].got == old(callers[c].got) + [x]
    {
      hide Inv;
      CopyOutOk(p, Abs(), c);
      x := data[slot][i];
      callers := callers[c := callers[c].(got := callers[c].got + [x])];
    }

    /** Last section of recv. */
    method PutFree(ghost c: int, slot: int)
      requires Valid() && Enabled(p, Abs(), Release(c)) && callers[c].slot == slot
      modifies this
      ensures Valid() && Abs() == Step(p, old(Abs()), Release(c))
    {
      hide Inv;
      ReturnOk(p, Abs(), c);
      next := next[slot := free];
      free := slot;
      idle := [slot] + idle;
      callers := callers[c := Outside];
    }

    /** control with the reset command. */
    method ResetQueue()
      requires Valid()
      modifies this
      ensures Valid() && Abs() == Step(p, old(Abs()), Reset)
    {
      hide Inv, Step, Drain;
      ResetStep(p, Abs());
      ghost var goal := Drain(p, Abs());
      ghost var count := entry;
      HeadIs(p, Abs());
      while head != NULL
        invariant Inv(p, Abs().(entry := count)) && goal == Drain(p, Abs().(entry := count))
        invariant head == NULL <==> queue == []
        decreases |queue|
      {
        ghost var s := Abs().(entry := count);
        DrainStep(p, s);
        var slot := head;
        head := next[slot];
        if tail == slot {
          tail := NULL;
        }
        next := next[slot := free];
        free := slot;
        queue, msgs, idle := queue[1..], msgs[1..], [slot] + idle;
        count := count - 1;
        assert Abs().(entry := count) == DrainOne(s);
        HeadIs(p, Abs().(entry := count));
      }
      DrainEnd(p, Abs().(entry := count));
      entry := 0;
    }
  }

  lemma ResetStep(p: Pool, s: State)
    requires Inv(p, s)
    ensures Step(p, s, Reset) == Drain(p, s)
  {
    hide Inv, Drain;
  }

  lemma DrainStep(p: Pool, s: State)
    requires Inv(p, s) && s.queue != []
    ensures s.msgs != [] && 0 <= s.head < |s.next| && Inv(p, DrainOne(s)) && Drain(p, s) == Drain(p, DrainOne(s))
  {
    hide Inv;
    DrainOneOk(p, s);
  }

  lemma DrainEnd(p: Pool, s: State)
    requires Inv(p, s) && s.queue == []
    ensures Drain(p, s) == s && s.entry == 0
  {
  }

  lemma HeadIs(p: Pool, s: State)
    requires Inv(p, s)
    ensures s.head == NULL <==> s.queue == []
  {
    TailSlot(s);
  }
}
