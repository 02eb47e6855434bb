/** The bounded FIFO of pending motor commands: the types of
    code/src/action_queue.hh and code/src/stepper_motor/action_queue.hh, and
    the circular-buffer class of code/src/action_queue.cc. The critical
    section around each operation only serialises it against the network
    callback, so the class is modelled sequentially. */
module ActionQueueModel {
  import opened Wrappers

  /** `AQ_CAPACITY`, 8 unless the build overrides it. */
  const AQ_CAPACITY: nat := 8

  /** `ActionType` as the newer header declares it (the older header stops
      after MOVE_TO_STEP). */
  datatype ActionType = NONE | OPEN | CLOSE | MOVE_TO_PERCENT | MOVE_TO_STEP | HOME | CALIBRATE

  /** `ActionData`, a union of a float percentage, a 64-bit step and an int
      whose default is 0. */
  datatype ActionData = Percent(percent: real) | Step(step: int) | Null(nullValue: int)

  const DEFAULT_DATA: ActionData := Null(0)

  /** One queued command with its argument. */
  datatype Action = Action(actionType: ActionType, data: ActionData)

  /** What `dequeue` hands back when there is nothing to hand back. */
  const NONE_ACTION: Action := Action(NONE, DEFAULT_DATA)

  /** `AQ_ADVANCE_INDEX(idx)`: the next slot, wrapping to 0 only from the
      last one. */
  function AdvanceIndex(idx: nat): (r: nat)
    ensures r < AQ_CAPACITY
    ensures r == 0 <==> idx % AQ_CAPACITY == AQ_CAPACITY - 1
    ensures idx < AQ_CAPACITY - 1 ==> r == idx + 1
  {
    (idx + 1) % AQ_CAPACITY
  }

  /** Reducing the first summand first does not change a sum's slot. */
  lemma AddMod(a: nat, b: nat)
    ensures (a % AQ_CAPACITY + b) % AQ_CAPACITY == (a + b) % AQ_CAPACITY
  {
    var k := a / AQ_CAPACITY;
    assert a == AQ_CAPACITY * k + a % AQ_CAPACITY;
    ModOfMultiplePlus(k, a % AQ_CAPACITY + b);
  }

  lemma {:induction false} ModOfMultiplePlus(k: nat, r: nat)
    ensures (AQ_CAPACITY * k + r) % AQ_CAPACITY == r % AQ_CAPACITY
  {
    if k > 0 {
      ModOfMultiplePlus(k - 1, r);
      assert AQ_CAPACITY * k + r == AQ_CAPACITY * (k - 1) + r + AQ_CAPACITY;
    }
  }

  /** Slots at different offsets below the capacity from the same start are
      different slots. */
  lemma SlotsDistinct(h: nat, i: nat, j: nat)
    requires i < j < AQ_CAPACITY
    ensures (h + i) % AQ_CAPACITY != (h + j) % AQ_CAPACITY
  {
    AddMod(h, i);
    AddMod(h, j);
  }

  /** The window of `contents` in `buf` from slot `h`. */
  ghost predicate Window(buf: seq<Action>, h: nat, contents: seq<Action>)
    requires |buf| == AQ_CAPACITY && |contents| <= AQ_CAPACITY
  {
    forall i | 0 <= i < |contents| :: contents[i] == buf[(h + i) % AQ_CAPACITY]
  }

  /** Writing one more action in the slot after a window extends it. */
  lemma WindowAppend(buf: seq<Action>, h: nat, contents: seq<Action>, a: Action)
    requires |buf| == AQ_CAPACITY && |contents| < AQ_CAPACITY
    requires Window(buf, h, contents)
    ensures Window(buf[(h + |contents|) % AQ_CAPACITY := a], h, contents + [a])
  {
    var c := |contents|;
    var buf' := buf[(h + c) % AQ_CAPACITY := a];
    forall i | 0 <= i < c + 1
      ensures (contents + [a])[i] == buf'[(h + i) % AQ_CAPACITY]
    {
      if i < c {
        SlotsDistinct(h, i, c);
      }
    }
  }

  /** Dropping the first action of a window leaves a window from the next slot. */
  lemma WindowDropFirst(buf: seq<Action>, h: nat, contents: seq<Action>)
    requires |buf| == AQ_CAPACITY && 0 < |contents| <= AQ_CAPACITY
    requires Window(buf, h, contents)
    ensures Window(buf, (h + 1) % AQ_CAPACITY, contents[1..])
  {
    forall i | 0 <= i < |contents| - 1
      ensures contents[1..][i] == buf[((h + 1) % AQ_CAPACITY + i) % AQ_CAPACITY]
    {
      AddMod(h + 1, i);
      assert contents[i + 1] == buf[(h + (i + 1)) % AQ_CAPACITY];
    }
  }

  /** The circular-buffer invariant on values: `count` actions start at slot
      `h`, `t` is the slot after them, and no NONE action is stored. */
  ghost predicate Ring(buf: seq<Action>, h: nat, t: nat, count: nat, contents: seq<Action>)
  {
    |buf| == AQ_CAPACITY &&
    h < AQ_CAPACITY && t < AQ_CAPACITY && count <= AQ_CAPACITY &&
    t == (h + count) % AQ_CAPACITY &&
    |contents| == count &&
    Window(buf, h, contents) &&
    (forall i | 0 <= i < count :: contents[i].actionType != NONE)
  }

  /** Taking the head action keeps the ring: the rest starts one slot on. */
  lemma RingPop(buf: seq<Action>, h: nat, t: nat, count: nat, contents: seq<Action>)
    requires Ring(buf, h, t, count, contents) && count > 0
    ensures contents[0] == buf[h] && contents[0].actionType != NONE
    ensures Ring(buf, AdvanceIndex(h), t, count - 1, contents[1..])
  {
    assert contents[0] == buf[(h + 0) % AQ_CAPACITY];
    WindowDropFirst(buf, h, contents);
    AddMod(h + 1, count - 1);
    var rest := contents[1..];
    forall i | 0 <= i < count - 1 ensures rest[i].actionType != NONE {
      assert rest[i] == contents[i + 1];
    }
  }

  /** Writing a non-NONE action at the tail of a ring that is not full keeps
      the ring, one action longer. */
  lemma RingPush(buf: seq<Action>, h: nat, t: nat, count: nat, contents: seq<Action>, a: Action)
    requires Ring(buf, h, t, count, contents) && count < AQ_CAPACITY
    requires a.actionType != NONE
    ensures Ring(buf[t := a], h, AdvanceIndex(t), count + 1, contents + [a])
  {
    WindowAppend(buf, h, contents, a);
    AddMod(h + count, 1);
    var more := contents + [a];
    forall i | 0 <= i < count + 1 ensures more[i].actionType != NONE {
      if i < count {
        assert more[i] == contents[i];
      }
    }
  }

  class ActionQueue {
    // The fixed buffer and its bookkeeping (each a uint8_t in the source).
    const buffer: array<Action>
    var head: nat
    var tail: nat
    var count: nat

    /** The queued actions, oldest first. */
    ghost var Contents: seq<Action>

    /** The circular-buffer invariant: `count` actions start at `head`,
        `tail` is the slot after them, and no NONE action is ever stored. */
    ghost predicate Valid()
      reads this, buffer
    {
      buffer.Length == AQ_CAPACITY &&
      Ring(buffer[..], head, tail, count, Contents)
    }

    /** `ActionQueue()`: an empty queue. */
    constructor ()
      ensures Valid() && fresh(buffer)
      ensures head == 0 && tail == 0 && count == 0 && Contents == []
    {
      buffer := new Action[AQ_CAPACITY](_ => NONE_ACTION);
      head, tail, count := 0, 0, 0;
      Contents := [];
    }

    method IsEmpty() returns (empty: bool)
      requires Valid()
      ensures empty <==> Contents == []
    {
      empty := count == 0;
    }

    method IsFull() returns (full: bool)
      requires Valid()
      ensures full <==> |Contents| == AQ_CAPACITY
    {
      full := count >= AQ_CAPACITY;
    }

    method GetCount() returns (n: int)
      requires Valid()
      ensures n == |Contents| && 0 <= n <= AQ_CAPACITY
    {
      n := count;
    }

    method GetCapacity() returns (n: int)
      requires Valid()
      ensures n == buffer.Length && n - |Contents| >= 0
    {
      n := AQ_CAPACITY;
    }

    /** `peek()`: the head action, or nothing (the source's NULL) when the
        queue is empty; the queue is left as it was. */
    method Peek() returns (r: Option<Action>)
      requires Valid()
      ensures Contents == [] <==> r == None
      ensures Contents != [] ==> r == Some(Contents[0]) && r.value == buffer[head]
    {
      if count != 0 {
        r := Some(buffer[head]);
      } else {
        r := None;
      }
    }

    /** `clear()`: empties the queue in constant time; the buffer keeps its
        old contents. */
    method Clear()
      requires Valid()
      modifies this
      ensures Valid() && Contents == []
      ensures head == 0 && tail == 0 && count == 0
      ensures unchanged(buffer)
    {
      head, tail, count := 0, 0, 0;
      Contents := [];
    }

    /** `enqueue(action)`: refused on a full queue (whatever the action); a
        NONE action is reported as queued but changes nothing; any other
        action is written at `tail`, which then advances. */
    method Enqueue(action: Action) returns (ok: bool)
      requires Valid()
      modifies this, buffer
      ensures Valid()
      ensures ok <==> old(|Contents|) < AQ_CAPACITY
      ensures Contents == if ok && action.actionType != NONE
                          then old(Contents) + [action] else old(Contents)
      ensures if ok && action.actionType != NONE then
                buffer[..] == old(buffer[..])[old(tail) := action] &&
                head == old(head) && tail == AdvanceIndex(old(tail)) && count == old(count) + 1
              else
                buffer[..] == old(buffer[..]) &&
                head == old(head) && tail == old(tail) && count == old(count)
    {
      if count >= AQ_CAPACITY {
        return false;
      }
      if action.actionType != NONE {
        RingPush(buffer[..], head, tail, count, Contents, action);
        buffer[tail] := action;
        tail := AdvanceIndex(tail);
        count := count + 1;
        Contents := Contents + [action];
      }
      ok := true;
    }

    /** `enqueue(action_type, action_data)`: the same as enqueuing the
        assembled action. */
    method EnqueueWithData(actionType: ActionType, data: ActionData) returns (ok: bool)
      requires Valid()
      modifies this, buffer
      ensures Valid()
      ensures ok <==> old(|Contents|) < AQ_CAPACITY
      ensures Contents == if ok && actionType != NONE
                          then old(Contents) + [Action(actionType, data)] else old(Contents)
    {
      ok := Enqueue(Action(actionType, data));
    }

    /** `enqueue(action_type)`: the same as enqueuing the action with the
        default (zero) argument. */
    method EnqueueType(actionType: ActionType) returns (ok: bool)
      requires Valid()
      modifies this, buffer
      ensures Valid()
      ensures ok <==> old(|Contents|) < AQ_CAPACITY
      ensures Contents == if ok && actionType != NONE
                          then old(Contents) + [Action(actionType, DEFAULT_DATA)] else old(Contents)
    {
      ok := Enqueue(Action(actionType, DEFAULT_DATA));
    }

    /** `dequeue()`: removes and returns the oldest action; on an empty queue
        it returns the NONE action and changes nothing. Since NONE is never
        stored, a NONE result means exactly that the queue was empty. */
    method Dequeue() returns (a: Action)
      requires Valid()
      modifies this
      ensures Valid() && unchanged(buffer)
      ensures a.actionType == NONE <==> old(Contents) == []
      ensures old(Contents) == [] ==>
                a == NONE_ACTION && Contents == [] &&
                head == old(head) && tail == old(tail) && count == 0
      ensures old(Contents) != [] ==>
                a == old(Contents)[0] && Contents == old(Contents)[1..] &&
                head == AdvanceIndex(old(head)) && tail == old(tail) && count == old(count) - 1
    {
      if count == 0 {
        return NONE_ACTION;
      }
      a := PopHead();
    }

    /** The non-empty branch of `dequeue()`: take the action at `head` and
        advance `head`. */
    method PopHead() returns (a: Action)
      requires Valid() && count > 0
      modifies this
      ensures Valid() && unchanged(buffer)
      ensures a == old(Contents)[0] && a.actionType != NONE
      ensures Contents == old(Contents)[1..]
      ensures head == AdvanceIndex(old(head)) && tail == old(tail) && count == old(count) - 1
    {
      RingPop(buffer[..], head, tail, count, Contents);
      a := buffer[head];
      head := AdvanceIndex(head);
      count := count - 1;
      Contents := Contents[1..];
    }
  }

  /** A new queue holding `actions`, enqueued one by one. */
  method NewQueueWith(actions: seq<Action>) returns (q: ActionQueue, allAccepted: bool)
    requires |actions| <= AQ_CAPACITY
    requires forall i | 0 <= i < |actions| :: actions[i].actionType != NONE
    ensures fresh(q) && fresh(q.buffer) && q.Valid()
    ensures q.Contents == actions
    ensures allAccepted
  {
    q := new ActionQueue();
    allAccepted := true;
    var i := 0;
    while i < |actions|
      invariant 0 <= i <= |actions|
      invariant fresh(q) && fresh(q.buffer) && q.Valid()
      invariant q.Contents == actions[..i]
      invariant allAccepted
    {
      var ok := q.Enqueue(actions[i]);
      allAccepted := allAccepted && ok;
      i := i + 1;
    }
    assert actions[..i] == actions;
  }

  /** Dequeues until the queue is empty, collecting what comes out. */
  method DrainAll(q: ActionQueue) returns (drained: seq<Action>)
    requires q.Valid()
    modifies q
    ensures q.Valid() && q.Contents == []
    ensures drained == old(q.Contents)
  {
    drained := [];
    while q.count != 0
      invariant q.Valid()
      invariant drained + q.Contents == old(q.Contents)
      decreases q.count
    {
      var a := q.Dequeue();
      drained := drained + [a];
    }
  }

  /** First in, first out: up to a full queue's worth of actions, enqueued
      into a new queue and then dequeued, come back in the order they went in,
      and one more dequeue finds the queue empty. */
  method FifoOrder(actions: seq<Action>) returns (allAccepted: bool, drained: seq<Action>, after: Action)
    requires |actions| <= AQ_CAPACITY
    requires forall i | 0 <= i < |actions| :: actions[i].actionType != NONE
    ensures allAccepted
    ensures drained == actions
    ensures after == NONE_ACTION
  {
    var q;
    q, allAccepted := NewQueueWith(actions);
    drained := DrainAll(q);
    after := q.Dequeue();
  }

  /** A full queue refuses one more action, whatever its type, and the eight
      it holds still come out in order. */
  method FullQueueRefuses(actions: seq<Action>, extra: Action) returns (extraAccepted: bool, drained: seq<Action>)
    requires |actions| == AQ_CAPACITY
    requires forall i | 0 <= i < |actions| :: actions[i].actionType != NONE
    ensures !extraAccepted
    ensures drained == actions
  {
    var q, _ := NewQueueWith(actions);
    extraAccepted := q.Enqueue(extra);
    drained := DrainAll(q);
  }
}
