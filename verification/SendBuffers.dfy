/**
The two send buffers used one call at a time: the lock-free one, which resets eagerly in pop
(mmocraft/io/io_event.h:307-329), and the plain one, which resets lazily in push
(mmocraft/io/io_event.h:199-217). Both refine a byte FIFO and cannot be told apart by their callers.
*/
module SendBuffers {
  import opened Wrappers
  import opened Bytes
  import SendBuffer

  /** What a buffer's fields amount to: the two offsets and the bytes between them. */
  datatype Layout = Layout(head: nat, tail: nat, bytes: seq<Byte>)

  // ----- Transitions of the two layouts.

  function EagerPush(capacity: nat, b: Layout, data: seq<Byte>): (Layout, bool) {
    if b.tail + |data| > capacity then (b, false) else (Layout(b.head, b.tail + |data|, b.bytes + data), true)
  }

  function EagerPop(b: Layout, n: nat): Layout
    requires n <= |b.bytes|
  {
    if b.head + n == b.tail then Layout(0, 0, b.bytes[n..]) else Layout(b.head + n, b.tail, b.bytes[n..])
  }

  function LazyPush(capacity: nat, b: Layout, data: seq<Byte>): (Layout, bool) {
    var b' := if b.head == b.tail then Layout(0, 0, b.bytes) else b;
    if |data| > capacity - b'.tail then (b', false) else (Layout(b'.head, b'.tail + |data|, b'.bytes + data), true)
  }

  function LazyPop(b: Layout, n: nat): Layout
    requires n <= |b.bytes|
  {
    Layout(b.head + n, b.tail, b.bytes[n..])
  }

  // ----- The code, over an array.

  class EagerBuffer {
    const data: array<Byte>
    var head: nat
    var tail: nat

    ghost predicate Valid()
      reads this
    {
      head <= tail <= data.Length
    }

    ghost function View(): Layout
      requires Valid()
      reads this, data
    {
      Layout(head, tail, data[head..tail])
    }

    constructor (capacity: nat)
      ensures Valid() && fresh(data) && data.Length == capacity && View() == Layout(0, 0, [])
    {
      data := new Byte[capacity];
      head, tail := 0, 0;
    }

    method Push(bytes: seq<Byte>) returns (ok: bool)
      requires Valid()
      modifies this, data
      ensures Valid() && (View(), ok) == EagerPush(data.Length, old(View()), bytes)
    {
      var oldTail := tail;
      if oldTail + |bytes| > data.Length {
        return false;
      }
      tail := oldTail + |bytes|;
      forall i | 0 <= i < |bytes| {
        data[oldTail + i] := bytes[i];
      }
      assert data[head..tail] == old(data[head..tail]) + bytes;
      ok := true;
    }

    method Pop(n: nat)
      requires Valid() && n <= tail - head
      modifies this
      ensures Valid() && View() == EagerPop(old(View()), n)
    {
      head := head + n;
      if tail == head {
        tail := 0;
        head := 0;
      }
    }
  }

  class LazyBuffer {
    const data: array<Byte>
    var head: nat
    var tail: nat

    ghost predicate Valid()
      reads this
    {
      head <= tail <= data.Length
    }

    ghost function View(): Layout
      requires Valid()
      reads this, data
    {
      Layout(head, tail, data[head..tail])
    }

    constructor (capacity: nat)
      ensures Valid() && fresh(data) && data.Length == capacity && View() == Layout(0, 0, [])
    {
      data := new Byte[capacity];
      head, tail := 0, 0;
    }

    method Push(bytes: seq<Byte>) returns (ok: bool)
      requires Valid()
      modifies this, data
      ensures Valid() && (View(), ok) == LazyPush(data.Length, old(View()), bytes)
    {
      if head == tail {
        head, tail := 0, 0;
      }
      if |bytes| > data.Length - tail {
        return false;
      }
      forall i | 0 <= i < |bytes| {
        data[tail + i] := bytes[i];
      }
      tail := tail + |bytes|;
      assert data[head..tail] == old(data[head..tail]) + bytes;
      ok := true;
    }

    method Pop(n: nat)
      requires Valid() && n <= tail - head
      modifies this
      ensures Valid() && View() == LazyPop(old(View()), n)
    {
      head := head + n;
    }
  }

  // ----- Runs of calls.

  datatype Call = Push(data: seq<Byte>) | Pop(n: nat)

  /** A buffer after some calls, with the answers of its pushes. */
  datatype Outcome = Outcome(buffer: Layout, answers: seq<bool>)

  function EagerCall(capacity: nat, o: Outcome, call: Call): Option<Outcome> {
    match call
    case Push(data) => var (b, ok) := EagerPush(capacity, o.buffer, data); Some(Outcome(b, o.answers + [ok]))
    case Pop(n) => if n <= |o.buffer.bytes| then Some(o.(buffer := EagerPop(o.buffer, n))) else None
  }

  function LazyCall(capacity: nat, o: Outcome, call: Call): Option<Outcome> {
    match call
    case Push(data) => var (b, ok) := LazyPush(capacity, o.buffer, data); Some(Outcome(b, o.answers + [ok]))
    case Pop(n) => if n <= |o.buffer.bytes| then Some(o.(buffer := LazyPop(o.buffer, n))) else None
  }

  function RunEager(capacity: nat, calls: seq<Call>): Option<Outcome> {
    if calls == [] then Some(Outcome(Layout(0, 0, []), []))
    else match RunEager(capacity, calls[..|calls| - 1])
      case None => None
      case Some(o) => EagerCall(capacity, o, calls[|calls| - 1])
  }

  function RunLazy(capacity: nat, calls: seq<Call>): Option<Outcome> {
    if calls == [] then Some(Outcome(Layout(0, 0, []), []))
    else match RunLazy(capacity, calls[..|calls| - 1])
      case None => None
      case Some(o) => LazyCall(capacity, o, calls[|calls| - 1])
  }

  /** The byte FIFO with the same answers: an accepted push appends, a pop drops from the front. */
  function Fifo(calls: seq<Call>, answers: seq<bool>): seq<Byte> {
    if calls == [] then []
    else
      var last := calls[|calls| - 1];
      if last.Pop? then
        var q := Fifo(calls[..|calls| - 1], answers);
        if last.n <= |q| then q[last.n..] else []
      else if answers == [] then []
      else
        var q := Fifo(calls[..|calls| - 1], answers[..|answers| - 1]);
        if answers[|answers| - 1] then q + last.data else q
  }

  ghost predicate WellFormed(capacity: nat, b: Layout) {
    b.head <= b.tail <= capacity && |b.bytes| == b.tail - b.head
  }

  /** The eager offsets are the lazy ones, except that an empty buffer sits at zero. */
  ghost predicate SameContents(eager: Layout, lazy: Layout) {
    eager == if lazy.head == lazy.tail then Layout(0, 0, lazy.bytes) else lazy
  }

  ghost predicate Alike(capacity: nat, e: Outcome, z: Outcome) {
    && e.answers == z.answers
    && WellFormed(capacity, e.buffer) && WellFormed(capacity, z.buffer) && SameContents(e.buffer, z.buffer)
  }

  lemma CallKeepsAlike(capacity: nat, e: Outcome, z: Outcome, call: Call)
    requires Alike(capacity, e, z)
    ensures EagerCall(capacity, e, call).Some? <==> LazyCall(capacity, z, call).Some?
    ensures EagerCall(capacity, e, call).Some? ==>
      Alike(capacity, EagerCall(capacity, e, call).value, LazyCall(capacity, z, call).value)
  {
  }

  lemma CallKeepsFifo(capacity: nat, before: seq<Call>, e: Outcome, call: Call)
    requires WellFormed(capacity, e.buffer) && e.buffer.bytes == Fifo(before, e.answers)
        && EagerCall(capacity, e, call).Some?
    ensures var e' := EagerCall(capacity, e, call).value; e'.buffer.bytes == Fifo(before + [call], e'.answers)
  {
    assert (before + [call])[..|before|] == before;
    var e' := EagerCall(capacity, e, call).value;
    if call.Push? {
      assert e'.answers[..|e'.answers| - 1] == e.answers;
    }
  }

  lemma CallKeepsBoth(capacity: nat, before: seq<Call>, e: Outcome, z: Outcome, call: Call)
    requires Alike(capacity, e, z) && e.buffer.bytes == Fifo(before, e.answers)
    ensures EagerCall(capacity, e, call).Some? <==> LazyCall(capacity, z, call).Some?
    ensures EagerCall(capacity, e, call).Some? ==>
      var e', z' := EagerCall(capacity, e, call).value, LazyCall(capacity, z, call).value;
      Alike(capacity, e', z') && e'.buffer.bytes == Fifo(before + [call], e'.answers)
  {
    CallKeepsAlike(capacity, e, z, call);
    if EagerCall(capacity, e, call).Some? {
      CallKeepsFifo(capacity, before, e, call);
    }
  }

  /** For every run of calls: the same pops are legal, the same pushes accepted, the same bytes held, as in a FIFO. */
  lemma {:induction false} BuffersAreInterchangeable(capacity: nat, calls: seq<Call>)
    ensures RunEager(capacity, calls).Some? <==> RunLazy(capacity, calls).Some?
    ensures RunEager(capacity, calls).Some? ==>
      var e, z := RunEager(capacity, calls).value, RunLazy(capacity, calls).value;
      Alike(capacity, e, z) && e.buffer.bytes == Fifo(calls, e.answers)
    decreases |calls|
  {
    if calls == [] {
    } else {
      var before, call := calls[..|calls| - 1], calls[|calls| - 1];
      BuffersAreInterchangeable(capacity, before);
      if RunEager(capacity, before).Some? {
        CallKeepsBoth(capacity, before, RunEager(capacity, before).value, RunLazy(capacity, before).value, call);
        assert before + [call] == calls;
      }
    }
  }

  /**
  A push is accepted exactly when it fits behind the buffered bytes; popped space counts as free only once all is
  popped.
  */
  lemma PushAcceptedIff(capacity: nat, calls: seq<Call>, data: seq<Byte>)
    requires RunEager(capacity, calls).Some?
    ensures var e := RunEager(capacity, calls).value;
      EagerPush(capacity, e.buffer, data).1 <==>
        (if Fifo(calls, e.answers) == [] then 0 else e.buffer.head) + |Fifo(calls, e.answers)| + |data| <= capacity
  {
    BuffersAreInterchangeable(capacity, calls);
  }

  // ----- The class is the concurrent protocol without interference.

  function LayoutOf(s: SendBuffer.State): Layout
    requires SendBuffer.InBounds(s) && !s.consumer.Resetting?
  {
    Layout(s.head, s.tail, s.data[s.head..s.tail])
  }

  lemma UninterruptedPush(s: SendBuffer.State, t: SendBuffer.Thread, bytes: seq<Byte>)
    requires SendBuffer.InBounds(s) && !s.consumer.Resetting? && SendBuffer.ProducerOf(s, t).Idle?
    ensures SendBuffer.Step(s, SendBuffer.Load(t, bytes)).Some?
    ensures var loaded := SendBuffer.Step(s, SendBuffer.Load(t, bytes)).value;
      var (b, ok) := EagerPush(|s.data|, LayoutOf(s), bytes);
      if ok then
        && SendBuffer.Step(loaded, SendBuffer.CasSucceeds(t)).Some?
        && var s' := SendBuffer.Step(loaded, SendBuffer.CasSucceeds(t)).value;
           SendBuffer.InBounds(s') && !s'.consumer.Resetting? && LayoutOf(s') == b
      else SendBuffer.Step(loaded, SendBuffer.Reject(t)).Some?
  {
    var loaded := SendBuffer.Step(s, SendBuffer.Load(t, bytes)).value;
    if EagerPush(|s.data|, LayoutOf(s), bytes).1 {
      SendBuffer.StepConservesBytes(loaded, SendBuffer.CasSucceeds(t),
          SendBuffer.Step(loaded, SendBuffer.CasSucceeds(t)).value);
    }
  }

  lemma UninterruptedPop(s: SendBuffer.State, n: nat)
    requires SendBuffer.InBounds(s) && s.consumer.Posted? && 0 < n <= s.consumer.size
    ensures SendBuffer.Step(s, SendBuffer.Complete(n)).Some?
    ensures var advanced := SendBuffer.Step(s, SendBuffer.Complete(n)).value;
      var b := EagerPop(LayoutOf(s), n);
      if b.tail == 0 then
        && SendBuffer.Step(advanced, SendBuffer.ResetSucceeds).Some?
        && var reset := SendBuffer.Step(advanced, SendBuffer.ResetSucceeds).value;
        && SendBuffer.Step(reset, SendBuffer.ClearHead).Some?
        && var s' := SendBuffer.Step(reset, SendBuffer.ClearHead).value;
           SendBuffer.InBounds(s') && !s'.consumer.Resetting? && LayoutOf(s') == b
      else
        && SendBuffer.Step(advanced, SendBuffer.ResetFails).Some?
        && var s' := SendBuffer.Step(advanced, SendBuffer.ResetFails).value;
           SendBuffer.InBounds(s') && !s'.consumer.Resetting? && LayoutOf(s') == b
  {
  }
}
