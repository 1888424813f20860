/**
The lock-free send buffer (mmocraft/io/io_event.h:257-337) under any number of producing threads and
one consumer, driven by IoSendEvent (mmocraft/io/io_event.cpp:46-57, 115-131).

One label per atomic step. A producer's copy belongs to its successful compare-exchange; the
consumer's pop is three separate steps: advance the head, compare-exchange the tail to zero, and
clear the head.
*/
module SendBuffer {
  import opened Wrappers
  import opened Bytes

  type Thread = nat

  /** A producer inside push's retry loop, with the tail it last observed. */
  datatype Producer = Idle | Trying(oldTail: nat, bytes: seq<Byte>)

  datatype Consumer =
    | Ready               // is_processing is false
    | Posted(size: nat)   // the kernel reads size bytes from the head
    | Advanced            // pop has moved the head
    | Resetting           // pop has set the tail to zero, the head still holds its old value
    | Completing          // pop has returned, is_processing is still true

  datatype State = State(data: seq<Byte>, head: nat, tail: nat, consumer: Consumer, producers: map<Thread, Producer>)

  datatype Label =
    | Load(t: Thread, bytes: seq<Byte>)
    | Reject(t: Thread)
    | CasSucceeds(t: Thread)
    | CasFails(t: Thread)      // a changed tail, or a spurious failure
    | Post
    | Fail                     // event_failed: the event is released without a pop
    | Complete(n: nat)         // n bytes were transferred: pop begins
    | ResetSucceeds
    | ResetFails
    | ClearHead
    | Release

  function ProducerOf(s: State, t: Thread): Producer {
    if t in s.producers then s.producers[t] else Idle
  }

  function Init(capacity: nat): State {
    State(seq(capacity, _ => 0), 0, 0, Ready, map[])
  }

  /** data with the bytes copied to offset at. */
  function Splice(data: seq<Byte>, at: nat, bytes: seq<Byte>): seq<Byte>
    requires at + |bytes| <= |data|
  {
    data[..at] + bytes + data[at + |bytes|..]
  }

  function Step(s: State, l: Label): Option<State> {
    match l
    case Load(t, bytes) =>
      if ProducerOf(s, t).Idle? then Some(s.(producers := s.producers[t := Trying(s.tail, bytes)])) else None
    case Reject(t) =>
      var p := ProducerOf(s, t);
      if p.Trying? && p.oldTail + |p.bytes| > |s.data| then Some(s.(producers := s.producers[t := Idle])) else None
    case CasSucceeds(t) =>
      var p := ProducerOf(s, t);
      if p.Trying? && p.oldTail + |p.bytes| <= |s.data| && s.tail == p.oldTail then
        Some(s.(data := Splice(s.data, s.tail, p.bytes), tail := s.tail + |p.bytes|, producers :=
            s.producers[t := Idle]))
      else None
    case CasFails(t) =>
      var p := ProducerOf(s, t);
      if p.Trying? && p.oldTail + |p.bytes| <= |s.data| then
        Some(s.(producers := s.producers[t := Trying(s.tail, p.bytes)]))
      else None
    case Post =>
      if s.consumer.Ready? && s.head < s.tail then Some(s.(consumer := Posted(s.tail - s.head))) else None
    case Fail =>
      if s.consumer.Posted? then Some(s.(consumer := Ready)) else None
    case Complete(n) =>
      if s.consumer.Posted? && 0 < n <= s.consumer.size then Some(s.(head := s.head + n, consumer := Advanced))
          else None
    case ResetSucceeds =>
      if s.consumer.Advanced? && s.tail == s.head then Some(s.(tail := 0, consumer := Resetting)) else None
    case ResetFails =>
      if s.consumer.Advanced? && s.tail != s.head then Some(s.(consumer := Completing)) else None
    case ClearHead =>
      if s.consumer.Resetting? then Some(s.(head := 0, consumer := Completing)) else None
    case Release =>
      if s.consumer.Completing? then Some(s.(consumer := Ready)) else None
  }

  function Exec(capacity: nat, run: seq<Label>): Option<State> {
    if run == [] then Some(Init(capacity))
    else match Exec(capacity, run[..|run| - 1])
      case None => None
      case Some(s) => Step(s, run[|run| - 1])
  }

  // ----- What the producers put in, what the network acknowledged, what is still buffered.

  /** The bytes an accepted push adds. */
  function Added(s: State, l: Label): seq<Byte> {
    if l.CasSucceeds? && ProducerOf(s, l.t).Trying? then ProducerOf(s, l.t).bytes else []
  }

  /** The bytes a completion takes out, as they stand in the buffer at that moment. */
  function Taken(s: State, l: Label): seq<Byte> {
    if l.Complete? && s.head + l.n <= |s.data| then s.data[s.head..s.head + l.n] else []
  }

  /** The bytes of the accepted pushes, in the order of their compare-exchange. */
  function Accepted(capacity: nat, run: seq<Label>): seq<Byte> {
    if run == [] then []
    else match Exec(capacity, run[..|run| - 1])
      case None => []
      case Some(s) => Accepted(capacity, run[..|run| - 1]) + Added(s, run[|run| - 1])
  }

  /** The bytes that left the buffer, in the order of their completions. */
  function Acknowledged(capacity: nat, run: seq<Label>): seq<Byte> {
    if run == [] then []
    else match Exec(capacity, run[..|run| - 1])
      case None => []
      case Some(s) => Acknowledged(capacity, run[..|run| - 1]) + Taken(s, run[|run| - 1])
  }

  ghost predicate InBounds(s: State) {
    && s.tail <= |s.data|
    && (!s.consumer.Resetting? ==> s.head <= s.tail)
    && (s.consumer.Posted? ==> 0 < s.consumer.size && s.head + s.consumer.size <= s.tail)
  }

  /** The buffered bytes. While the head still awaits clearing, they start at zero. */
  function Live(s: State): seq<Byte>
    requires InBounds(s)
  {
    if s.consumer.Resetting? then s.data[..s.tail] else s.data[s.head..s.tail]
  }

  /** One step moves bytes in at the end and out at the front, and nothing else. */
  lemma StepConservesBytes(s: State, l: Label, s': State)
    requires InBounds(s) && Step(s, l) == Some(s')
    ensures InBounds(s') && |s'.data| == |s.data|
    ensures Live(s) + Added(s, l) == Taken(s, l) + Live(s')
  {
    if l.CasSucceeds? {
      WriteBehind(s.data, s'.data, if s.consumer.Resetting? then 0 else s.head, s.tail, ProducerOf(s, l.t).bytes);
    } else if l.Complete? {
      assert s.data[s.head..s.tail] == s.data[s.head..s.head + l.n] + s.data[s.head + l.n..s.tail];
    }
  }

  lemma WriteBehind(data: seq<Byte>, data': seq<Byte>, from: nat, tail: nat, bytes: seq<Byte>)
    requires from <= tail && tail + |bytes| <= |data| && data' == data[..tail] + bytes + data[tail + |bytes|..]
    ensures data'[from..tail + |bytes|] == data[from..tail] + bytes
  {
  }

  lemma StepKeepsPostedRegion(s: State, l: Label, s': State)
    requires InBounds(s) && s.consumer.Posted? && Step(s, l) == Some(s') && !l.Complete? && !l.Fail?
    ensures InBounds(s') && s'.consumer == s.consumer && s'.head == s.head
    ensures s'.data[s.head..s.head + s.consumer.size] == s.data[s.head..s.head + s.consumer.size]
  {
    StepConservesBytes(s, l, s');
    if l.CasSucceeds? {
      assert s'.data[..s.tail] == s.data[..s.tail];
      assert s'.data[s.head..s.head + s.consumer.size] == s'.data[..s.tail][s.head..s.head + s.consumer.size];
    }
  }

  lemma Regroup(acked: seq<Byte>, taken: seq<Byte>, live': seq<Byte>, live: seq<Byte>, added: seq<Byte>)
    requires live + added == taken + live'
    ensures (acked + taken) + live' == (acked + live) + added
  {
    assert (acked + taken) + live' == acked + (taken + live');
    assert (acked + live) + added == acked + (live + added);
  }

  // ----- Main results, over every interleaving.

  /** Nothing is lost, duplicated, reordered or altered, and the tail stays inside the buffer. */
  lemma {:induction false} AcceptedIsAcknowledgedPlusLive(capacity: nat, run: seq<Label>)
    requires Exec(capacity, run).Some?
    ensures var s := Exec(capacity, run).value;
      && InBounds(s) && |s.data| == capacity
      && Acknowledged(capacity, run) + Live(s) == Accepted(capacity, run)
    decreases |run|
  {
    if run == [] {
    } else {
      var before, l := run[..|run| - 1], run[|run| - 1];
      AcceptedIsAcknowledgedPlusLive(capacity, before);
      var s, s' := Exec(capacity, before).value, Exec(capacity, run).value;
      StepConservesBytes(s, l, s');
      Regroup(Acknowledged(capacity, before), Taken(s, l), Live(s'), Live(s), Added(s, l));
    }
  }

  lemma RunsStayInBounds(capacity: nat, run: seq<Label>)
    requires Exec(capacity, run).Some?
    ensures InBounds(Exec(capacity, run).value) && |Exec(capacity, run).value.data| == capacity
  {
    AcceptedIsAcknowledgedPlusLive(capacity, run);
  }

  /** From the post to its completion or failure, nothing moves or overwrites the region the kernel reads. */
  lemma PostedRegionIsStable(capacity: nat, run: seq<Label>, l: Label, s': State)
    requires Exec(capacity, run).Some? && Exec(capacity, run).value.consumer.Posted?
    requires Step(Exec(capacity, run).value, l) == Some(s') && !l.Complete? && !l.Fail?
    ensures var s := Exec(capacity, run).value;
      && InBounds(s) && InBounds(s')
      && s'.consumer == s.consumer && s'.head == s.head
      && s'.data[s.head..s.head + s.consumer.size] == s.data[s.head..s.head + s.consumer.size]
  {
    RunsStayInBounds(capacity, run);
    StepKeepsPostedRegion(Exec(capacity, run).value, l, s');
  }

  /** Outside a pop, an empty buffer has its tail at zero. */
  ghost predicate EmptyMeansReset(s: State) {
    (s.consumer.Ready? || s.consumer.Completing?) && s.head == s.tail ==> s.tail == 0
  }

  lemma StepKeepsEmptyMeansReset(s: State, l: Label, s': State)
    requires InBounds(s) && EmptyMeansReset(s) && Step(s, l) == Some(s')
    ensures EmptyMeansReset(s')
  {
  }

  /** Once a pop is over and everything is acknowledged, the whole capacity is free: a push that fits it is accepted. */
  lemma {:induction false} DrainedBufferTakesAnyPush(capacity: nat, run: seq<Label>, t: Thread, bytes: seq<Byte>)
    requires Exec(capacity, run).Some?
    ensures var s := Exec(capacity, run).value;
      && EmptyMeansReset(s)
      && ((s.consumer.Ready? || s.consumer.Completing?) && s.head == s.tail && ProducerOf(s, t).Idle?
          && |bytes| <= capacity ==>
            && Step(s, Load(t, bytes)).Some?
            && Step(Step(s, Load(t, bytes)).value, CasSucceeds(t)).Some?)
    decreases |run|
  {
    AcceptedIsAcknowledgedPlusLive(capacity, run);
    if run == [] {
    } else {
      var before := run[..|run| - 1];
      DrainedBufferTakesAnyPush(capacity, before, t, bytes);
      AcceptedIsAcknowledgedPlusLive(capacity, before);
      StepKeepsEmptyMeansReset(Exec(capacity, before).value, run[|run| - 1], Exec(capacity, run).value);
    }
  }

  // ----- Nothing stays behind.

  /** A send is posted exactly when none is under way and bytes are buffered, and it covers all of them. */
  lemma PostTakesAllLive(capacity: nat, run: seq<Label>)
    requires Exec(capacity, run).Some?
    ensures var s := Exec(capacity, run).value;
      && InBounds(s)
      && (Step(s, Post).Some? <==> s.consumer.Ready? && Live(s) != [])
      && (Step(s, Post).Some? ==>
            var s' := Step(s, Post).value;
            && s'.consumer.Posted? && s'.data == s.data && s'.head + s'.consumer.size <= |s'.data|
            && s'.data[s'.head..s'.head + s'.consumer.size] == Live(s))
  {
    RunsStayInBounds(capacity, run);
  }

  /** A send that fails can be posted again at once, with the same bytes and whatever was pushed meanwhile. */
  lemma FailedSendIsPostedAgain(capacity: nat, run: seq<Label>)
    requires Exec(capacity, run).Some? && Exec(capacity, run).value.consumer.Posted?
    ensures var s := Exec(capacity, run).value;
      && InBounds(s) && Step(s, Fail).Some?
      && var s' := Step(s, Fail).value;
      && InBounds(s') && Live(s') == Live(s) && Step(s', Post).Some?
      && Step(s', Post).value == s.(consumer := Posted(|Live(s)|))
  {
    RunsStayInBounds(capacity, run);
    FailThenPost(Exec(capacity, run).value);
  }

  lemma FailThenPost(s: State)
    requires InBounds(s) && s.consumer.Posted?
    ensures Step(s, Fail) == Some(s.(consumer := Ready))
    ensures Step(s.(consumer := Ready), Post) == Some(s.(consumer := Posted(|Live(s)|)))
  {
  }

  predicate IsConsumers(l: Label) {
    !l.Load? && !l.Reject? && !l.CasSucceeds? && !l.CasFails? && !l.Fail?
  }

  /** What the event does next: a kernel that transfers all it was given, and no failure. */
  function NextOfConsumer(s: State): Label {
    match s.consumer
    case Ready => Post
    case Posted(size) => Complete(size)
    case Advanced => if s.tail == s.head then ResetSucceeds else ResetFails
    case Resetting => ClearHead
    case Completing => Release
  }

  function StepsToReady(c: Consumer): nat {
    match c
    case Posted(_) => 0
    case Ready => 1
    case Completing => 2
    case Resetting => 3
    case Advanced => 4
  }

  lemma ConsumerMovesOn(s: State)
    requires InBounds(s) && (s.consumer.Ready? ==> Live(s) != [])
    ensures var l := NextOfConsumer(s);
      && IsConsumers(l) && Step(s, l).Some?
      && var s' := Step(s, l).value;
      && InBounds(s') && Added(s, l) == []
      && (|Live(s')| < |Live(s)|
          || (Live(s') == Live(s) && StepsToReady(s'.consumer) < StepsToReady(s.consumer)))
  {
    if s.consumer.Posted? {
      CompletionShrinks(s);
    } else {
      QuietConsumerStep(s);
    }
  }

  lemma CompletionShrinks(s: State)
    requires InBounds(s) && s.consumer.Posted?
    ensures var l := Complete(s.consumer.size);
      && Step(s, l).Some? && InBounds(Step(s, l).value) && |Live(Step(s, l).value)| < |Live(s)|
  {
  }

  lemma QuietConsumerStep(s: State)
    requires InBounds(s) && !s.consumer.Posted? && (s.consumer.Ready? ==> Live(s) != [])
    ensures var l := NextOfConsumer(s);
      && Step(s, l).Some?
      && var s' := Step(s, l).value;
      && InBounds(s') && Live(s') == Live(s) && StepsToReady(s'.consumer) < StepsToReady(s.consumer)
  {
  }

  function Steps(s: State, labels: seq<Label>): Option<State> {
    if labels == [] then Some(s)
    else match Steps(s, labels[..|labels| - 1])
      case None => None
      case Some(s') => Step(s', labels[|labels| - 1])
  }

  lemma {:induction false} StepsConcat(s: State, a: seq<Label>, b: seq<Label>)
    requires Steps(s, a).Some?
    ensures Steps(s, a + b) == Steps(Steps(s, a).value, b)
    decreases |b|
  {
    if b == [] {
      assert a + b == a;
    } else {
      assert (a + b)[..|a + b| - 1] == a + b[..|b| - 1];
      StepsConcat(s, a, b[..|b| - 1]);
    }
  }

  lemma OneStep(s: State, l: Label)
    ensures Steps(s, [l]) == Step(s, l)
  {
    assert [l][..0] == [] && Steps(s, []) == Some(s);
  }

  lemma {:induction false} ExecIsSteps(capacity: nat, run: seq<Label>)
    ensures Exec(capacity, run) == Steps(Init(capacity), run)
    decreases |run|
  {
    if run != [] {
      ExecIsSteps(capacity, run[..|run| - 1]);
    }
  }

  lemma {:induction false} ConsumersAddNothing(capacity: nat, run: seq<Label>, more: seq<Label>)
    requires Exec(capacity, run + more).Some? && forall l :: l in more ==> IsConsumers(l)
    ensures Accepted(capacity, run + more) == Accepted(capacity, run)
    decreases |more|
  {
    if more == [] {
      assert run + more == run;
    } else {
      var before := more[..|more| - 1];
      assert (run + more)[..|run + more| - 1] == run + before;
      assert more[|more| - 1] in more;
      ConsumersAddNothing(capacity, run, before);
    }
  }

  /** By itself the event comes to rest with nothing buffered. */
  lemma {:induction false} ConsumerDrains(s: State) returns (more: seq<Label>)
    requires InBounds(s)
    ensures forall l :: l in more ==> IsConsumers(l)
    ensures Steps(s, more).Some?
    ensures var s' := Steps(s, more).value; InBounds(s') && s'.consumer.Ready? && Live(s') == []
    decreases |Live(s)|, StepsToReady(s.consumer)
  {
    if s.consumer.Ready? && Live(s) == [] {
      more := [];
    } else {
      ConsumerMovesOn(s);
      var l := NextOfConsumer(s);
      var rest := ConsumerDrains(Step(s, l).value);
      OneStep(s, l);
      StepsConcat(s, [l], rest);
      more := [l] + rest;
    }
  }

  /** From every reachable state the event can go on by itself until all accepted bytes are acknowledged. */
  lemma EverythingIsAcknowledged(capacity: nat, run: seq<Label>) returns (more: seq<Label>)
    requires Exec(capacity, run).Some?
    ensures forall l :: l in more ==> IsConsumers(l)
    ensures Exec(capacity, run + more).Some? && Exec(capacity, run + more).value.consumer.Ready?
    ensures Acknowledged(capacity, run + more) == Accepted(capacity, run)
  {
    AcceptedIsAcknowledgedPlusLive(capacity, run);
    more := ConsumerDrains(Exec(capacity, run).value);
    ExecIsSteps(capacity, run);
    ExecIsSteps(capacity, run + more);
    StepsConcat(Init(capacity), run, more);
    ConsumersAddNothing(capacity, run, more);
    AcceptedIsAcknowledgedPlusLive(capacity, run + more);
  }

  // ----- No push is refused without reason.

  ghost predicate TryingAt(capacity: nat, run: seq<Label>, t: Thread, bytes: seq<Byte>) {
    && Exec(capacity, run).Some?
    && ProducerOf(Exec(capacity, run).value, t).Trying? && ProducerOf(Exec(capacity, run).value, t).bytes == bytes
  }

  /** t's push of these bytes has been under way since the n-th step. */
  ghost predicate UnderWaySince(capacity: nat, run: seq<Label>, t: Thread, bytes: seq<Byte>, n: nat) {
    n <= |run| && forall i :: n <= i <= |run| ==> TryingAt(capacity, run[..i], t, bytes)
  }

  lemma UnderWaySnoc(capacity: nat, run: seq<Label>, t: Thread, bytes: seq<Byte>, n: nat)
    requires run != [] && UnderWaySince(capacity, run[..|run| - 1], t, bytes, n) && TryingAt(capacity, run, t, bytes)
    ensures UnderWaySince(capacity, run, t, bytes, n)
  {
    forall i | n <= i <= |run| ensures TryingAt(capacity, run[..i], t, bytes) {
      if i < |run| {
        assert run[..|run| - 1][..i] == run[..i];
      } else {
        assert run[..i] == run;
      }
    }
  }

  /** A producer's old tail is one the buffer had during its push. */
  lemma {:induction false} TailWasObserved(capacity: nat, run: seq<Label>, t: Thread) returns (n: nat)
    requires Exec(capacity, run).Some? && ProducerOf(Exec(capacity, run).value, t).Trying?
    ensures UnderWaySince(capacity, run, t, ProducerOf(Exec(capacity, run).value, t).bytes, n)
    ensures Exec(capacity, run[..n]).value.tail == ProducerOf(Exec(capacity, run).value, t).oldTail
    decreases |run|
  {
    var before, l := run[..|run| - 1], run[|run| - 1];
    if (l.Load? || l.CasFails?) && l.t == t {
      n := |run|;
      assert run[..n] == run;
    } else {
      n := TailWasObserved(capacity, before, t);
      assert before[..n] == run[..n];
      UnderWaySnoc(capacity, run, t, ProducerOf(Exec(capacity, run).value, t).bytes, n);
    }
  }

  /**
  A push can be refused exactly when its bytes did not fit behind the tail at the moment, during that very push, at
  which it last observed it.
  */
  lemma RefusedIffItDidNotFit(capacity: nat, run: seq<Label>, t: Thread) returns (n: nat)
    requires Exec(capacity, run).Some? && ProducerOf(Exec(capacity, run).value, t).Trying?
    ensures UnderWaySince(capacity, run, t, ProducerOf(Exec(capacity, run).value, t).bytes, n)
    ensures Step(Exec(capacity, run).value, Reject(t)).Some? <==>
            Exec(capacity, run[..n]).value.tail + |ProducerOf(Exec(capacity, run).value, t).bytes| > capacity
  {
    n := TailWasObserved(capacity, run, t);
    AcceptedIsAcknowledgedPlusLive(capacity, run);
  }

  /** A push that did fit and now retries is decided at once if nobody intervenes, by whether it fits now. */
  lemma RetryDecides(capacity: nat, run: seq<Label>, t: Thread)
    requires Exec(capacity, run).Some? && ProducerOf(Exec(capacity, run).value, t).Trying?
    ensures var s := Exec(capacity, run).value;
      || Step(s, Reject(t)).Some?
      || (&& Step(s, CasFails(t)).Some?
          && var s' := Step(s, CasFails(t)).value;
          && (Step(s', CasSucceeds(t)).Some? <==> s.tail + |ProducerOf(s, t).bytes| <= capacity)
          && (Step(s', Reject(t)).Some? <==> s.tail + |ProducerOf(s, t).bytes| > capacity))
  {
    AcceptedIsAcknowledgedPlusLive(capacity, run);
  }
}
