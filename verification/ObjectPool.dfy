/**
The bitmap object pool (mmocraft/win/object_pool.h:61-219): a growing allocator over 64-bit words in
which a set bit marks a free object. VirtualAlloc's answers are parameters.
*/
module ObjectPool {
  import opened Wrappers
  import opened Words

  const DEFAULT_CAPACITY: nat := 512

  // Indices are 32-bit and the largest one means none.
  const INVALID_INDEX: nat := 0xFFFF_FFFF

  // ----- The bounded set allocator the bitmap implements.

  datatype Pool = Pool(max: nat, capacity: nat, live: set<nat>)

  /** The least number from i on that is not in the set. */
  function LowestFrom(live: set<nat>, i: nat): (r: nat)
    ensures r >= i && r !in live
    ensures forall k: nat :: i <= k < r ==> k in live
    decreases |live|
  {
    if i !in live then i
    else
      var r := LowestFrom(live - {i}, i + 1);
      assert forall k: nat :: i <= k < r ==> k in live by {
        forall k: nat | i <= k < r ensures k in live {
          assert k == i || k in live - {i};
        }
      }
      r
  }

  function Reserved(p: Pool, newCapacity: nat, commit: bool): (Pool, bool) {
    if p.capacity >= newCapacity then (p, true)
    else if p.capacity >= p.max || !commit then (p, false)
    else (p.(capacity := if newCapacity < p.max then newCapacity else p.max), true)
  }

  /** The lowest free index is taken, after growing the committed capacity when it lies outside. */
  function Allocated(p: Pool, commit: bool): (Pool, Option<nat>) {
    var index := LowestFrom(p.live, 0);
    var (grown, ok) :=
      if index < p.capacity then (p, true)
      else Reserved(p, if p.capacity * 2 > index + 1 then p.capacity * 2 else index + 1, commit);
    if ok then (grown.(live := p.live + {index}), Some(index)) else (grown, None)
  }

  function Freed(p: Pool, index: nat): (Pool, bool) {
    (p.(live := p.live - {index}), index in p.live)
  }

  ghost predicate PoolValid(p: Pool) {
    p.capacity <= p.max && forall i :: i in p.live ==> i < p.capacity
  }

  datatype Call = New(commit: bool) | Free(index: nat) | Reserve(newCapacity: nat, commit: bool)

  function Do(p: Pool, c: Call): Pool {
    match c
    case New(commit) => Allocated(p, commit).0
    case Free(index) => Freed(p, index).0
    case Reserve(n, commit) => Reserved(p, n, commit).0
  }

  function Run(max: nat, calls: seq<Call>): Pool {
    if calls == [] then Pool(max, if max < DEFAULT_CAPACITY then max else DEFAULT_CAPACITY, {})
    else Do(Run(max, calls[..|calls| - 1]), calls[|calls| - 1])
  }

  function Below(n: nat): (s: set<nat>)
    ensures |s| == n && forall i: nat :: i in s <==> i < n
  {
    if n == 0 then {} else Below(n - 1) + {n - 1}
  }

  lemma SubsetSize(a: set<nat>, b: set<nat>)
    requires a <= b
    ensures |a| <= |b| && (|a| == |b| ==> a == b)
  {
    assert b == a + (b - a);
  }

  /** Allocation takes the lowest free index, so that index never lies past the capacity. */
  lemma LowestFreeWithinCapacity(p: Pool)
    requires PoolValid(p)
    ensures LowestFrom(p.live, 0) <= p.capacity
    ensures LowestFrom(p.live, 0) == p.capacity <==> |p.live| == p.capacity
  {
    SubsetSize(p.live, Below(p.capacity));
    assert p.capacity !in p.live;
    if LowestFrom(p.live, 0) == p.capacity {
      assert p.live == Below(p.capacity);
    }
  }

  lemma AllocatedKeepsValid(p: Pool, commit: bool)
    requires PoolValid(p)
    ensures var p' := Allocated(p, commit).0; PoolValid(p') && p'.max == p.max && p'.capacity >= p.capacity
  {
    LowestFreeWithinCapacity(p);
  }

  lemma DoKeepsValid(p: Pool, c: Call)
    requires PoolValid(p)
    ensures PoolValid(Do(p, c)) && Do(p, c).max == p.max && Do(p, c).capacity >= p.capacity
  {
    match c
    case New(commit) => AllocatedKeepsValid(p, commit);
    case Free(_) =>
    case Reserve(_, _) =>
  }

  /**
  In every run live objects lie inside the committed capacity, which stays below the maximum. The next
  allocation fails exactly when the maximum is live or memory has to be committed and cannot be; otherwise it
  yields a fresh index inside the committed capacity.
  */
  lemma {:induction false} AllocationIsExact(max: nat, calls: seq<Call>, commit: bool)
    ensures var p := Run(max, calls);
      var (p', index) := Allocated(p, commit);
      && PoolValid(p) && p.max == max && |p.live| <= p.capacity
      && (index == None <==> |p.live| == max || (|p.live| == p.capacity && !commit))
      && (index == None ==> p' == p)
      && (index.Some? ==> index.value !in p.live && index.value < p'.capacity && p'.live == p.live + {index.value})
    decreases |calls|
  {
    if calls != [] {
      var before := calls[..|calls| - 1];
      AllocationIsExact(max, before, commit);
      DoKeepsValid(Run(max, before), calls[|calls| - 1]);
    }
    var p := Run(max, calls);
    LowestFreeWithinCapacity(p);
    SubsetSize(p.live, Below(p.capacity));
  }

  // ----- What is live, by the calls and their answers alone.

  /** What the i-th call answers, when it is an allocation that succeeds. */
  function Answer(max: nat, calls: seq<Call>, i: nat): Option<nat>
    requires i < |calls|
  {
    if calls[i].New? then Allocated(Run(max, calls[..i]), calls[i].commit).1 else None
  }

  /** Some call was answered with the index, and no later one frees it. */
  ghost predicate InUse(max: nat, calls: seq<Call>, index: nat) {
    exists i: nat :: i < |calls| && HeldSince(max, calls, index, i)
  }

  ghost predicate HeldSince(max: nat, calls: seq<Call>, index: nat, i: nat)
    requires i < |calls|
  {
    Answer(max, calls, i) == Some(index) && forall j :: i < j < |calls| ==> calls[j] != Free(index)
  }

  lemma HeldSnoc(max: nat, calls: seq<Call>, index: nat, i: nat)
    requires i < |calls| - 1
    ensures HeldSince(max, calls, index, i) <==>
            HeldSince(max, calls[..|calls| - 1], index, i) && calls[|calls| - 1] != Free(index)
  {
    var before := calls[..|calls| - 1];
    assert before[..i] == calls[..i] && calls[i] == before[i];
    assert forall j :: i < j < |before| ==> calls[j] == before[j];
  }

  lemma InUseSnoc(max: nat, calls: seq<Call>, index: nat)
    requires calls != []
    ensures var before, last := calls[..|calls| - 1], |calls| - 1;
      InUse(max, calls, index) <==>
      Answer(max, calls, last) == Some(index) || (InUse(max, before, index) && calls[last] != Free(index))
  {
    var before, last := calls[..|calls| - 1], |calls| - 1;
    assert HeldSince(max, calls, index, last) <==> Answer(max, calls, last) == Some(index);
    if InUse(max, before, index) && calls[last] != Free(index) {
      var i: nat :| i < |before| && HeldSince(max, before, index, i);
      HeldSnoc(max, calls, index, i);
    }
    if InUse(max, calls, index) && !HeldSince(max, calls, index, last) {
      var i: nat :| i < |calls| && HeldSince(max, calls, index, i);
      HeldSnoc(max, calls, index, i);
    }
  }

  lemma DoChangesLive(p: Pool, c: Call, index: nat)
    ensures index in Do(p, c).live <==>
            (c.New? && Allocated(p, c.commit).1 == Some(index)) || (index in p.live && c != Free(index))
  {
  }

  /** In every run the live objects are those handed out and not freed since. */
  lemma {:induction false} LiveIffInUse(max: nat, calls: seq<Call>, index: nat)
    ensures index in Run(max, calls).live <==> InUse(max, calls, index)
    decreases |calls|
  {
    if calls != [] {
      var before, last := calls[..|calls| - 1], |calls| - 1;
      LiveIffInUse(max, before, index);
      InUseSnoc(max, calls, index);
      DoChangesLive(Run(max, before), calls[last], index);
    }
  }

  lemma RunSnoc(max: nat, calls: seq<Call>, c: Call)
    ensures Run(max, calls + [c]) == Do(Run(max, calls), c)
  {
    assert (calls + [c])[..|calls|] == calls;
  }

  lemma AnswerSnoc(max: nat, calls: seq<Call>, commit: bool)
    ensures Answer(max, calls + [New(commit)], |calls|) == Allocated(Run(max, calls), commit).1
  {
    assert (calls + [New(commit)])[..|calls|] == calls;
  }

  /** With all the committed capacity live, a freed index is the very next answer, and nothing need be committed. */
  lemma FreedIndexIsReusedWhenFull(max: nat, calls: seq<Call>, index: nat, commit: bool)
    requires InUse(max, calls, index) && |Run(max, calls).live| == Run(max, calls).capacity
    ensures Answer(max, calls + [Free(index)] + [New(commit)], |calls| + 1) == Some(index)
    ensures Run(max, calls + [Free(index)] + [New(commit)]) == Run(max, calls)
  {
    LiveIffInUse(max, calls, index);
    AllocationIsExact(max, calls, false);
    RunSnoc(max, calls, Free(index));
    RunSnoc(max, calls + [Free(index)], New(commit));
    AnswerSnoc(max, calls + [Free(index)], commit);
    OnlyFreeIndex(Run(max, calls), index, commit);
  }

  lemma OnlyFreeIndex(p: Pool, index: nat, commit: bool)
    requires PoolValid(p) && index in p.live && |p.live| == p.capacity
    ensures Allocated(Do(p, Free(index)), commit) == (p, Some(index))
  {
    SubsetSize(p.live, Below(p.capacity));
    assert p.live - {index} + {index} == p.live;
    assert LowestFrom(p.live - {index}, 0) == index;
  }

  function Repeated(p: Pool, n: nat): Pool {
    if n == 0 then p else Do(Repeated(p, n - 1), New(false))
  }

  function News(n: nat): seq<Call> {
    if n == 0 then [] else News(n - 1) + [New(false)]
  }

  lemma {:induction false} RunNews(max: nat, calls: seq<Call>, n: nat)
    ensures Run(max, calls + News(n)) == Repeated(Run(max, calls), n)
  {
    if n == 0 {
      assert calls + [] == calls;
    } else {
      RunNews(max, calls, n - 1);
      assert calls + News(n) == calls + News(n - 1) + [New(false)];
      RunSnoc(max, calls + News(n - 1), New(false));
    }
  }

  lemma {:induction false} RepeatedFront(p: Pool, n: nat)
    ensures Repeated(Do(p, New(false)), n) == Repeated(p, n + 1)
  {
    if n > 0 {
      RepeatedFront(p, n - 1);
    }
  }

  /** Enough allocations reach a free committed index, and none of them commits memory. */
  lemma {:induction false} FreeIndexIsReached(p: Pool, index: nat) returns (n: nat)
    requires PoolValid(p) && index < p.capacity && index !in p.live
    ensures Allocated(Repeated(p, n), false).1 == Some(index)
    decreases index - LowestFrom(p.live, 0)
  {
    var lowest := LowestFrom(p.live, 0);
    if lowest == index {
      n := 0;
    } else {
      assert lowest < index;
      var p' := Do(p, New(false));
      assert p' == p.(live := p.live + {lowest});
      LowestLies(p'.live, lowest, index);
      n := FreeIndexIsReached(p', index);
      RepeatedFront(p, n);
      n := n + 1;
    }
  }

  lemma LowestLies(live: set<nat>, lowest: nat, index: nat)
    requires index !in live && forall k: nat :: k <= lowest ==> k in live
    ensures lowest < LowestFrom(live, 0) <= index
  {
    var next := LowestFrom(live, 0);
    assert next !in live && !(index < next);
  }

  /** An object that is freed can be had again, whatever else is live. */
  lemma FreedIndexComesBack(max: nat, calls: seq<Call>, index: nat) returns (n: nat)
    requires InUse(max, calls, index)
    ensures var before := calls + [Free(index)] + News(n);
      Answer(max, before + [New(false)], |before|) == Some(index)
  {
    LiveIffInUse(max, calls, index);
    AllocationIsExact(max, calls, false);
    RunSnoc(max, calls, Free(index));
    n := FreeIndexIsReached(Do(Run(max, calls), Free(index)), index);
    RunNews(max, calls + [Free(index)], n);
    AnswerSnoc(max, calls + [Free(index)] + News(n), false);
  }

  // ----- How the committed capacity grows.

  /** A reservation commits as asked, within the maximum, or changes nothing. */
  lemma ReservationIsExact(p: Pool, n: nat, commit: bool)
    requires PoolValid(p)
    ensures var (p', ok) := Reserved(p, n, commit);
      && (ok <==> n <= p.capacity || (commit && p.capacity < p.max))
      && (ok ==> p'.capacity >= n || p'.capacity == p.max)
      && (p'.capacity == p.capacity || (p.capacity < p'.capacity <= n && p'.capacity <= p.max))
      && p'.live == p.live && p'.max == p.max && (!ok ==> p' == p)
  {
  }

  /** How often the allocations of a run had to commit memory. */
  function Growths(max: nat, calls: seq<Call>): nat {
    if calls == [] then 0
    else
      var before := calls[..|calls| - 1];
      Growths(max, before) + if Run(max, calls).capacity > Run(max, before).capacity then 1 else 0
  }

  ghost predicate NeverReserves(calls: seq<Call>) {
    forall c :: c in calls ==> !c.Reserve?
  }

  /** The committed capacity starts at 512 and doubles, up to the maximum; so n objects need about log n commits. */
  lemma {:induction false} CapacityDoubles(max: nat, calls: seq<Call>)
    requires NeverReserves(calls)
    ensures var full := 512 * Pow2(Growths(max, calls));
      Run(max, calls).capacity == if full < max then full else max
    decreases |calls|
  {
    if calls != [] {
      var before, c := calls[..|calls| - 1], calls[|calls| - 1];
      assert forall x :: x in before ==> x in calls;
      CapacityDoubles(max, before);
      AllocationIsExact(max, before, false);
      assert c in calls;
      StepDoubles(Run(max, before), c, Pow2(Growths(max, before)));
    }
  }

  lemma StepDoubles(p: Pool, c: Call, g: nat)
    requires PoolValid(p) && !c.Reserve? && g > 0 && p.capacity == if 512 * g < p.max then 512 * g else p.max
    ensures var capacity := Do(p, c).capacity;
      || capacity == p.capacity
      || (capacity > p.capacity && capacity == if 512 * (2 * g) < p.max then 512 * (2 * g) else p.max)
  {
    LowestFreeWithinCapacity(p);
  }

  // ----- The code, over the bitmap.

  /** Bit index of the words in order. */
  ghost predicate IsFree(words: seq<Word>, index: nat)
    requires index < WORD_BITS * |words|
  {
    Bit(words[index / WORD_BITS], index % WORD_BITS)
  }

  ghost predicate Represents(words: seq<Word>, p: Pool) {
    && |words| == 1 + p.max / WORD_BITS
    && (forall i :: 0 <= i < WORD_BITS * |words| ==> (IsFree(words, i) <==> i !in p.live))
  }

  class Bitmap {
    const maxCapacity: nat
    const words: array<Word>
    var capacity: nat
    ghost var live: set<nat>

    ghost predicate Valid()
      reads this, words
    {
      PoolValid(View()) && Represents(words[..], View()) && maxCapacity < INVALID_INDEX - WORD_BITS
    }

    ghost function View(): Pool
      reads this
    {
      Pool(maxCapacity, capacity, live)
    }

    constructor (max: nat)
      requires max < INVALID_INDEX - WORD_BITS
      ensures Valid() && fresh(words) && View() == Run(max, [])
    {
      maxCapacity := max;
      capacity := if DEFAULT_CAPACITY < max then DEFAULT_CAPACITY else max;
      live := {};
      words := new Word[1 + max / WORD_BITS](_ => ALL_ONES);
      new;
      WordRange();
      forall i | 0 <= i < WORD_BITS * words.Length ensures IsFree(words[..], i) {
        OnesHaveAllBits(WORD_BITS, i % WORD_BITS);
      }
    }

    method Reserve(newCapacity: nat, commit: bool) returns (ok: bool)
      requires Valid()
      modifies this`capacity
      ensures Valid() && (View(), ok) == Reserved(old(View()), newCapacity, commit)
      ensures ok <==> newCapacity <= old(capacity) || (commit && old(capacity) < maxCapacity)
      ensures live == old(live) && (ok ==> capacity >= newCapacity || capacity == maxCapacity)
    {
      if capacity >= newCapacity {
        return true;
      }
      if capacity >= maxCapacity {
        return false;
      }
      var wanted := if newCapacity < maxCapacity then newCapacity else maxCapacity;
      if commit {
        capacity := wanted;
        return true;
      }
      ok := false;
    }

    /** Scans the words for the first one with a set bit. */
    method GetFreeObjectIndex() returns (index: nat)
      requires Valid()
      ensures index == LowestFrom(live, 0) && index <= capacity
    {
      WordRange();
      LowestFreeWithinCapacity(View());
      ghost var lowest := LowestFrom(live, 0);
      var i := 0;
      while i < words.Length
        invariant 0 <= i <= words.Length && i * WORD_BITS <= lowest
      {
        var mask := words[i];
        if mask != 0 {
          ScanFindsLowestBit(mask, WORD_BITS);
          index := i * WORD_BITS + ScanForward(mask);
          FirstSetBitIsLowest(words[..], View(), i);
          return;
        }
        forall k | i * WORD_BITS <= k < (i + 1) * WORD_BITS ensures k in live {
          ZeroHasNoBits(k % WORD_BITS);
          assert !IsFree(words[..], k);
        }
        i := i + 1;
      }
      // Some bit at or below the maximum is always set.
      assert false;
      index := INVALID_INDEX;
    }

    static lemma FirstSetBitIsLowest(words: seq<Word>, p: Pool, i: nat)
      requires Represents(words, p) && i < |words| && words[i] != 0
      requires i * WORD_BITS <= LowestFrom(p.live, 0)
      ensures LowestFrom(p.live, 0) == i * WORD_BITS + ScanForward(words[i])
    {
      WordRange();
      ScanFindsLowestBit(words[i], WORD_BITS);
      var index := i * WORD_BITS + ScanForward(words[i]);
      assert index / WORD_BITS == i && index % WORD_BITS == ScanForward(words[i]);
      assert IsFree(words, index);
      forall k | i * WORD_BITS <= k < index ensures k in p.live {
        assert k / WORD_BITS == i && k % WORD_BITS == k - i * WORD_BITS;
        assert !IsFree(words, k);
      }
    }

    method NewObject(commit: bool) returns (index: Option<nat>)
      requires Valid()
      modifies this, words
      ensures Valid() && (View(), index) == Allocated(old(View()), commit)
      ensures index.None? ==> View() == old(View())
      ensures index.Some? ==> index.value !in old(live) && live == old(live) + {index.value} && index.value < capacity
    {
      var free := GetFreeObjectIndex();
      if free >= capacity {
        var ok := Reserve(if capacity * 2 > free + 1 then capacity * 2 else free + 1, commit);
        if !ok {
          return None;
        }
      }
      TransitionToReady(free);
      index := Some(free);
    }

    method TransitionToReady(index: nat)
      requires Valid() && index < capacity
      modifies this`live, words
      ensures Valid() && live == old(live) + {index}
    {
      var w, b := index / WORD_BITS, index % WORD_BITS;
      ghost var before := words[..];
      words[w] := ClearBit(words[w], b);
      live := live + {index};
      forall k | 0 <= k < WORD_BITS * words.Length ensures IsFree(words[..], k) <==> k !in live {
        assert IsFree(before, k) <==> k !in old(live);
        if k / WORD_BITS == w {
          ClearBitAt(before[w], b, k % WORD_BITS);
        }
      }
    }

    /** Returns whether the object was in use. */
    method FreeObject(index: nat) returns (wasLive: bool)
      requires Valid() && index < WORD_BITS * words.Length
      modifies this`live, words
      ensures Valid() && (View(), wasLive) == Freed(old(View()), index)
      ensures live == old(live) - {index} && (wasLive <==> index in old(live)) && capacity == old(capacity)
    {
      var w, b := index / WORD_BITS, index % WORD_BITS;
      ghost var before := words[..];
      assert IsFree(before, index) <==> index !in live;
      var prevState := Bit(words[w], b);
      WordRange();
      SetBitBound(words[w], b, WORD_BITS);
      words[w] := SetBit(words[w], b);
      live := live - {index};
      wasLive := prevState == false;
      forall k | 0 <= k < WORD_BITS * words.Length ensures IsFree(words[..], k) <==> k !in live {
        assert IsFree(before, k) <==> k !in old(live);
        if k / WORD_BITS == w {
          SetBitAt(before[w], b, k % WORD_BITS);
        }
      }
    }
  }
}
