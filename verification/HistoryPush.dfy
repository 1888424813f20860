/**
Concurrent pushes into one half of the double buffer (mmocraft/util/double_buffering.h:18-28): fetch_add
reserves space, and a push that does not fit gives it back with a separate fetch_sub. No clear happens
during the pushes.
*/
module HistoryPush {
  import opened Wrappers
  import opened Bytes

  type Thread = nat

  /** A thread between its fetch_add and its copy or rollback. claim is its place in the log when it fits. */
  datatype Pusher = Idle | Reserved(before: nat, bytes: seq<Byte>, claim: nat)

  /** A push whose reservation fits, and where, in the order of the fetch_adds. */
  datatype Claim = Claim(at: nat, bytes: seq<Byte>, copied: bool)

  /** No step's guard reads the log of claims. */
  datatype State = State(buf: seq<Byte>, size: nat, pushers: map<Thread, Pusher>, claims: seq<Claim>)

  datatype Label =
    | FetchAdd(t: Thread, bytes: seq<Byte>)
    | Copy(t: Thread)
    | RollBack(t: Thread)

  function PusherOf(s: State, t: Thread): Pusher {
    if t in s.pushers then s.pushers[t] else Idle
  }

  function Init(capacity: nat): State {
    State(seq(capacity, _ => 0), 0, map[], [])
  }

  predicate Fits(s: State, p: Pusher)
    requires p.Reserved?
  {
    p.before + |p.bytes| <= |s.buf|
  }

  function Splice(buf: seq<Byte>, at: nat, bytes: seq<Byte>): (r: seq<Byte>)
    requires at + |bytes| <= |buf|
    ensures |r| == |buf|
  {
    buf[..at] + bytes + buf[at + |bytes|..]
  }

  function Step(s: State, l: Label): Option<State> {
    var p := PusherOf(s, l.t);
    match l
    case FetchAdd(t, bytes) =>
      if p.Idle? then
        var reserved := Reserved(s.size, bytes, |s.claims|);
        Some(s.(size := s.size + |bytes|, pushers := s.pushers[t := reserved],
                claims := if Fits(s, reserved) then s.claims + [Claim(s.size, bytes, false)] else s.claims))
      else None
    case Copy(t) =>
      if p.Reserved? && Fits(s, p) then
        Some(s.(buf := Splice(s.buf, p.before, p.bytes), pushers := s.pushers[t := Idle],
                claims := if p.claim < |s.claims| then s.claims[p.claim := s.claims[p.claim].(copied := true)]
                    else s.claims))
      else None
    case RollBack(t) =>
      if p.Reserved? && !Fits(s, p) then
        Some(s.(size := if |p.bytes| <= s.size then s.size - |p.bytes| else 0, pushers := s.pushers[t := Idle]))
      else None
  }

  function Exec(capacity: nat, run: seq<Label>): Option<State> {
    if run == [] then Some(Init(capacity))
    else match Exec(capacity, run[..|run| - 1])
      case None => None
      case Some(s) => Step(s, run[|run| - 1])
  }

  lemma ExecSnoc(capacity: nat, run: seq<Label>, l: Label)
    requires Exec(capacity, run).Some?
    ensures Exec(capacity, run + [l]) == Step(Exec(capacity, run).value, l)
  {
    assert (run + [l])[..|run|] == run;
  }

  // ----- Where the size goes: the claims, and what is still to be rolled back.

  function Total(claims: seq<Claim>): nat {
    if claims == [] then 0 else Total(claims[..|claims| - 1]) + |claims[|claims| - 1].bytes|
  }

  function PendingOf(s: State, t: Thread): nat {
    var p := PusherOf(s, t);
    if p.Reserved? && !Fits(s, p) then |p.bytes| else 0
  }

  /** The bytes the threads below n have reserved in vain and not yet given back. */
  function Pending(s: State, n: nat): nat {
    if n == 0 then 0 else Pending(s, n - 1) + PendingOf(s, n - 1)
  }

  ghost predicate ThreadsBelow(run: seq<Label>, n: nat) {
    forall l :: l in run ==> l.t < n
  }

  ghost predicate OnlyPusherChanges(s: State, s': State, t: Thread) {
    |s'.buf| == |s.buf| && forall u :: u != t ==> PusherOf(s', u) == PusherOf(s, u)
  }

  lemma {:induction false} PendingUpdate(s: State, s': State, t: Thread, n: nat)
    requires OnlyPusherChanges(s, s', t)
    ensures t >= n ==> Pending(s', n) == Pending(s, n)
    ensures t < n ==> Pending(s', n) + PendingOf(s, t) == Pending(s, n) + PendingOf(s', t)
    decreases n
  {
    if n > 0 {
      PendingUpdate(s, s', t, n - 1);
      if t != n - 1 {
        assert PusherOf(s', n - 1) == PusherOf(s, n - 1);
      }
    }
  }

  lemma {:induction false} PendingHasMember(s: State, n: nat) returns (t: Thread)
    requires Pending(s, n) > 0
    ensures t < n && 0 < PendingOf(s, t) <= Pending(s, n)
    decreases n
  {
    if PendingOf(s, n - 1) > 0 {
      t := n - 1;
    } else {
      t := PendingHasMember(s, n - 1);
    }
  }

  lemma {:induction false} PendingMember(s: State, n: nat, t: Thread)
    requires t < n
    ensures PendingOf(s, t) <= Pending(s, n)
    decreases n
  {
    if t < n - 1 {
      PendingMember(s, n - 1, t);
    }
  }

  lemma TotalSnoc(claims: seq<Claim>, c: Claim)
    ensures Total(claims + [c]) == Total(claims) + |c.bytes|
  {
    assert (claims + [c])[..|claims|] == claims;
  }

  lemma {:induction false} TotalOfCopied(claims: seq<Claim>, k: nat)
    requires k < |claims|
    ensures Total(claims[k := claims[k].(copied := true)]) == Total(claims)
    decreases |claims|
  {
    var last := |claims| - 1;
    var claims' := claims[k := claims[k].(copied := true)];
    if k == last {
      assert claims'[..last] == claims[..last];
    } else {
      assert claims'[..last] == claims[..last][k := claims[k].(copied := true)];
      TotalOfCopied(claims[..last], k);
    }
  }

  lemma StepKeepsSize(s: State, l: Label, s': State, n: nat)
    requires Step(s, l) == Some(s') && l.t < n && s.size == Total(s.claims) + Pending(s, n)
    ensures s'.size == Total(s'.claims) + Pending(s', n) && |s'.buf| == |s.buf|
  {
    PendingUpdate(s, s', l.t, n);
    match l
    case FetchAdd(t, bytes) =>
      FetchAddCounts(s, l, s');
    case Copy(t) =>
      CopyCounts(s, l, s');
    case RollBack(t) =>
      PendingMember(s, n, t);
  }

  lemma FetchAddCounts(s: State, l: Label, s': State)
    requires l.FetchAdd? && Step(s, l) == Some(s')
    ensures PendingOf(s, l.t) == 0 && s'.size == s.size + |l.bytes|
    ensures Total(s'.claims) + PendingOf(s', l.t) == Total(s.claims) + |l.bytes|
  {
    TotalSnoc(s.claims, Claim(s.size, l.bytes, false));
  }

  lemma CopyCounts(s: State, l: Label, s': State)
    requires l.Copy? && Step(s, l) == Some(s')
    ensures s'.size == s.size && Total(s'.claims) == Total(s.claims) && PendingOf(s, l.t) == PendingOf(s', l.t) == 0
  {
    var p := PusherOf(s, l.t);
    if p.claim < |s.claims| {
      TotalOfCopied(s.claims, p.claim);
    }
  }

  lemma {:induction false} NothingPending(s: State, n: nat)
    requires forall t :: PendingOf(s, t) == 0
    ensures Pending(s, n) == 0
    decreases n
  {
    if n > 0 {
      NothingPending(s, n - 1);
    }
  }

  /**
  For records of any sizes, in every interleaving, the size is what is claimed and what is still to be given back.
  */
  lemma {:induction false} SizeIsClaimedPlusPending(capacity: nat, run: seq<Label>, n: nat)
    requires ThreadsBelow(run, n) && Exec(capacity, run).Some?
    ensures var s := Exec(capacity, run).value;
      s.size == Total(s.claims) + Pending(s, n) && |s.buf| == capacity
    decreases |run|
  {
    if run == [] {
      NothingPending(Init(capacity), n);
    } else {
      var before, l := run[..|run| - 1], run[|run| - 1];
      assert forall x :: x in before ==> x in run;
      SizeIsClaimedPlusPending(capacity, before, n);
      StepKeepsSize(Exec(capacity, before).value, l, Exec(capacity, run).value, n);
    }
  }

  /** A push that fits is placed directly behind the records claimed so far exactly when nothing is to be given back. */
  lemma FittingPushLandsBehindIff(capacity: nat, run: seq<Label>, n: nat, t: Thread, bytes: seq<Byte>)
    requires ThreadsBelow(run, n) && Exec(capacity, run).Some?
    requires var s := Exec(capacity, run).value; PusherOf(s, t).Idle? && s.size + |bytes| <= capacity
    ensures var s := Exec(capacity, run).value;
      var s' := Step(s, FetchAdd(t, bytes)).value;
      && |s'.claims| == |s.claims| + 1
      && (s'.claims[|s.claims|].at == Total(s.claims) <==> Pending(s, n) == 0)
  {
    SizeIsClaimedPlusPending(capacity, run, n);
  }

  // ----- When records of given sizes can leave a hole.

  ghost predicate UsesSizes(run: seq<Label>, sizes: set<nat>) {
    forall l :: l in run && l.FetchAdd? ==> |l.bytes| in sizes
  }

  function Sum(parts: seq<nat>): nat {
    if parts == [] then 0 else Sum(parts[..|parts| - 1]) + parts[|parts| - 1]
  }

  /**
  Behind some records, one of size large does not fit, and yet two of sizes pending and late do: the first of
  these is then refused behind the large one, and the second is placed behind its reservation.
  */
  ghost predicate LeavesHole(capacity: nat, sizes: set<nat>, parts: seq<nat>, pending: nat, late: nat, large: nat) {
    && (forall x :: x in parts ==> x in sizes)
    && pending in sizes && late in sizes && large in sizes && pending > 0 && late > 0
    && Sum(parts) + pending + late <= capacity < Sum(parts) + large
  }

  ghost predicate CanLeaveHole(capacity: nat, sizes: set<nat>) {
    exists parts, pending, late, large :: LeavesHole(capacity, sizes, parts, pending, late, large)
  }

  /**
  With the largest record at most twice the smallest no capacity leaves a hole; so none is left with one record size.
  */
  lemma TwiceTheSmallestIsSafe(capacity: nat, sizes: set<nat>, smallest: nat)
    requires forall x :: x in sizes ==> smallest <= x <= 2 * smallest
    ensures !CanLeaveHole(capacity, sizes)
  {
  }

  /** Sizes are safe at every capacity exactly when no record is more than twice as large as another nonempty one. */
  lemma SafeAtEveryCapacityIff(sizes: set<nat>)
    ensures (forall capacity: nat :: !CanLeaveHole(capacity, sizes)) <==>
            forall a, b :: a in sizes && b in sizes && 0 < a ==> b <= 2 * a
  {
    forall a, b | a in sizes && b in sizes && 0 < a && b > 2 * a ensures CanLeaveHole(2 * a, sizes) {
      assert LeavesHole(2 * a, sizes, [], a, a, b);
    }
  }

  // ----- The invariant when no hole is possible.

  /** Every record begins where those before it end. An empty record may be anywhere. */
  ghost predicate GaplessAt(s: State, k: nat)
    requires k < |s.claims|
  {
    && s.claims[k].at + |s.claims[k].bytes| <= |s.buf|
    && (s.claims[k].bytes != [] ==> s.claims[k].at == Total(s.claims[..k]))
  }

  /** A reservation that fails leaves some size that does not fit behind the claims, for as long as there are claims. */
  ghost predicate Blocked(s: State, sizes: set<nat>) {
    exists large :: large in sizes && Total(s.claims) + large > |s.buf|
  }

  ghost predicate PusherOwnsClaim(s: State, sizes: set<nat>, t: Thread) {
    var p := PusherOf(s, t);
    p.Reserved? ==>
      && |p.bytes| in sizes
      && (Fits(s, p) ==> p.claim < |s.claims| && s.claims[p.claim] == Claim(p.before, p.bytes, false))
      && (!Fits(s, p) ==> Blocked(s, sizes))
  }

  ghost predicate PushersDiffer(s: State, t: Thread, u: Thread) {
    var p, q := PusherOf(s, t), PusherOf(s, u);
    t != u && p.Reserved? && q.Reserved? && Fits(s, p) && Fits(s, q) ==> p.claim != q.claim
  }

  ghost predicate HoldsClaim(s: State, t: Thread, k: nat) {
    PusherOf(s, t).Reserved? && Fits(s, PusherOf(s, t)) && PusherOf(s, t).claim == k
  }

  ghost predicate Stands(buf: seq<Byte>, at: nat, bytes: seq<Byte>) {
    at + |bytes| <= |buf| && buf[at..at + |bytes|] == bytes
  }

  /** A copied record stands in its place. A record not yet copied still has its pusher. */
  ghost predicate ClaimInPlace(s: State, k: nat)
    requires k < |s.claims|
  {
    && (s.claims[k].copied ==> Stands(s.buf, s.claims[k].at, s.claims[k].bytes))
    && (!s.claims[k].copied ==> exists t :: HoldsClaim(s, t, k))
  }

  ghost predicate Inv(s: State, sizes: set<nat>) {
    && Total(s.claims) <= |s.buf|
    && (forall c :: c in s.claims ==> |c.bytes| in sizes)
    && (forall k :: 0 <= k < |s.claims| ==> GaplessAt(s, k))
    && (forall t :: PusherOwnsClaim(s, sizes, t))
    && (forall t, u :: PushersDiffer(s, t, u))
    && (forall k :: 0 <= k < |s.claims| ==> ClaimInPlace(s, k))
  }

  function Sizes(claims: seq<Claim>): (parts: seq<nat>)
    ensures Sum(parts) == Total(claims)
    ensures forall x :: x in parts ==> exists c :: c in claims && x == |c.bytes|
  {
    if claims == [] then []
    else
      var parts := Sizes(claims[..|claims| - 1]) + [|claims[|claims| - 1].bytes|];
      assert parts[..|parts| - 1] == Sizes(claims[..|claims| - 1]);
      parts
  }

  /** Where no hole is possible, a nonempty reservation fits only when nothing is to be given back. */
  lemma NoHoleMeansNothingPending(s: State, sizes: set<nat>, n: nat, late: nat)
    requires Inv(s, sizes) && !CanLeaveHole(|s.buf|, sizes) && s.size == Total(s.claims) + Pending(s, n)
    requires late in sizes && late > 0 && s.size + late <= |s.buf|
    ensures Pending(s, n) == 0
  {
    if Pending(s, n) > 0 {
      var t := PendingHasMember(s, n);
      assert PusherOwnsClaim(s, sizes, t);
      var large :| large in sizes && Total(s.claims) + large > |s.buf|;
      assert LeavesHole(|s.buf|, sizes, Sizes(s.claims), PendingOf(s, t), late, large);
      assert false;
    }
  }

  lemma {:induction false} TotalMonotone(claims: seq<Claim>, i: nat, j: nat)
    requires i < j <= |claims|
    ensures Total(claims[..i]) + |claims[i].bytes| <= Total(claims[..j])
    decreases j
  {
    assert claims[..j][..j - 1] == claims[..j - 1];
    if i < j - 1 {
      TotalMonotone(claims, i, j - 1);
    }
  }

  lemma FetchAddKeepsClaims(s: State, sizes: set<nat>, n: nat, l: Label, s': State)
    requires Inv(s, sizes) && !CanLeaveHole(|s.buf|, sizes) && s.size == Total(s.claims) + Pending(s, n)
    requires l.FetchAdd? && |l.bytes| in sizes && Step(s, l) == Some(s')
    ensures Total(s.claims) <= Total(s'.claims) <= |s'.buf| == |s.buf|
    ensures forall c :: c in s'.claims ==> |c.bytes| in sizes
    ensures forall k :: 0 <= k < |s'.claims| ==> GaplessAt(s', k)
    ensures !Fits(s', PusherOf(s', l.t)) ==> Blocked(s', sizes)
  {
    var c := Claim(s.size, l.bytes, false);
    TotalSnoc(s.claims, c);
    if s.size + |l.bytes| <= |s.buf| {
      if l.bytes != [] {
        NoHoleMeansNothingPending(s, sizes, n, |l.bytes|);
      }
      forall k | 0 <= k < |s'.claims| ensures GaplessAt(s', k) {
        if k < |s.claims| {
          assert GaplessAt(s, k) && s'.claims[..k] == s.claims[..k];
        } else {
          assert s'.claims[..k] == s.claims;
        }
      }
    } else {
      forall k | 0 <= k < |s'.claims| ensures GaplessAt(s', k) {
        assert GaplessAt(s, k);
      }
      if Pending(s, n) > 0 {
        var t := PendingHasMember(s, n);
        assert PusherOwnsClaim(s, sizes, t) && Blocked(s, sizes);
        var large :| large in sizes && Total(s.claims) + large > |s.buf|;
        assert large in sizes && Total(s'.claims) + large > |s'.buf|;
      } else {
        assert |l.bytes| in sizes && Total(s'.claims) + |l.bytes| > |s'.buf|;
      }
    }
  }

  lemma BlockedStays(s: State, s': State, sizes: set<nat>)
    requires Blocked(s, sizes) && Total(s.claims) <= Total(s'.claims) && |s'.buf| == |s.buf|
    ensures Blocked(s', sizes)
  {
    var large :| large in sizes && Total(s.claims) + large > |s.buf|;
    assert large in sizes && Total(s'.claims) + large > |s'.buf|;
  }

  lemma FetchAddKeepsPusher(s: State, sizes: set<nat>, l: Label, s': State, t: Thread)
    requires l.FetchAdd? && |l.bytes| in sizes && Step(s, l) == Some(s') && PusherOwnsClaim(s, sizes, t)
    requires !Fits(s', PusherOf(s', l.t)) ==> Blocked(s', sizes)
    requires Total(s.claims) <= Total(s'.claims)
    ensures PusherOwnsClaim(s', sizes, t)
  {
    if t != l.t {
      assert PusherOf(s', t) == PusherOf(s, t);
      if PusherOf(s, t).Reserved? && !Fits(s, PusherOf(s, t)) {
        BlockedStays(s, s', sizes);
      }
    }
  }

  lemma FetchAddKeepsDifference(s: State, sizes: set<nat>, l: Label, s': State, t: Thread, u: Thread)
    requires l.FetchAdd? && Step(s, l) == Some(s') && PushersDiffer(s, t, u)
    requires PusherOwnsClaim(s, sizes, t) && PusherOwnsClaim(s, sizes, u)
    ensures PushersDiffer(s', t, u)
  {
    assert t != l.t ==> PusherOf(s', t) == PusherOf(s, t);
    assert u != l.t ==> PusherOf(s', u) == PusherOf(s, u);
  }

  lemma FetchAddKeepsPlace(s: State, l: Label, s': State, k: nat)
    requires l.FetchAdd? && Step(s, l) == Some(s') && k < |s'.claims|
    requires k < |s.claims| ==> ClaimInPlace(s, k)
    ensures ClaimInPlace(s', k)
  {
    if k < |s.claims| {
      if !s.claims[k].copied {
        var t :| HoldsClaim(s, t, k);
        assert HoldsClaim(s', t, k);
      }
    } else {
      assert HoldsClaim(s', l.t, k);
    }
  }

  lemma FetchAddKeeps(s: State, sizes: set<nat>, n: nat, l: Label, s': State)
    requires Inv(s, sizes) && !CanLeaveHole(|s.buf|, sizes) && s.size == Total(s.claims) + Pending(s, n)
    requires l.FetchAdd? && |l.bytes| in sizes && Step(s, l) == Some(s')
    ensures Inv(s', sizes)
  {
    FetchAddKeepsClaims(s, sizes, n, l, s');
    forall t ensures PusherOwnsClaim(s', sizes, t) {
      FetchAddKeepsPusher(s, sizes, l, s', t);
    }
    forall t, u ensures PushersDiffer(s', t, u) {
      FetchAddKeepsDifference(s, sizes, l, s', t, u);
    }
    forall k | 0 <= k < |s'.claims| ensures ClaimInPlace(s', k) {
      FetchAddKeepsPlace(s, l, s', k);
    }
  }

  lemma SpliceElsewhere(buf: seq<Byte>, at: nat, bytes: seq<Byte>, lo: nat, hi: nat)
    requires at + |bytes| <= |buf| && lo <= hi <= |buf| && (hi <= at || at + |bytes| <= lo)
    ensures Splice(buf, at, bytes)[lo..hi] == buf[lo..hi]
  {
    var spliced := Splice(buf, at, bytes);
    assert forall k :: lo <= k < hi ==> spliced[k] == buf[k];
  }

  /** A copy does not touch the place of another record. */
  lemma CopyElsewhere(s: State, i: nat, k: nat)
    requires i < |s.claims| && k < |s.claims| && i != k && GaplessAt(s, i) && GaplessAt(s, k)
    requires Stands(s.buf, s.claims[k].at, s.claims[k].bytes)
    ensures Stands(Splice(s.buf, s.claims[i].at, s.claims[i].bytes), s.claims[k].at, s.claims[k].bytes)
  {
    if i < k {
      TotalMonotone(s.claims, i, k);
    } else {
      TotalMonotone(s.claims, k, i);
    }
    var c, d := s.claims[i], s.claims[k];
    if c.bytes == [] {
      assert Splice(s.buf, c.at, c.bytes) == s.buf;
    } else if d.bytes != [] {
      SpliceElsewhere(s.buf, c.at, c.bytes, d.at, d.at + |d.bytes|);
    }
  }

  lemma CopyKeepsPushers(s: State, sizes: set<nat>, l: Label, s': State)
    requires Inv(s, sizes) && l.Copy? && Step(s, l) == Some(s')
    ensures Total(s'.claims) == Total(s.claims) && |s'.buf| == |s.buf| && |s'.claims| == |s.claims|
    ensures forall t :: PusherOwnsClaim(s', sizes, t)
    ensures forall t, u :: PushersDiffer(s', t, u)
  {
    var p := PusherOf(s, l.t);
    assert PusherOwnsClaim(s, sizes, l.t);
    TotalOfCopied(s.claims, p.claim);
    forall t ensures PusherOwnsClaim(s', sizes, t) {
      assert PusherOwnsClaim(s, sizes, t) && PushersDiffer(s, t, l.t);
      if t != l.t && PusherOf(s, t).Reserved? && !Fits(s, PusherOf(s, t)) {
        BlockedStays(s, s', sizes);
      }
    }
    forall t, u ensures PushersDiffer(s', t, u) {
      assert PushersDiffer(s, t, u);
    }
  }

  lemma {:induction false} TotalIgnoresCopied(claims: seq<Claim>, i: nat, k: nat)
    requires i < |claims| && k <= |claims|
    ensures Total(claims[i := claims[i].(copied := true)][..k]) == Total(claims[..k])
  {
    var claims' := claims[i := claims[i].(copied := true)];
    if i < k {
      assert claims'[..k] == claims[..k][i := claims[i].(copied := true)];
      TotalOfCopied(claims[..k], i);
    } else {
      assert claims'[..k] == claims[..k];
    }
  }

  lemma CopyKeeps(s: State, sizes: set<nat>, l: Label, s': State)
    requires Inv(s, sizes) && l.Copy? && Step(s, l) == Some(s')
    ensures Inv(s', sizes)
  {
    var p := PusherOf(s, l.t);
    assert PusherOwnsClaim(s, sizes, l.t);
    CopyKeepsPushers(s, sizes, l, s');
    forall k | 0 <= k < |s'.claims| ensures GaplessAt(s', k) {
      assert GaplessAt(s, k);
      TotalIgnoresCopied(s.claims, p.claim, k);
    }
    forall c | c in s'.claims ensures |c.bytes| in sizes {
      var k :| 0 <= k < |s'.claims| && s'.claims[k] == c;
      assert s.claims[k] in s.claims;
    }
    forall k | 0 <= k < |s'.claims| ensures ClaimInPlace(s', k) {
      assert ClaimInPlace(s, k);
      if k == p.claim {
        assert s'.buf[p.before..p.before + |p.bytes|] == p.bytes;
      } else if s.claims[k].copied {
        assert GaplessAt(s, k) && GaplessAt(s, p.claim);
        CopyElsewhere(s, p.claim, k);
      } else {
        var t :| HoldsClaim(s, t, k);
        assert HoldsClaim(s', t, k);
      }
    }
  }

  lemma RollBackKeeps(s: State, sizes: set<nat>, l: Label, s': State)
    requires Inv(s, sizes) && l.RollBack? && Step(s, l) == Some(s')
    ensures Inv(s', sizes)
  {
    forall k | 0 <= k < |s'.claims| ensures GaplessAt(s', k) {
      assert GaplessAt(s, k);
    }
    forall t ensures PusherOwnsClaim(s', sizes, t) {
      assert PusherOwnsClaim(s, sizes, t);
      if t != l.t && PusherOf(s, t).Reserved? && !Fits(s, PusherOf(s, t)) {
        BlockedStays(s, s', sizes);
      }
    }
    forall t, u ensures PushersDiffer(s', t, u) {
      assert PushersDiffer(s, t, u);
    }
    forall k | 0 <= k < |s'.claims| ensures ClaimInPlace(s', k) {
      assert ClaimInPlace(s, k);
      if !s.claims[k].copied {
        var t :| HoldsClaim(s, t, k);
        assert HoldsClaim(s', t, k);
      }
    }
  }

  lemma StepKeeps(s: State, sizes: set<nat>, n: nat, l: Label, s': State)
    requires Inv(s, sizes) && !CanLeaveHole(|s.buf|, sizes) && s.size == Total(s.claims) + Pending(s, n)
    requires Step(s, l) == Some(s') && (l.FetchAdd? ==> |l.bytes| in sizes)
    ensures Inv(s', sizes)
  {
    match l
    case FetchAdd(_, _) => FetchAddKeeps(s, sizes, n, l, s');
    case Copy(_) => CopyKeeps(s, sizes, l, s');
    case RollBack(_) => RollBackKeeps(s, sizes, l, s');
  }

  lemma {:induction false} InvHolds(capacity: nat, sizes: set<nat>, run: seq<Label>, n: nat)
    requires UsesSizes(run, sizes) && !CanLeaveHole(capacity, sizes) && ThreadsBelow(run, n)
        && Exec(capacity, run).Some?
    ensures Inv(Exec(capacity, run).value, sizes) && |Exec(capacity, run).value.buf| == capacity
    decreases |run|
  {
    if run != [] {
      var before, l := run[..|run| - 1], run[|run| - 1];
      assert forall x :: x in before ==> x in run;
      InvHolds(capacity, sizes, before, n);
      SizeIsClaimedPlusPending(capacity, before, n);
      StepKeeps(Exec(capacity, before).value, sizes, n, l, Exec(capacity, run).value);
    }
  }

  lemma {:induction false} ThreadBound(run: seq<Label>) returns (n: nat)
    ensures ThreadsBelow(run, n)
    decreases |run|
  {
    if run == [] {
      n := 0;
    } else {
      var last := run[|run| - 1];
      var m := ThreadBound(run[..|run| - 1]);
      n := if last.t < m then m else last.t + 1;
      forall l | l in run ensures l.t < n {
        assert l == last || l in run[..|run| - 1];
      }
    }
  }

  // ----- Main results where no hole is possible, over every interleaving.

  /** Successful pushes stand one directly behind the other, inside the buffer, in fetch_add order, once copied. */
  lemma PushesAreConsecutive(capacity: nat, sizes: set<nat>, run: seq<Label>, k: nat)
    requires UsesSizes(run, sizes) && !CanLeaveHole(capacity, sizes)
    requires Exec(capacity, run).Some? && k < |Exec(capacity, run).value.claims|
    ensures var s := Exec(capacity, run).value;
      var c := s.claims[k];
      && c.at + |c.bytes| <= capacity == |s.buf|
      && (c.bytes != [] ==> c.at == Total(s.claims[..k]))
      && (c.copied ==> s.buf[c.at..c.at + |c.bytes|] == c.bytes)
  {
    var n := ThreadBound(run);
    InvHolds(capacity, sizes, run, n);
    var s := Exec(capacity, run).value;
    assert GaplessAt(s, k) && ClaimInPlace(s, k);
  }

  ghost predicate Uniform(run: seq<Label>, unit: nat) {
    UsesSizes(run, {unit})
  }

  lemma {:induction false} TotalOfUniform(claims: seq<Claim>, unit: nat)
    requires forall c :: c in claims ==> |c.bytes| == unit
    ensures Total(claims) == unit * |claims|
    decreases |claims|
  {
    if claims == [] {
    } else {
      var n := |claims| - 1;
      TotalOfUniform(claims[..n], unit);
      assert claims[n] in claims;
      assert unit * (n + 1) == unit * n + unit;
    }
  }

  /** With one record size, the k-th successful push has slot k for itself. */
  lemma PushesOccupyConsecutiveSlots(capacity: nat, unit: nat, run: seq<Label>, k: nat)
    requires unit > 0 && Uniform(run, unit)
    requires Exec(capacity, run).Some? && k < |Exec(capacity, run).value.claims|
    ensures var s := Exec(capacity, run).value;
      && s.claims[k].at == unit * k && unit * k + unit <= capacity == |s.buf|
      && (s.claims[k].copied ==> s.buf[unit * k..unit * k + unit] == s.claims[k].bytes)
  {
    TwiceTheSmallestIsSafe(capacity, {unit}, unit);
    var n := ThreadBound(run);
    InvHolds(capacity, {unit}, run, n);
    PushesAreConsecutive(capacity, {unit}, run, k);
    var s := Exec(capacity, run).value;
    assert s.claims[k] in s.claims && |s.claims[k].bytes| in {unit};
    TotalOfUniform(s.claims[..k], unit);
  }

  /**
  With one record size, a push fails only when every slot is taken; a rollback still pending never lets another push
  in.
  */
  lemma PushFailsOnlyWhenFull(capacity: nat, unit: nat, run: seq<Label>, t: Thread)
    requires unit > 0 && Uniform(run, unit) && Exec(capacity, run).Some?
    requires PusherOf(Exec(capacity, run).value, t).Reserved?
    requires !Fits(Exec(capacity, run).value, PusherOf(Exec(capacity, run).value, t))
    ensures |Exec(capacity, run).value.claims| == capacity / unit
  {
    TwiceTheSmallestIsSafe(capacity, {unit}, unit);
    var n := ThreadBound(run);
    InvHolds(capacity, {unit}, run, n);
    var s := Exec(capacity, run).value;
    assert PusherOwnsClaim(s, {unit}, t);
    TotalOfUniform(s.claims, unit);
    QuotientIs(capacity, unit, |s.claims|);
  }

  lemma SlotsApart(unit: nat, r: nat, q: nat)
    requires r < q
    ensures unit * r + unit <= unit * q
  {
    var d := q - r - 1;
    assert unit * q == unit * r + unit * d + unit;
  }

  lemma QuotientIs(a: nat, unit: nat, q: nat)
    requires unit > 0 && unit * q <= a < unit * q + unit
    ensures a / unit == q
  {
    var r := a / unit;
    if r < q {
      SlotsApart(unit, r, q);
    } else if q < r {
      SlotsApart(unit, q, r);
    }
  }

  /** The records one after the other. */
  function ConcatClaims(claims: seq<Claim>): (r: seq<Byte>)
    ensures |r| == Total(claims)
  {
    if claims == [] then [] else ConcatClaims(claims[..|claims| - 1]) + claims[|claims| - 1].bytes
  }

  lemma {:induction false} ClaimsConcat(s: State, k: nat)
    requires k <= |s.claims| && Total(s.claims[..k]) <= |s.buf|
    requires forall i :: 0 <= i < |s.claims| ==> GaplessAt(s, i) && Stands(s.buf, s.claims[i].at, s.claims[i].bytes)
    ensures s.buf[..Total(s.claims[..k])] == ConcatClaims(s.claims[..k])
    decreases k
  {
    if k > 0 {
      assert s.claims[..k][..k - 1] == s.claims[..k - 1];
      ClaimsConcat(s, k - 1);
      var c, at := s.claims[k - 1], Total(s.claims[..k - 1]);
      assert GaplessAt(s, k - 1) && Stands(s.buf, c.at, c.bytes);
      assert s.buf[..at + |c.bytes|] == s.buf[..at] + s.buf[at..at + |c.bytes|];
    }
  }

  ghost predicate Quiet(s: State) {
    forall t :: PusherOf(s, t).Idle?
  }

  ghost predicate HoldsItsRecords(s: State) {
    s.size == Total(s.claims) <= |s.buf| && s.buf[..s.size] == ConcatClaims(s.claims)
  }

  lemma QuietIsComplete(s: State, sizes: set<nat>, n: nat)
    requires Inv(s, sizes) && Quiet(s)
    ensures Pending(s, n) == 0
    ensures forall k :: 0 <= k < |s.claims| ==> GaplessAt(s, k) && Stands(s.buf, s.claims[k].at, s.claims[k].bytes)
  {
    forall t ensures PendingOf(s, t) == 0 {
      assert PusherOf(s, t).Idle?;
    }
    NothingPending(s, n);
    forall k | 0 <= k < |s.claims| ensures GaplessAt(s, k) && Stands(s.buf, s.claims[k].at, s.claims[k].bytes) {
      forall t ensures !HoldsClaim(s, t, k) {
        assert PusherOf(s, t).Idle?;
      }
      assert GaplessAt(s, k) && ClaimInPlace(s, k);
    }
  }

  /** Once every push has returned, the size counts exactly the successes, and the buffer is their records in order. */
  lemma QuietBufferIsTheRecords(capacity: nat, sizes: set<nat>, run: seq<Label>)
    requires UsesSizes(run, sizes) && !CanLeaveHole(capacity, sizes)
    requires Exec(capacity, run).Some? && Quiet(Exec(capacity, run).value)
    ensures HoldsItsRecords(Exec(capacity, run).value)
  {
    var n := ThreadBound(run);
    InvHolds(capacity, sizes, run, n);
    SizeIsClaimedPlusPending(capacity, run, n);
    var s := Exec(capacity, run).value;
    QuietIsComplete(s, sizes, n);
    assert s.claims[..|s.claims|] == s.claims;
    ClaimsConcat(s, |s.claims|);
  }

  // ----- Where a hole is possible, some run leaves one.

  function Zeros(n: nat): (r: seq<Byte>)
    ensures |r| == n
  {
    seq(n, _ => 0)
  }

  function Ones(n: nat): (r: seq<Byte>)
    ensures |r| == n
  {
    seq(n, _ => 1)
  }

  /** A push that fits and meets nobody. */
  lemma LonePush(s: State, t: Thread, bytes: seq<Byte>) returns (s1: State, s2: State)
    requires Quiet(s) && s.size + |bytes| <= |s.buf|
    ensures Step(s, FetchAdd(t, bytes)) == Some(s1) && Step(s1, Copy(t)) == Some(s2)
    ensures Quiet(s2) && s2.size == s.size + |bytes| && s2.buf == Splice(s.buf, s.size, bytes)
    ensures Total(s2.claims) == Total(s.claims) + |bytes|
  {
    assert PusherOf(s, t).Idle?;
    var c := Claim(s.size, bytes, false);
    s1 := Step(s, FetchAdd(t, bytes)).value;
    s2 := Step(s1, Copy(t)).value;
    TotalSnoc(s.claims, c);
    TotalOfCopied(s1.claims, |s.claims|);
    forall u ensures PusherOf(s2, u).Idle? {
      assert PusherOf(s, u).Idle?;
    }
  }

  lemma TwoMore(capacity: nat, run: seq<Label>, a: Label, b: Label, s: State, s1: State, s2: State)
    requires Exec(capacity, run) == Some(s) && Step(s, a) == Some(s1) && Step(s1, b) == Some(s2)
    ensures Exec(capacity, run + [a, b]) == Some(s2)
  {
    ExecSnoc(capacity, run, a);
    ExecSnoc(capacity, run + [a], b);
    assert run + [a, b] == (run + [a]) + [b];
  }

  lemma ZerosStayZeros(capacity: nat, at: nat, n: nat)
    requires at + n <= capacity
    ensures Splice(Zeros(capacity), at, Zeros(n)) == Zeros(capacity)
  {
  }

  lemma UsesSizesConcat(run: seq<Label>, more: seq<Label>, sizes: set<nat>)
    requires UsesSizes(run, sizes) && UsesSizes(more, sizes)
    ensures UsesSizes(run + more, sizes)
  {
  }

  /** One thread pushes records of these sizes, all zero, one after the other. */
  lemma {:induction false} Filled(capacity: nat, sizes: set<nat>, parts: seq<nat>) returns (run: seq<Label>, s: State)
    requires (forall x :: x in parts ==> x in sizes) && Sum(parts) <= capacity
    ensures Exec(capacity, run) == Some(s) && UsesSizes(run, sizes)
    ensures s.size == Total(s.claims) == Sum(parts) && s.buf == Zeros(capacity) && Quiet(s)
    decreases |parts|
  {
    if parts == [] {
      run, s := [], Init(capacity);
    } else {
      var before, s0 := Filled(capacity, sizes, parts[..|parts| - 1]);
      var bytes := Zeros(parts[|parts| - 1]);
      var s1, s2 := LonePush(s0, 0, bytes);
      TwoMore(capacity, before, FetchAdd(0, bytes), Copy(0), s0, s1, s2);
      ZerosStayZeros(capacity, s0.size, |bytes|);
      UsesSizesConcat(before, [FetchAdd(0, bytes), Copy(0)], sizes);
      run, s := before + [FetchAdd(0, bytes), Copy(0)], s2;
    }
  }

  /** The large record and then the pending one are refused; the large one has rolled back. */
  lemma OneRollBackLeft(capacity: nat, sizes: set<nat>, parts: seq<nat>, pending: nat, late: nat, large: nat)
    returns (run: seq<Label>, s: State, before: nat)
    requires LeavesHole(capacity, sizes, parts, pending, late, large)
    ensures Exec(capacity, run) == Some(s) && UsesSizes(run, sizes)
    ensures Total(s.claims) == Sum(parts) && s.size == Sum(parts) + pending && s.buf == Zeros(capacity)
    ensures before + pending > capacity && PusherOf(s, 2) == Reserved(before, Zeros(pending), |s.claims|)
    ensures forall t :: t != 2 ==> PusherOf(s, t).Idle?
  {
    var s0;
    run, s0 := Filled(capacity, sizes, parts);
    ExecSnoc(capacity, run, FetchAdd(1, Zeros(large)));
    run := run + [FetchAdd(1, Zeros(large))];
    assert PusherOf(s0, 1).Idle? && PusherOf(s0, 2).Idle?;
    var s1 := Step(s0, FetchAdd(1, Zeros(large))).value;
    assert PusherOf(s1, 2) == PusherOf(s0, 2);
    ExecSnoc(capacity, run, FetchAdd(2, Zeros(pending)));
    run := run + [FetchAdd(2, Zeros(pending))];
    var s2 := Step(s1, FetchAdd(2, Zeros(pending))).value;
    assert PusherOf(s2, 1) == PusherOf(s1, 1);
    ExecSnoc(capacity, run, RollBack(1));
    run := run + [RollBack(1)];
    s := Step(s2, RollBack(1)).value;
    before := s1.size;
    assert PusherOf(s, 2) == PusherOf(s2, 2) == Reserved(before, Zeros(pending), |s.claims|);
    forall t | t != 2 ensures PusherOf(s, t).Idle? {
      assert PusherOf(s0, t).Idle?;
    }
  }

  /** The late push, from the reservation to the rollback of the one before it. */
  lemma LateSteps(s0: State, before: nat, pending: seq<Byte>, bytes: seq<Byte>)
      returns (s1: State, s2: State, s3: State)
    requires PusherOf(s0, 2) == Reserved(before, pending, |s0.claims|) && before + |pending| > |s0.buf|
    requires (forall t :: t != 2 ==> PusherOf(s0, t).Idle?) && s0.size + |bytes| <= |s0.buf| && |pending| <= s0.size
    ensures Step(s0, FetchAdd(3, bytes)) == Some(s1) && Step(s1, Copy(3)) == Some(s2)
        && Step(s2, RollBack(2)) == Some(s3)
    ensures s3.buf == Splice(s0.buf, s0.size, bytes) && s3.size == s0.size + |bytes| - |pending|
    ensures s3.claims == s0.claims + [Claim(s0.size, bytes, true)]
    ensures Quiet(s3)
  {
    assert PusherOf(s0, 3).Idle?;
    s1 := Step(s0, FetchAdd(3, bytes)).value;
    assert PusherOf(s1, 2) == PusherOf(s0, 2) && PusherOf(s1, 3) == Reserved(s0.size, bytes, |s0.claims|);
    s2 := Step(s1, Copy(3)).value;
    assert PusherOf(s2, 2) == PusherOf(s1, 2);
    s3 := Step(s2, RollBack(2)).value;
    forall t ensures PusherOf(s3, t).Idle? {
      assert t != 2 ==> PusherOf(s0, t).Idle?;
    }
  }

  lemma EndsInsideRecord(s: State, claims: seq<Claim>, late: seq<Byte>, c: Claim)
    requires s.claims == claims + [c] && c.bytes == late && late != [] && late[0] == 1
    requires Total(claims) < |s.buf| && s.buf[Total(claims)] == 0 && Total(claims) < s.size <= |s.buf|
    ensures !HoldsItsRecords(s)
  {
    assert s.claims[..|claims|] == claims;
    var concat := ConcatClaims(s.claims);
    assert concat == ConcatClaims(claims) + late;
    assert concat[Total(claims)] == 1;
    assert s.buf[..s.size][Total(claims)] == 0;
  }

  lemma LateRun(capacity: nat, sizes: set<nat>, run0: seq<Label>, s0: State, before: nat, pending: nat,
      bytes: seq<Byte>) returns (run: seq<Label>, s: State)
    requires Exec(capacity, run0) == Some(s0) && UsesSizes(run0, sizes) && |bytes| in sizes && |s0.buf| == capacity
    requires before + pending > capacity && PusherOf(s0, 2) == Reserved(before, Zeros(pending), |s0.claims|)
    requires (forall t :: t != 2 ==> PusherOf(s0, t).Idle?) && s0.size + |bytes| <= capacity && pending <= s0.size
    ensures Exec(capacity, run) == Some(s) && UsesSizes(run, sizes) && Quiet(s)
    ensures s.buf == Splice(s0.buf, s0.size, bytes) && s.size == s0.size + |bytes| - pending
    ensures s.claims == s0.claims + [Claim(s0.size, bytes, true)]
  {
    var s1, s2;
    s1, s2, s := LateSteps(s0, before, Zeros(pending), bytes);
    run := LateLabels(capacity, sizes, run0, bytes, s0, s1, s2, s);
  }

  lemma LateLabels(capacity: nat, sizes: set<nat>, run0: seq<Label>, bytes: seq<Byte>, s0: State, s1: State, s2: State,
      s3: State) returns (run: seq<Label>)
    requires Exec(capacity, run0) == Some(s0) && UsesSizes(run0, sizes) && |bytes| in sizes
    requires Step(s0, FetchAdd(3, bytes)) == Some(s1) && Step(s1, Copy(3)) == Some(s2)
        && Step(s2, RollBack(2)) == Some(s3)
    ensures Exec(capacity, run) == Some(s3) && UsesSizes(run, sizes)
  {
    TwoMore(capacity, run0, FetchAdd(3, bytes), Copy(3), s0, s1, s2);
    ExecSnoc(capacity, run0 + [FetchAdd(3, bytes), Copy(3)], RollBack(2));
    run := run0 + [FetchAdd(3, bytes), Copy(3)] + [RollBack(2)];
    UsesSizesConcat(run0, [FetchAdd(3, bytes), Copy(3)], sizes);
    UsesSizesConcat(run0 + [FetchAdd(3, bytes), Copy(3)], [RollBack(2)], sizes);
  }

  /** The late record is placed behind the reservation that is then given back: the buffer ends inside it. */
  lemma HoleIsLeft(capacity: nat, sizes: set<nat>, parts: seq<nat>, pending: nat, late: nat, large: nat)
    returns (run: seq<Label>)
    requires LeavesHole(capacity, sizes, parts, pending, late, large)
    ensures UsesSizes(run, sizes) && Exec(capacity, run).Some?
    ensures Quiet(Exec(capacity, run).value) && !HoldsItsRecords(Exec(capacity, run).value)
  {
    var run0, s0, before := OneRollBackLeft(capacity, sizes, parts, pending, late, large);
    var s;
    run, s := LateRun(capacity, sizes, run0, s0, before, pending, Ones(late));
    EndsInsideRecord(s, s0.claims, Ones(late), Claim(s0.size, Ones(late), true));
  }

  ghost predicate LeavesRecordsBroken(capacity: nat, sizes: set<nat>, run: seq<Label>) {
    UsesSizes(run, sizes) && Exec(capacity, run).Some? && Quiet(Exec(capacity, run).value)
        && !HoldsItsRecords(Exec(capacity, run).value)
  }

  /**
  Exactly: records of the given sizes can leave the buffer broken in some interleaving if and only if they can leave a
  hole.
  */
  lemma MixedSizesBreakIff(capacity: nat, sizes: set<nat>)
    ensures (exists run :: LeavesRecordsBroken(capacity, sizes, run)) <==> CanLeaveHole(capacity, sizes)
  {
    if CanLeaveHole(capacity, sizes) {
      var parts, pending, late, large :| LeavesHole(capacity, sizes, parts, pending, late, large);
      var run := HoleIsLeft(capacity, sizes, parts, pending, late, large);
      assert LeavesRecordsBroken(capacity, sizes, run);
    } else {
      forall run | LeavesRecordsBroken(capacity, sizes, run) ensures false {
        QuietBufferIsTheRecords(capacity, sizes, run);
      }
    }
  }
}
