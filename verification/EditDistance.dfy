/**
The edit-distance table and the similar-string search of the vendored argument parser
(mmocraft/config/argparse.h:549-591), proved against edit scripts: sequences of positional
insertions, deletions and substitutions.
*/
module EditDistance {
  import opened Wrappers

  // ----- The independent reference: scripts of single-element edits.

  datatype Edit<T> =
    | Insert(at: nat, item: T)
    | Delete(at: nat)
    | Substitute(at: nat, item: T)

  /** One edit; None when the position does not exist. */
  function Apply<T>(e: Edit<T>, s: seq<T>): Option<seq<T>> {
    match e
    case Insert(at, item) => if at <= |s| then Some(s[..at] + [item] + s[at..]) else None
    case Delete(at) => if at < |s| then Some(s[..at] + s[at + 1..]) else None
    case Substitute(at, item) => if at < |s| then Some(s[..at] + [item] + s[at + 1..]) else None
  }

  function RunScript<T>(script: seq<Edit<T>>, s: seq<T>): Option<seq<T>> {
    if script == [] then Some(s)
    else match Apply(script[0], s)
      case None => None
      case Some(next) => RunScript(script[1..], next)
  }

  ghost predicate Transforms<T>(script: seq<Edit<T>>, s: seq<T>, t: seq<T>) {
    RunScript(script, s) == Some(t)
  }

  // ----- The recurrence the table cells satisfy.

  function Min3(a: nat, b: nat, c: nat): (m: nat)
    ensures m <= a && m <= b && m <= c && (m == a || m == b || m == c)
  {
    if a <= b && a <= c then a else if b <= c then b else c
  }

  function Init<T>(s: seq<T>): seq<T>
    requires s != []
  {
    s[..|s| - 1]
  }

  function Last<T>(s: seq<T>): T
    requires s != []
  {
    s[|s| - 1]
  }

  function Distance<T(==)>(s: seq<T>, t: seq<T>): nat
    decreases |s| + |t|
  {
    if s == [] then |t|
    else if t == [] then |s|
    else if Last(s) == Last(t) then Distance(Init(s), Init(t))
    else 1 + Min3(Distance(Init(s), t), Distance(s, Init(t)), Distance(Init(s), Init(t)))
  }

  /** Distance by appending: the recurrence on s + [a] and t + [b]. */
  lemma DistanceSnoc<T>(s: seq<T>, a: T, t: seq<T>, b: T)
    ensures Distance(s + [a], t + [b]) ==
            if a == b then Distance(s, t)
            else 1 + Min3(Distance(s, t + [b]), Distance(s + [a], t), Distance(s, t))
  {
    assert Init(s + [a]) == s && Init(t + [b]) == t;
  }

  // ----- Every edit moves the distance by at most one.

  ghost predicate Close<T(!new)>(u: seq<T>, v: seq<T>) {
    forall t :: Distance(u, t) <= Distance(v, t) + 1 && Distance(v, t) <= Distance(u, t) + 1
  }

  lemma {:induction false} DropLastClose<T>(s: seq<T>, a: T, t: seq<T>)
    ensures Distance(s + [a], t) <= Distance(s, t) + 1
    ensures Distance(s, t) <= Distance(s + [a], t) + 1
    decreases |s| + |t|
  {
    if t == [] {
    } else {
      var t', b := Init(t), Last(t);
      assert t == t' + [b];
      DistanceSnoc(s, a, t', b);
      DropLastCloseRight(s, t', b);
      DropLastClose(s, a, t');
    }
  }

  lemma {:induction false} DropLastCloseRight<T>(s: seq<T>, t: seq<T>, b: T)
    ensures Distance(s, t + [b]) <= Distance(s, t) + 1
    ensures Distance(s, t) <= Distance(s, t + [b]) + 1
    decreases |s| + |t|
  {
    if s == [] {
    } else {
      var s', a := Init(s), Last(s);
      assert s == s' + [a];
      DistanceSnoc(s', a, t, b);
      DropLastClose(s', a, t);
      DropLastCloseRight(s', t, b);
    }
  }

  /** Closeness survives a common last element. */
  lemma {:induction false} CloseSnocAt<T(!new)>(u: seq<T>, v: seq<T>, x: T, t: seq<T>)
    requires Close(u, v)
    ensures Distance(u + [x], t) <= Distance(v + [x], t) + 1
    ensures Distance(v + [x], t) <= Distance(u + [x], t) + 1
    decreases |t|
  {
    if t == [] {
      assert Distance(u, []) <= Distance(v, []) + 1 && Distance(v, []) <= Distance(u, []) + 1;
    } else {
      var t', b := Init(t), Last(t);
      assert t == t' + [b];
      DistanceSnoc(u, x, t', b);
      DistanceSnoc(v, x, t', b);
      CloseSnocAt(u, v, x, t');
    }
  }

  lemma {:induction false} CloseAppend<T(!new)>(u: seq<T>, v: seq<T>, q: seq<T>)
    requires Close(u, v)
    ensures Close(u + q, v + q)
    decreases |q|
  {
    if q == [] {
      assert u + q == u && v + q == v;
    } else {
      CloseAppend(u, v, Init(q));
      forall t {
        CloseSnocAt(u + Init(q), v + Init(q), Last(q), t);
      }
      assert u + q == u + Init(q) + [Last(q)] && v + q == v + Init(q) + [Last(q)];
    }
  }

  lemma {:induction false} SubstituteLastClose<T>(p: seq<T>, c: T, d: T, t: seq<T>)
    ensures Distance(p + [c], t) <= Distance(p + [d], t) + 1
    decreases |t|
  {
    if t == [] {
    } else {
      var t', b := Init(t), Last(t);
      assert t == t' + [b];
      DistanceSnoc(p, c, t', b);
      DistanceSnoc(p, d, t', b);
      DropLastClose(p, c, t');
      DropLastClose(p, c, t);
      DropLastClose(p, d, t');
      DropLastCloseRight(p, t', b);
      SubstituteLastClose(p, c, d, t');
    }
  }

  lemma EditIsClose<T(!new)>(e: Edit<T>, s: seq<T>)
    requires Apply(e, s).Some?
    ensures Close(s, Apply(e, s).value)
  {
    var p := s[..e.at];
    match e {
      case Insert(at, item) =>
        forall t { DropLastClose(p, item, t); }
        assert Close(p, p + [item]);
        CloseAppend(p, p + [item], s[at..]);
        assert s == p + s[at..];
      case Delete(at) =>
        forall t { DropLastClose(p, s[at], t); }
        assert Close(p + [s[at]], p);
        CloseAppend(p + [s[at]], p, s[at + 1..]);
        assert s == p + [s[at]] + s[at + 1..];
      case Substitute(at, item) =>
        forall t
          ensures Distance(p + [s[at]], t) <= Distance(p + [item], t) + 1
          ensures Distance(p + [item], t) <= Distance(p + [s[at]], t) + 1
        {
          SubstituteLastClose(p, s[at], item, t);
          SubstituteLastClose(p, item, s[at], t);
        }
        assert Close(p + [s[at]], p + [item]);
        CloseAppend(p + [s[at]], p + [item], s[at + 1..]);
        assert s == p + [s[at]] + s[at + 1..];
    }
  }

  lemma {:induction false} DistanceToSelf<T>(s: seq<T>)
    ensures Distance(s, s) == 0
    decreases |s|
  {
    if s == [] {
    } else {
      DistanceToSelf(Init(s));
    }
  }

  // ----- The distance is the length of a shortest script.

  /** No script is shorter than the distance. */
  lemma {:induction false} ScriptIsNoShorter<T(!new)>(script: seq<Edit<T>>, s: seq<T>, t: seq<T>)
    requires Transforms(script, s, t)
    ensures Distance(s, t) <= |script|
    decreases |script|
  {
    if script == [] {
      DistanceToSelf(s);
    } else {
      var next := Apply(script[0], s).value;
      EditIsClose(script[0], s);
      ScriptIsNoShorter(script[1..], next, t);
    }
  }

  /** The same script works in front of a common last element. */
  lemma {:induction false} ScriptKeepsSuffix<T>(script: seq<Edit<T>>, s: seq<T>, t: seq<T>, x: T)
    requires Transforms(script, s, t)
    ensures Transforms(script, s + [x], t + [x])
    decreases |script|
  {
    if script == [] {
    } else {
      var e := script[0];
      var next := Apply(e, s).value;
      match e {
        case Insert(at, item) =>
          assert (s + [x])[..at] == s[..at] && (s + [x])[at..] == s[at..] + [x];
          assert Apply(e, s + [x]) == Some(s[..at] + [item] + (s[at..] + [x]));
          assert s[..at] + [item] + (s[at..] + [x]) == next + [x];
        case Delete(at) =>
          assert (s + [x])[..at] == s[..at] && (s + [x])[at + 1..] == s[at + 1..] + [x];
          assert s[..at] + (s[at + 1..] + [x]) == next + [x];
        case Substitute(at, item) =>
          assert (s + [x])[..at] == s[..at] && (s + [x])[at + 1..] == s[at + 1..] + [x];
          assert s[..at] + [item] + (s[at + 1..] + [x]) == next + [x];
      }
      assert Apply(e, s + [x]) == Some(next + [x]);
      ScriptKeepsSuffix(script[1..], next, t, x);
    }
  }

  lemma {:induction false} ScriptConcat<T>(first: seq<Edit<T>>, second: seq<Edit<T>>, s: seq<T>, t: seq<T>, u: seq<T>)
    requires Transforms(first, s, t) && Transforms(second, t, u)
    ensures Transforms(first + second, s, u)
    decreases |first|
  {
    if first == [] {
      assert first + second == second;
    } else {
      ScriptConcat(first[1..], second, Apply(first[0], s).value, t, u);
      assert (first + second)[1..] == first[1..] + second;
    }
  }

  /** One more edit at the end of a script. */
  lemma ScriptSnoc<T>(script: seq<Edit<T>>, e: Edit<T>, s: seq<T>, t: seq<T>)
    requires Transforms(script, s, t) && Apply(e, t).Some?
    ensures Transforms(script + [e], s, Apply(e, t).value)
  {
    assert RunScript([e], t) == RunScript([e][1..], Apply(e, t).value);
    ScriptConcat(script, [e], s, t, Apply(e, t).value);
  }

  lemma ThenInsert<T>(before: seq<Edit<T>>, s: seq<T>, t: seq<T>) returns (script: seq<Edit<T>>)
    requires t != [] && Transforms(before, s, Init(t))
    ensures Transforms(script, s, t) && |script| == |before| + 1
  {
    ScriptSnoc(before, Insert(|t| - 1, Last(t)), s, Init(t));
    assert Init(t)[..|t| - 1] + [Last(t)] + Init(t)[|t| - 1..] == t;
    script := before + [Insert(|t| - 1, Last(t))];
  }

  lemma ThenKeep<T>(before: seq<Edit<T>>, s: seq<T>, t: seq<T>)
    requires s != [] && t != [] && Last(s) == Last(t) && Transforms(before, Init(s), Init(t))
    ensures Transforms(before, s, t)
  {
    ScriptKeepsSuffix(before, Init(s), Init(t), Last(s));
    assert s == Init(s) + [Last(s)] && t == Init(t) + [Last(s)];
  }

  lemma ThenDelete<T>(before: seq<Edit<T>>, s: seq<T>, t: seq<T>) returns (script: seq<Edit<T>>)
    requires s != [] && Transforms(before, Init(s), t)
    ensures Transforms(script, s, t) && |script| == |before| + 1
  {
    ScriptKeepsSuffix(before, Init(s), t, Last(s));
    assert s == Init(s) + [Last(s)];
    ScriptSnoc(before, Delete(|t|), s, t + [Last(s)]);
    assert (t + [Last(s)])[..|t|] + (t + [Last(s)])[|t| + 1..] == t;
    script := before + [Delete(|t|)];
  }

  lemma ThenSubstitute<T>(before: seq<Edit<T>>, s: seq<T>, t: seq<T>) returns (script: seq<Edit<T>>)
    requires s != [] && t != [] && Transforms(before, Init(s), Init(t))
    ensures Transforms(script, s, t) && |script| == |before| + 1
  {
    var u := Init(t) + [Last(s)];
    ScriptKeepsSuffix(before, Init(s), Init(t), Last(s));
    assert s == Init(s) + [Last(s)];
    ScriptSnoc(before, Substitute(|t| - 1, Last(t)), s, u);
    assert u[..|t| - 1] + [Last(t)] + u[|t|..] == t;
    script := before + [Substitute(|t| - 1, Last(t))];
  }

  /** Some script is exactly as long as the distance. */
  lemma {:induction false} ShortestScript<T>(s: seq<T>, t: seq<T>) returns (script: seq<Edit<T>>)
    ensures Transforms(script, s, t) && |script| == Distance(s, t)
    decreases |s| + |t|
  {
    if s == [] && t == [] {
      script := [];
    } else if s == [] || (t != [] && Last(s) != Last(t) && Distance(s, t) == 1 + Distance(s, Init(t))) {
      script := ShortestScript(s, Init(t));
      script := ThenInsert(script, s, t);
    } else if t != [] && Last(s) == Last(t) {
      script := ShortestScript(Init(s), Init(t));
      ThenKeep(script, s, t);
    } else if t == [] || Distance(s, t) == 1 + Distance(Init(s), t) {
      script := ShortestScript(Init(s), t);
      script := ThenDelete(script, s, t);
    } else {
      script := ShortestScript(Init(s), Init(t));
      script := ThenSubstitute(script, s, t);
    }
  }

  /** The distance is the least length of a script from s to t. */
  lemma DistanceIsShortestScript<T(!new)>(s: seq<T>, t: seq<T>)
    ensures exists script :: Transforms(script, s, t) && |script| == Distance(s, t)
    ensures forall script :: Transforms(script, s, t) ==> Distance(s, t) <= |script|
  {
    var shortest := ShortestScript(s, t);
    forall script | Transforms(script, s, t) {
      ScriptIsNoShorter(script, s, t);
    }
  }

  // ----- Consequences: a metric.

  lemma {:induction false} DistanceSymmetric<T>(s: seq<T>, t: seq<T>)
    ensures Distance(s, t) == Distance(t, s)
    decreases |s| + |t|
  {
    if s == [] || t == [] {
    } else {
      DistanceSymmetric(Init(s), Init(t));
      DistanceSymmetric(Init(s), t);
      DistanceSymmetric(s, Init(t));
    }
  }

  lemma DistanceTriangle<T(!new)>(s: seq<T>, t: seq<T>, u: seq<T>)
    ensures Distance(s, u) <= Distance(s, t) + Distance(t, u)
  {
    var first := ShortestScript(s, t);
    var second := ShortestScript(t, u);
    ScriptConcat(first, second, s, t, u);
    ScriptIsNoShorter(first + second, s, u);
  }

  lemma {:induction false} DistanceZeroIffEqual<T(!new)>(s: seq<T>, t: seq<T>)
    ensures Distance(s, t) == 0 <==> s == t
  {
    var script := ShortestScript(s, t);
    DistanceToSelf(s);
  }

  // ----- The code.

  /** What the table holds at row i, column j. */
  ghost function Cell<T>(s1: seq<T>, s2: seq<T>, i: nat, j: nat): nat
    requires i <= |s1| && j <= |s2|
  {
    Distance(s1[..i], s2[..j])
  }

  lemma CellRecurrence<T>(s1: seq<T>, s2: seq<T>, i: nat, j: nat)
    requires i <= |s1| && j <= |s2|
    ensures Cell(s1, s2, i, j) ==
            if i == 0 then j
            else if j == 0 then i
            else if s1[i - 1] == s2[j - 1] then Cell(s1, s2, i - 1, j - 1)
            else 1 + Min3(Cell(s1, s2, i - 1, j), Cell(s1, s2, i, j - 1), Cell(s1, s2, i - 1, j - 1))
  {
    if i > 0 && j > 0 {
      assert s1[..i] == s1[..i - 1] + [s1[i - 1]] && s2[..j] == s2[..j - 1] + [s2[j - 1]];
      DistanceSnoc(s1[..i - 1], s1[i - 1], s2[..j - 1], s2[j - 1]);
    }
  }

  /** Every cell before row i, column j, in row order, holds the distance of its prefixes. */
  ghost predicate Filled<T>(dp: array2<nat>, s1: seq<T>, s2: seq<T>, i: nat, j: nat)
    requires dp.Length0 == |s1| + 1 && dp.Length1 == |s2| + 1
    reads dp
  {
    forall a, b :: 0 <= a <= |s1| && 0 <= b <= |s2| && (a < i || (a == i && b < j)) ==> dp[a, b] == Cell(s1, s2, a, b)
  }

  method GetLevenshteinDistance<T(==)>(s1: seq<T>, s2: seq<T>) returns (distance: nat)
    ensures distance == Distance(s1, s2)
  {
    var dp := new nat[|s1| + 1, |s2| + 1];
    for i := 0 to |s1| + 1
      invariant Filled(dp, s1, s2, i, 0)
    {
      for j := 0 to |s2| + 1
        invariant Filled(dp, s1, s2, i, j)
      {
        CellRecurrence(s1, s2, i, j);
        if i == 0 {
          dp[i, j] := j;
        } else if j == 0 {
          dp[i, j] := i;
        } else if s1[i - 1] == s2[j - 1] {
          dp[i, j] := dp[i - 1, j - 1];
        } else {
          dp[i, j] := 1 + Min3(dp[i - 1, j], dp[i, j - 1], dp[i - 1, j - 1]);
        }
      }
    }
    assert s1[..|s1|] == s1 && s2[..|s2|] == s2;
    assert dp[|s1|, |s2|] == Cell(s1, s2, |s1|, |s2|);
    distance := dp[|s1|, |s2|];
  }

  // std::numeric_limits<std::size_t>::max(), the initial minimum of the search.
  const SIZE_MAX: nat := 0xFFFF_FFFF_FFFF_FFFF

  lemma {:induction false} DistanceBound<T>(s: seq<T>, t: seq<T>)
    ensures Distance(s, t) <= |s| + |t|
    decreases |s| + |t|
  {
    if s == [] || t == [] {
    } else {
      DistanceBound(Init(s), Init(t));
      DistanceBound(Init(s), t);
    }
  }

  /** The key at k is at the least distance from the input, and no earlier key is. */
  ghost predicate IsFirstNearest(keys: seq<string>, input: string, k: nat)
    requires k < |keys|
  {
    && (forall m :: 0 <= m < |keys| ==> Distance(keys[k], input) <= Distance(keys[m], input))
    && (forall m :: 0 <= m < k ==> Distance(keys[k], input) < Distance(keys[m], input))
  }

  /**
  The keys of the std::map, in iteration order. The search keeps the first key at the least distance,
  and the empty string when there is no key. String lengths fit in memory, hence below half of SIZE_MAX.
  */
  method GetMostSimilarString(keys: seq<string>, input: string) returns (mostSimilar: string)
    requires |input| < SIZE_MAX / 2 && forall k :: 0 <= k < |keys| ==> |keys[k]| < SIZE_MAX / 2
    ensures keys == [] ==> mostSimilar == ""
    ensures keys != [] ==> exists k :: 0 <= k < |keys| && mostSimilar == keys[k] && IsFirstNearest(keys, input, k)
  {
    mostSimilar := "";
    var minDistance := SIZE_MAX;
    ghost var best := 0;
    for n := 0 to |keys|
      invariant n == 0 ==> mostSimilar == "" && minDistance == SIZE_MAX
      invariant n > 0 ==> 0 <= best < n && mostSimilar == keys[best] && minDistance == Distance(keys[best], input)
      invariant forall m :: 0 <= m < n ==> minDistance <= Distance(keys[m], input)
      invariant forall m :: 0 <= m < best && m < n ==> minDistance < Distance(keys[m], input)
    {
      var distance := GetLevenshteinDistance(keys[n], input);
      DistanceBound(keys[n], input);
      if distance < minDistance {
        minDistance := distance;
        mostSimilar := keys[n];
        best := n;
      }
    }
  }
}
