/**
 * Order-preserving de-duplication of URL lists (`uniq`, written out identically in
 * content.js and in both service workers) and the sequence predicates used to
 * state what the filters do.
 */
module Lists {
  import opened Wrappers

  predicate NoDuplicates<T(==)>(s: seq<T>) {
    forall a, b :: 0 <= a < b < |s| ==> s[a] != s[b]
  }

  /** `a` is obtained from `b` by deleting elements. */
  predicate IsSubsequence<T(==)>(a: seq<T>, b: seq<T>)
    decreases |b|
  {
    if a == [] then true
    else if b == [] then false
    else if a[0] == b[0] then IsSubsequence(a[1..], b[1..])
    else IsSubsequence(a, b[1..])
  }

  lemma {:induction false} SubsequenceMembers<T>(a: seq<T>, b: seq<T>)
    requires IsSubsequence(a, b)
    ensures forall x :: x in a ==> x in b
    decreases |b|
  {
    if a != [] && b != [] {
      assert forall x :: x in a ==> x == a[0] || x in a[1..];
      assert forall x :: x in b[1..] ==> x in b;
      if a[0] == b[0] {
        SubsequenceMembers(a[1..], b[1..]);
      } else {
        SubsequenceMembers(a, b[1..]);
      }
    }
  }

  /** A JavaScript value an array element may hold: `null`/`undefined` or a string. */
  predicate Truthy(x: Option<string>) {
    x.Some? && x.value != ""
  }

  /** What `uniq` returns: the truthy items, each kept at its first occurrence. */
  function UniqSpec(xs: seq<Option<string>>): seq<string>
    decreases |xs|
  {
    if xs == [] then []
    else
      var prev := UniqSpec(xs[..|xs| - 1]);
      var x := xs[|xs| - 1];
      if Truthy(x) && x.value !in prev then prev + [x.value] else prev
  }

  /** `uniq(arr)`: a loop filling a Set of seen items and the output array. */
  method Uniq(xs: seq<Option<string>>) returns (out: seq<string>)
    ensures out == UniqSpec(xs)
  {
    var seen: set<string> := {};
    out := [];
    for i := 0 to |xs|
      invariant out == UniqSpec(xs[..i])
      invariant seen == set x | x in out
    {
      assert xs[..i + 1][..i] == xs[..i];
      var x := xs[i];
      if x.None? || x.value == "" {
        continue;
      }
      var k := x.value;
      if k in seen {
        continue;
      }
      seen := seen + {k};
      out := out + [k];
    }
    assert xs[..|xs|] == xs;
  }

  /** An item survives exactly when it is truthy somewhere in the input. */
  lemma {:induction false} UniqMembership(xs: seq<Option<string>>, v: string)
    ensures v in UniqSpec(xs) <==> v != "" && Some(v) in xs
    decreases |xs|
  {
    if xs != [] {
      var init := xs[..|xs| - 1];
      UniqMembership(init, v);
      assert xs == init + [xs[|xs| - 1]];
    }
  }

  lemma {:induction false} UniqNoDuplicates(xs: seq<Option<string>>)
    ensures NoDuplicates(UniqSpec(xs))
    decreases |xs|
  {
    if xs != [] {
      UniqNoDuplicates(xs[..|xs| - 1]);
    }
  }

  /** Position of the first occurrence of `v`. */
  function FirstIndex(xs: seq<Option<string>>, v: string): (k: nat)
    requires Some(v) in xs
    ensures k < |xs| && xs[k] == Some(v)
    ensures forall j :: 0 <= j < k ==> xs[j] != Some(v)
  {
    if xs[0] == Some(v) then 0 else 1 + FirstIndex(xs[1..], v)
  }

  lemma FirstIndexOfPrefix(xs: seq<Option<string>>, n: nat, v: string)
    requires n <= |xs| && Some(v) in xs[..n]
    ensures FirstIndex(xs[..n], v) == FirstIndex(xs, v)
  {
    var k := FirstIndex(xs[..n], v);
    var m := FirstIndex(xs, v);
    assert xs[..n][k] == xs[k];
  }

  lemma NewItemIndex(xs: seq<Option<string>>)
    requires xs != [] && Truthy(xs[|xs| - 1])
    requires xs[|xs| - 1].value !in UniqSpec(xs[..|xs| - 1])
    ensures FirstIndex(xs, xs[|xs| - 1].value) == |xs| - 1
  {
    var n := |xs| - 1;
    var v := xs[n].value;
    UniqMembership(xs[..n], v);
    assert forall j :: 0 <= j < n ==> xs[..n][j] == xs[j];
  }

  /** The output lists the items in the order of their first occurrence in the input. */
  lemma {:induction false} UniqFirstOccurrenceOrder(xs: seq<Option<string>>)
    ensures forall v :: v in UniqSpec(xs) ==> Some(v) in xs
    ensures forall a, b :: 0 <= a < b < |UniqSpec(xs)| ==>
      FirstIndex(xs, UniqSpec(xs)[a]) < FirstIndex(xs, UniqSpec(xs)[b])
    decreases |xs|
  {
    forall v | v in UniqSpec(xs) ensures Some(v) in xs {
      UniqMembership(xs, v);
    }
    if xs != [] {
      var n := |xs| - 1;
      var init := xs[..n];
      var prev := UniqSpec(init);
      UniqFirstOccurrenceOrder(init);
      var out := UniqSpec(xs);
      forall a, b | 0 <= a < b < |out|
        ensures FirstIndex(xs, out[a]) < FirstIndex(xs, out[b])
      {
        assert out[a] == prev[a];
        FirstIndexOfPrefix(xs, n, out[a]);
        if b < |prev| {
          assert out[b] == prev[b];
          FirstIndexOfPrefix(xs, n, out[b]);
        } else {
          NewItemIndex(xs);
        }
      }
    }
  }

  // ---- Array.prototype.filter ----

  /** The elements satisfying `p`, in order. */
  function Filter<T>(s: seq<T>, p: T -> bool): seq<T> {
    if s == [] then [] else (if p(s[0]) then [s[0]] else []) + Filter(s[1..], p)
  }

  lemma {:induction false} FilterSnoc<T>(s: seq<T>, x: T, p: T -> bool)
    ensures Filter(s + [x], p) == Filter(s, p) + (if p(x) then [x] else [])
  {
    if s == [] {
      assert [x][1..] == [];
    } else {
      assert (s + [x])[1..] == s[1..] + [x];
      FilterSnoc(s[1..], x, p);
    }
  }

  /** What `filter` keeps is a subsequence, and holds exactly the elements satisfying `p`. */
  lemma {:induction false} FilterIsSelection<T>(s: seq<T>, p: T -> bool)
    ensures IsSubsequence(Filter(s, p), s)
    ensures forall x :: x in Filter(s, p) <==> x in s && p(x)
  {
    if s != [] {
      FilterIsSelection(s[1..], p);
      assert forall x :: x in s <==> x == s[0] || x in s[1..];
      if p(s[0]) {
        assert Filter(s, p)[1..] == Filter(s[1..], p);
      } else {
        assert Filter(s, p) == Filter(s[1..], p);
        SubsequenceSkip(Filter(s, p), s);
      }
    }
  }

  /** A subsequence of the tail is a subsequence. */
  lemma {:induction false} SubsequenceSkip<T>(a: seq<T>, b: seq<T>)
    requires b != [] && IsSubsequence(a, b[1..])
    ensures IsSubsequence(a, b)
    decreases |b|, 0
  {
    if a != [] && a[0] == b[0] {
      SubsequenceTail(a, b[1..]);
    }
  }

  /** Dropping the head of a subsequence leaves a subsequence. */
  lemma {:induction false} SubsequenceTail<T>(a: seq<T>, b: seq<T>)
    requires a != [] && IsSubsequence(a, b)
    ensures IsSubsequence(a[1..], b)
    decreases |b|, 1
  {
    if a[0] == b[0] {
      SubsequenceSkip(a[1..], b);
    } else {
      SubsequenceTail(a, b[1..]);
      SubsequenceSkip(a[1..], b);
    }
  }

  /** Predicates that agree on the elements filter alike. */
  lemma {:induction false} FilterAgree<T>(s: seq<T>, p: T -> bool, q: T -> bool)
    requires forall k :: 0 <= k < |s| ==> p(s[k]) == q(s[k])
    ensures Filter(s, p) == Filter(s, q)
  {
    if s != [] {
      assert forall k :: 0 <= k < |s[1..]| ==> s[1..][k] == s[k + 1];
      FilterAgree(s[1..], p, q);
    }
  }

  /** `f` applied to each element and its index. */
  function MapIndexed<A, B>(xs: seq<A>, f: (nat, A) -> B): (r: seq<B>)
    ensures |r| == |xs| && forall k :: 0 <= k < |xs| ==> r[k] == f(k, xs[k])
  {
    seq(|xs|, k requires 0 <= k < |xs| => f(k, xs[k]))
  }

  lemma MapIndexedSnoc<A, B>(xs: seq<A>, x: A, f: (nat, A) -> B)
    ensures MapIndexed(xs + [x], f) == MapIndexed(xs, f) + [f(|xs|, x)]
  {
    var l := MapIndexed(xs + [x], f);
    var r := MapIndexed(xs, f) + [f(|xs|, x)];
    forall k | 0 <= k < |l| ensures l[k] == r[k] {
      if k < |xs| {
        assert (xs + [x])[k] == xs[k];
      }
    }
  }

  // ---- de-duplication by value ----

  /** Each element kept at its first occurrence, in order. */
  function Dedup<T(==,!new)>(xs: seq<T>): (r: seq<T>)
    ensures forall x :: x in r <==> x in xs
    decreases |xs|
  {
    assert |xs| > 0 ==> xs == xs[..|xs| - 1] + [xs[|xs| - 1]];
    if xs == [] then []
    else
      var prev := Dedup(xs[..|xs| - 1]);
      var x := xs[|xs| - 1];
      if x in prev then prev else prev + [x]
  }

  lemma DedupSnoc<T(!new)>(xs: seq<T>, x: T)
    ensures Dedup(xs + [x]) == if x in Dedup(xs) then Dedup(xs) else Dedup(xs) + [x]
  {
    assert (xs + [x])[..|xs|] == xs;
  }

  /** Position of the first occurrence of `x`. */
  function Position<T(==)>(xs: seq<T>, x: T): (k: nat)
    requires x in xs
    ensures k < |xs| && xs[k] == x
    ensures forall j :: 0 <= j < k ==> xs[j] != x
  {
    if xs[0] == x then 0 else 1 + Position(xs[1..], x)
  }

  lemma PositionOfPrefix<T>(xs: seq<T>, ys: seq<T>, x: T)
    requires x in xs
    ensures Position(xs + ys, x) == Position(xs, x)
  {
    var k := Position(xs, x);
    assert (xs + ys)[k] == xs[k];
  }

  lemma DedupElement<T(!new)>(xs: seq<T>, a: nat)
    requires a < |Dedup(xs)|
    ensures Dedup(xs)[a] in xs
  {
    assert Dedup(xs)[a] in Dedup(xs);
  }

  /**
   * The de-duplicated list holds each element once, in the order of the
   * elements' first occurrences.
   */
  lemma {:induction false} DedupIsFirstOccurrences<T(!new)>(xs: seq<T>)
    ensures NoDuplicates(Dedup(xs))
    ensures forall a, b :: 0 <= a < b < |Dedup(xs)| ==> Position(xs, Dedup(xs)[a]) < Position(xs, Dedup(xs)[b])
    decreases |xs|
  {
    if xs != [] {
      var n := |xs| - 1;
      var init := xs[..n];
      var x := xs[n];
      var prev := Dedup(init);
      DedupIsFirstOccurrences(init);
      assert xs == init + [x];
      var out := Dedup(xs);
      forall a, b | 0 <= a < b < |out|
        ensures Position(xs, out[a]) < Position(xs, out[b])
      {
        assert out[a] == prev[a];
        DedupElement(init, a);
        PositionOfPrefix(init, [x], out[a]);
        if b < |prev| {
          assert out[b] == prev[b];
          DedupElement(init, b);
          PositionOfPrefix(init, [x], out[b]);
        } else {
          assert x !in init;
        }
      }
    }
  }
}
