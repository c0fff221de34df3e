/** The "loop over records, skip some, push the rest" shape that every
    statement parser has, as a function over the input prefix. */
module Seqs {
  import opened Wrappers

  /** The records `f` keeps, mapped by `f`, in input order. Defined on the
      last element so that a loop over the input can keep
      `out == FilterMap(f, input[..k])` as its invariant. */
  function FilterMap<A, B>(f: A -> Option<B>, s: seq<A>): (r: seq<B>)
    ensures |r| <= |s|
  {
    if s == [] then []
    else FilterMap(f, s[..|s| - 1]) + (match f(s[|s| - 1]) case Some(b) => [b] case None => [])
  }

  /** `s.findIndex(p)`, with `|s|` standing for -1: the first index whose
      element satisfies `p`. */
  function FirstIndex<T>(p: T -> bool, s: seq<T>): (k: nat)
    ensures k <= |s|
    ensures k < |s| ==> p(s[k])
    ensures forall i :: 0 <= i < k ==> !p(s[i])
  {
    if s == [] then 0
    else if p(s[0]) then 0
    else 1 + FirstIndex(p, s[1..])
  }

  /** One more record: the loop step that keeps `out == FilterMap(f, s[..k])`. */
  lemma FilterMapStep<A, B>(f: A -> Option<B>, s: seq<A>, k: nat)
    requires k < |s|
    ensures FilterMap(f, s[..k + 1])
            == FilterMap(f, s[..k]) + (match f(s[k]) case Some(b) => [b] case None => [])
  {
    assert s[..k + 1][..k] == s[..k];
    assert s[..k + 1][k] == s[k];
  }

  /** One loop step of a filter-map: the kept value, if any, is appended. */
  lemma FilterMapPush<A, B>(f: A -> Option<B>, s: seq<A>, k: nat, acc: seq<B>)
    requires k < |s| && acc == FilterMap(f, s[..k])
    ensures f(s[k]).Some? ==> acc + [f(s[k]).value] == FilterMap(f, s[..k + 1])
    ensures f(s[k]).None? ==> acc == FilterMap(f, s[..k + 1])
  {
    FilterMapStep(f, s, k);
  }

  /** Filtering a concatenation filters each part: one result per kept record,
      in input order. */
  lemma {:induction false} FilterMapAppend<A, B>(f: A -> Option<B>, a: seq<A>, b: seq<A>)
    ensures FilterMap(f, a + b) == FilterMap(f, a) + FilterMap(f, b)
    decreases |b|
  {
    if b == [] {
      assert a + b == a;
    } else {
      var n := |b| - 1;
      assert (a + b)[..|a + b| - 1] == a + b[..n];
      assert (a + b)[|a + b| - 1] == b[n];
      FilterMapAppend(f, a, b[..n]);
    }
  }

  /** Every output comes from some input record that `f` keeps. */
  lemma {:induction false} FilterMapSource<A, B>(f: A -> Option<B>, s: seq<A>, k: nat)
    requires k < |FilterMap(f, s)|
    ensures exists i :: 0 <= i < |s| && f(s[i]) == Some(FilterMap(f, s)[k])
    decreases |s|
  {
    var n := |s| - 1;
    var prev := FilterMap(f, s[..n]);
    if k < |prev| {
      FilterMapSource(f, s[..n], k);
      var i :| 0 <= i < n && f(s[..n][i]) == Some(prev[k]);
      assert s[..n][i] == s[i];
    } else {
      assert f(s[n]) == Some(FilterMap(f, s)[k]);
    }
  }

  /** A record `f` keeps appears in the output. */
  lemma {:induction false} FilterMapKeeps<A, B>(f: A -> Option<B>, s: seq<A>, i: nat)
    requires i < |s| && f(s[i]).Some?
    ensures f(s[i]).value in FilterMap(f, s)
    decreases |s|
  {
    var n := |s| - 1;
    if i < n {
      FilterMapKeeps(f, s[..n], i);
      assert s[..n][i] == s[i];
    }
  }

  /** An element that satisfies `p` in front of elements that all do. */
  lemma AllCons<T>(p: T -> bool, m: T, rest: seq<T>)
    requires p(m) && forall k :: 0 <= k < |rest| ==> p(rest[k])
    ensures forall k :: 0 <= k < |[m] + rest| ==> p(([m] + rest)[k])
  {
    forall k | 0 <= k < |[m] + rest| ensures p(([m] + rest)[k]) {
      if k > 0 {
        assert ([m] + rest)[k] == rest[k - 1];
      }
    }
  }

  lemma AppendConsAssoc<T>(a: seq<T>, t: T, b: seq<T>)
    ensures a + ([t] + b) == (a + [t]) + b
  {
  }

  lemma EmptyAppend<T>(s: seq<T>)
    ensures [] + s == s
  {
  }

  /** A prefix grows by the next element. */
  lemma PrefixGrows<T>(s: seq<T>, prefix: seq<T>, e: T)
    requires |prefix| < |s| && prefix == s[..|prefix|] && e == s[|prefix|]
    ensures prefix + [e] == s[..|prefix| + 1]
  {
  }

  /** The first position in `[j, end)` whose element is not skipped and
      satisfies `p`. */
  function FirstWhere<T>(skip: T -> bool, p: T -> bool, s: seq<T>, j: nat, end: nat): (r: Option<nat>)
    requires end <= |s|
    ensures r.Some? ==> j <= r.value < end && p(s[r.value])
    decreases end - j
  {
    if j >= end then None
    else if skip(s[j]) then FirstWhere(skip, p, s, j + 1, end)
    else if p(s[j]) then Some(j)
    else FirstWhere(skip, p, s, j + 1, end)
  }

  /** When no skipped element satisfies `p`, skipping loses nothing: the
      result is the first position in `[j, end)` that satisfies `p`, and
      None means that none does. */
  lemma {:induction false} FirstWhereIsFirst<T>(skip: T -> bool, p: T -> bool, s: seq<T>, j: nat, end: nat)
    requires end <= |s| && forall t :: skip(t) ==> !p(t)
    ensures FirstWhere(skip, p, s, j, end).Some? ==>
              forall k :: j <= k < FirstWhere(skip, p, s, j, end).value ==> !p(s[k])
    ensures FirstWhere(skip, p, s, j, end).None? ==> forall k :: j <= k < end ==> !p(s[k])
    decreases end - j
  {
    if j < end {
      FirstWhereIsFirst(skip, p, s, j + 1, end);
    }
  }

  /** `[f(k), f(k + 1), ..., f(n - 1)]`. */
  function Tabulate<T>(f: nat -> T, k: nat, n: nat): (r: seq<T>)
    requires k <= n
    ensures |r| == n - k
    decreases n - k
  {
    if k == n then [] else [f(k)] + Tabulate(f, k + 1, n)
  }

  lemma {:induction false} TabulateAt<T>(f: nat -> T, k: nat, n: nat, i: nat)
    requires k <= i < n
    ensures Tabulate(f, k, n)[i - k] == f(i)
    decreases i - k
  {
    if k < i {
      TabulateAt(f, k + 1, n, i);
    }
  }
}
