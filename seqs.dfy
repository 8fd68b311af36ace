/** Sequence helpers standing in for Java streams (`filter`, `map`) and for the
    primary-key order in which the repositories list a table. */
module Seqs {

  /** `stream().filter(p).toList()`. */
  function Filter<T(==)>(s: seq<T>, p: T -> bool): (r: seq<T>)
    ensures |r| <= |s|
    ensures forall i :: 0 <= i < |r| ==> p(r[i]) && r[i] in s
    ensures forall i :: 0 <= i < |s| && p(s[i]) ==> s[i] in r
  {
    if s == [] then []
    else if p(s[0]) then [s[0]] + Filter(s[1..], p)
    else Filter(s[1..], p)
  }

  /** `a` is `b` with some elements removed, the rest kept in order. */
  predicate IsSubsequence<T(==)>(a: seq<T>, b: seq<T>)
  {
    if a == [] then true
    else if b == [] then false
    else if a[0] == b[0] then IsSubsequence(a[1..], b[1..])
    else IsSubsequence(a, b[1..])
  }

  /** Two predicates that agree everywhere filter alike. */
  lemma {:induction false} FilterSame<T>(s: seq<T>, p: T -> bool, q: T -> bool)
    requires forall x :: p(x) == q(x)
    ensures Filter(s, p) == Filter(s, q)
  {
    if s != [] {
      FilterSame(s[1..], p, q);
    }
  }

  /** Filtering keeps the relative order of the kept elements. */
  lemma {:induction false} FilterIsSubsequence<T>(s: seq<T>, p: T -> bool)
    ensures IsSubsequence(Filter(s, p), s)
  {
    if s != [] {
      FilterIsSubsequence(s[1..], p);
      if p(s[0]) {
        assert Filter(s, p)[1..] == Filter(s[1..], p);
      } else {
        SubsequenceOfTail(Filter(s, p), s);
      }
    }
  }

  lemma {:induction false} SubsequenceOfTail<T>(a: seq<T>, b: seq<T>)
    requires b != [] && IsSubsequence(a, b[1..])
    ensures IsSubsequence(a, b)
  {
    if a != [] && a[0] == b[0] {
      SubsequenceDropHead(a, b[1..]);
    }
  }

  lemma {:induction false} SubsequenceDropHead<T>(a: seq<T>, b: seq<T>)
    requires a != [] && IsSubsequence(a, b)
    ensures IsSubsequence(a[1..], b)
  {
    if b != [] {
      if a[0] == b[0] {
        SubsequenceOfTail(a[1..], b);
      } else {
        SubsequenceDropHead(a, b[1..]);
        SubsequenceOfTail(a[1..], b);
      }
    }
  }

  lemma {:induction false} SubsequenceTrans<T>(a: seq<T>, b: seq<T>, c: seq<T>)
    requires IsSubsequence(a, b) && IsSubsequence(b, c)
    ensures IsSubsequence(a, c)
    decreases |c|
  {
    if a != [] {
      if b[0] == c[0] {
        if a[0] == b[0] {
          SubsequenceTrans(a[1..], b[1..], c[1..]);
        } else {
          SubsequenceTrans(a, b[1..], c[1..]);
          SubsequenceOfTail(a, c);
        }
      } else {
        SubsequenceTrans(a, b, c[1..]);
        SubsequenceOfTail(a, c);
      }
    }
  }

  /** Two filters in a row keep exactly the elements passing both, in order. */
  lemma FilterFilter<T>(s: seq<T>, p: T -> bool, q: T -> bool)
    ensures var r := Filter(Filter(s, p), q);
      && (forall i :: 0 <= i < |s| && p(s[i]) && q(s[i]) ==> s[i] in r)
      && (forall i :: 0 <= i < |r| ==> r[i] in s && p(r[i]) && q(r[i]))
      && IsSubsequence(r, s)
  {
    var f := Filter(s, p);
    var r := Filter(f, q);
    forall i | 0 <= i < |s| && p(s[i]) && q(s[i])
      ensures s[i] in r
    {
      var j :| 0 <= j < |f| && f[j] == s[i];
    }
    forall i | 0 <= i < |r|
      ensures r[i] in s && p(r[i])
    {
      var j :| 0 <= j < |f| && f[j] == r[i];
    }
    FilterIsSubsequence(s, p);
    FilterIsSubsequence(f, q);
    SubsequenceTrans(r, f, s);
  }

  /** `stream().map(f).toList()`. */
  function Map<T, U>(s: seq<T>, f: T -> U): (r: seq<U>)
    ensures |r| == |s| && forall i :: 0 <= i < |s| ==> r[i] == f(s[i])
  {
    seq(|s|, i requires 0 <= i < |s| => f(s[i]))
  }

  /** The rows of `m` with keys below `n`, in increasing key order: how `findAll`
      lists a table whose identities are all below the next identity to be issued. */
  function Listing<V>(m: map<nat, V>, n: int): (r: seq<(nat, V)>)
    decreases if n < 0 then 0 else n
    ensures forall i, j :: 0 <= i < j < |r| ==> r[i].0 < r[j].0
    ensures forall i :: 0 <= i < |r| ==> r[i].0 in m && m[r[i].0] == r[i].1 && 0 <= r[i].0 < n
    ensures forall k :: k in m && 0 <= k < n ==> (k, m[k]) in r
  {
    if n <= 0 then []
    else
      var below := Listing(m, n - 1);
      assert forall i :: 0 <= i < |below| ==> below[i].0 < n - 1;
      below + (if n - 1 in m then [(n - 1, m[n - 1])] else [])
  }

  /** The keys of `m` below `n`. */
  function KeysBelow<V>(m: map<nat, V>, n: int): set<nat>
  {
    set k | k in m && k < n
  }

  /** The listing holds one row per key below `n`. */
  lemma {:induction false} ListingSize<V>(m: map<nat, V>, n: int)
    decreases if n < 0 then 0 else n
    ensures |Listing(m, n)| == |KeysBelow(m, n)|
  {
    if n <= 0 {
      assert Listing(m, n) == [];
      assert KeysBelow(m, n) == {};
    } else {
      ListingSize(m, n - 1);
      ListingStep(m, n);
      KeysBelowStep(m, n);
    }
  }

  lemma ListingStep<V>(m: map<nat, V>, n: int)
    requires n > 0
    ensures |Listing(m, n)| == |Listing(m, n - 1)| + (if n - 1 in m then 1 else 0)
  {
  }

  lemma KeysBelowStep<V>(m: map<nat, V>, n: int)
    requires n > 0
    ensures |KeysBelow(m, n)| == |KeysBelow(m, n - 1)| + (if n - 1 in m then 1 else 0)
  {
    var below := KeysBelow(m, n - 1);
    if n - 1 in m {
      assert KeysBelow(m, n) == below + {n - 1};
    } else {
      assert KeysBelow(m, n) == below;
    }
  }

  /** When every key is below `n` the listing holds the whole table. */
  lemma ListingAll<V>(m: map<nat, V>, n: int)
    requires forall k :: k in m ==> k < n
    ensures |Listing(m, n)| == |m|
  {
    ListingSize(m, n);
    assert KeysBelow(m, n) == m.Keys;
  }
}
