/** The paging arithmetic of `EventService.getAllEvents` and `UserService.getAllUsers`:
    a `subList` between clamped bounds computed in Java `int` arithmetic, and a
    page count computed through a `double` division. */
module Paging {
  import opened Base

  /** A `PagedResponse`. */
  datatype Paged<T> = Paged(content: seq<T>, page: Int32, size: Int32, totalElements: int, totalPages: Int32)

  function Min(a: int, b: int): int { if a <= b then a else b }

  /** The first row of page `page`, when the product does not wrap. */
  function Offset(page: Int32, size: Int32): nat
    requires 0 <= page && 0 <= size
  {
    page * size
  }

  lemma DivAtMost(n: nat, m: int)
    requires m >= 1
    ensures n / m <= n
  {
    var q := n / m;
    assert n == q * m + n % m && 0 <= n % m;
    if q > 0 {
      AtLeastOnce(q, m);
    }
  }

  lemma {:induction false} AtLeastOnce(q: nat, m: int)
    requires m >= 1
    ensures q * m >= q
    decreases m
  {
    if m > 1 {
      AtLeastOnce(q, m - 1);
      assert q * m == q * (m - 1) + q;
    }
  }

  /** `(int) Math.ceil((double) n / size)` for a list size `n` that fits an `int`.
      For a positive size the division is exact enough that this is the integer
      ceiling; dividing by zero gives infinity (cast to `Integer.MAX_VALUE`) or,
      for an empty list, NaN (cast to 0); a negative size rounds towards zero. */
  function TotalPages(n: nat, size: Int32): (r: Int32)
    requires n <= INT_MAX
    ensures size == 0 ==> (r == 0 <==> n == 0)
  {
    if size > 0 then (n + size - 1) / size
    else if size == 0 then (if n == 0 then 0 else INT_MAX)
    else
      var m := 0 - size as int;
      DivAtMost(n, m);
      -(n / m)
  }

  /** For a positive size the page count is the least number of pages holding `n` rows. */
  lemma TotalPagesCeil(n: nat, size: Int32)
    requires n <= INT_MAX && size > 0
    ensures TotalPages(n, size) * size >= n
    ensures TotalPages(n, size) == 0 || (TotalPages(n, size) - 1) * size < n
    ensures TotalPages(n, size) * size <= n + size - 1
  {
    var r := TotalPages(n, size);
    var q := (n + size - 1) % size;
    assert n + size - 1 == r * size + q;
  }

  /** The `subList` bounds: `start = page * size` and `end = min(start + size, n)`
      in wrapping `int` arithmetic, each clamped to `n`. */
  function Bounds(n: nat, page: Int32, size: Int32): (int, int)
  {
    var start := Wrap32(page * size);
    var end := Min(Wrap32(start + size), n);
    (Min(start, n), Min(end, n))
  }

  /** The page's rows; None where `subList` throws `IndexOutOfBoundsException`. */
  function PageOf<T>(xs: seq<T>, page: Int32, size: Int32): (r: Option<seq<T>>)
    ensures 0 <= page && 0 < size && page * size + size <= INT_MAX ==> r.Some?
    ensures r.Some? ==> |r.value| <= |xs|
  {
    var (from, to) := Bounds(|xs|, page, size);
    if 0 <= from <= to <= |xs| then Some(xs[from..to]) else None
  }

  /** The whole response; any exception becomes a 500. A list longer than the
      `int` range cannot be materialised at all. */
  function Paginate<T>(xs: seq<T>, page: Int32, size: Int32): (r: Result<Paged<T>>)
    ensures r.Ok? ==> r.value.totalElements == |xs| && r.value.page == page && r.value.size == size
    ensures r.Ok? ==> PageOf(xs, page, size) == Some(r.value.content)
    ensures r.Err? ==> r.failure == Crashed
  {
    if |xs| > INT_MAX then Err(Crashed)
    else
      match PageOf(xs, page, size)
      case None => Err(Crashed)
      case Some(c) => Ok(Paged(c, page, size, |xs|, TotalPages(|xs|, size)))
  }

  /** Whatever the arithmetic does, a page that comes back is a run of consecutive
      rows, no longer than `size` (and empty for a negative size). */
  lemma PageIsShortSlice<T>(xs: seq<T>, page: Int32, size: Int32)
    requires PageOf(xs, page, size).Some?
    ensures var c := PageOf(xs, page, size).value;
      var from := Bounds(|xs|, page, size).0;
      |c| <= (if size < 0 then 0 else size) && 0 <= from <= |xs| - |c| && c == xs[from..from + |c|]
  {
    var start := Wrap32(page * size);
    var sum := start + size;
    if sum > INT_MAX {
      Wrap32Above(sum);
    } else {
      assert Wrap32(sum) == sum;
    }
  }

  /** Without overflow the page is exactly `[min(page*size, n), min(page*size+size, n))`. */
  lemma PageInRange<T>(xs: seq<T>, page: Int32, size: Int32)
    requires 0 <= page && 0 < size && page * size + size <= INT_MAX
    ensures PageOf(xs, page, size) ==
      Some(xs[Min(Offset(page, size), |xs|)..Min(Offset(page, size) + size, |xs|)])
  {
    assert 0 <= page * size;
  }

  /** Without overflow, `Paginate` answers the slice
      `[min(page*size, n), min(page*size+size, n))` of the `n` rows, no longer than
      `size` and empty past the end; `totalElements` is `n` and `totalPages` the
      least number of pages holding them all. */
  lemma PaginateInRange<T>(xs: seq<T>, page: Int32, size: Int32)
    requires |xs| <= INT_MAX
    requires 0 <= page && 0 < size && page * size + size <= INT_MAX
    ensures var r := Paginate(xs, page, size);
      var start := Offset(page, size);
      && r.Ok? && r.value.totalElements == |xs|
      && r.value.content == xs[Min(start, |xs|)..Min(start + size, |xs|)]
      && |r.value.content| <= size
      && (start >= |xs| ==> r.value.content == [])
      && r.value.totalPages * size >= |xs| && (r.value.totalPages == 0 || (r.value.totalPages - 1) * size < |xs|)
  {
    PageInRange(xs, page, size);
    TotalPagesCeil(|xs|, size);
  }

  /** A page that starts at or after the last row is empty. */
  lemma PastEndIsEmpty<T>(xs: seq<T>, page: Int32, size: Int32)
    requires 0 <= page && 0 < size && page * size + size <= INT_MAX && page * size >= |xs|
    ensures PageOf(xs, page, size) == Some([])
  {
    PageInRange(xs, page, size);
    assert xs[|xs|..|xs|] == [];
  }

  /** `page * size` wraps: page 2^30 of size 4 starts at row 0 and repeats the first page. */
  lemma PageWrapsAround<T>(xs: seq<T>)
    requires |xs| >= 4
    ensures PageOf(xs, 0x4000_0000, 4) == Some(xs[..4])
  {
    assert Wrap32(0x4000_0000 * 4) == 0;
  }

  /** A negative page (with a positive size and no overflow) makes `subList` throw. */
  lemma NegativePageFails<T>(xs: seq<T>, page: Int32, size: Int32)
    requires page < 0 && 0 < size && INT_MIN <= page * size
    ensures PageOf(xs, page, size).None?
  {
  }

  /** The rows of pages 0 .. k-1, one after the other. */
  function Pages<T>(xs: seq<T>, size: Int32, k: nat): seq<T>
    requires 0 < size && k * size <= INT_MAX
  {
    if k == 0 then []
    else
      assert (k - 1) * size <= k * size;
      match PageOf(xs, k - 1, size)
      case None => Pages(xs, size, k - 1)
      case Some(c) => Pages(xs, size, k - 1) + c
  }

  lemma SlicesJoin<T>(xs: seq<T>, a: int, b: int)
    requires 0 <= a <= b <= |xs|
    ensures xs[..a] + xs[a..b] == xs[..b]
  {
  }

  /** Page k-1, when pages 0 .. k-1 fit the `int` range. */
  lemma LastPage<T>(xs: seq<T>, size: Int32, k: nat)
    requires 0 < size && 0 < k && k * size <= INT_MAX
    ensures (k - 1) * size <= k * size
    ensures 0 <= Min((k - 1) * size, |xs|) <= Min(k * size, |xs|) <= |xs|
    ensures PageOf(xs, k - 1, size) == Some(xs[Min((k - 1) * size, |xs|)..Min(k * size, |xs|)])
  {
    assert (k - 1) * size + size == k * size;
    PageInRange(xs, k - 1, size);
  }

  /** The first k pages are the first k*size rows. */
  lemma {:induction false} PagesArePrefix<T>(xs: seq<T>, size: Int32, k: nat)
    requires 0 < size && k * size <= INT_MAX
    ensures Pages(xs, size, k) == xs[..Min(k * size, |xs|)]
  {
    if k > 0 {
      LastPage(xs, size, k);
      var a, b := Min((k - 1) * size, |xs|), Min(k * size, |xs|);
      PagesArePrefix(xs, size, k - 1);
      assert Pages(xs, size, k) == Pages(xs, size, k - 1) + xs[a..b];
      SlicesJoin(xs, a, b);
    }
  }

  /** Walking all `totalPages` pages visits every row once, in order. */
  lemma AllPagesCoverList<T>(xs: seq<T>, size: Int32)
    requires 0 < size && |xs| + size - 1 <= INT_MAX
    ensures TotalPages(|xs|, size) * size <= INT_MAX
    ensures Pages(xs, size, TotalPages(|xs|, size)) == xs
  {
    var k := TotalPages(|xs|, size);
    TotalPagesCeil(|xs|, size);
    PagesArePrefix(xs, size, k);
    assert xs[..Min(k * size, |xs|)] == xs;
  }
}
