/** The client-side pagination of the category table: the visible rows are a
    slice of the full list, taken with JavaScript's `Array.prototype.slice`. */
module Paging {

  function Min(a: int, b: int): int {
    if a <= b then a else b
  }

  /** Where one bound of `slice` lands in a list of length `n`: a negative
      bound counts back from the end, and the result is clipped to [0, n]. */
  function SliceBound(k: int, n: nat): (r: nat)
    ensures r <= n
    ensures 0 <= k ==> r == Min(k, n)
    ensures k < 0 ==> r + Min(-k, n) == n
  {
    if k < 0 then (if n + k < 0 then 0 else n + k)
    else if k < n then k
    else n
  }

  /** `s.slice(start, end)`: the elements between the two clipped bounds, or
      nothing when the start bound does not lie before the end bound. */
  function JsSlice<T>(s: seq<T>, start: int, end: int): (r: seq<T>)
    ensures |r| <= |s|
    ensures 0 <= start <= end ==> r == s[Min(start, |s|)..Min(end, |s|)]
    ensures 0 <= end <= start ==> r == []
  {
    var from, to := SliceBound(start, |s|), SliceBound(end, |s|);
    if from < to then s[from..to] else []
  }

  /** The rows shown for zero-based page `page` when pages hold `size` rows:
      for a non-negative page and size, the window starting at `page * size`,
      clipped to the list (`PageWindow` states the rest). */
  function PageOf<T>(s: seq<T>, page: int, size: int): (r: seq<T>)
    ensures 0 <= page && 0 <= size ==> r == s[Min(page * size, |s|)..Min(page * size + size, |s|)]
  {
    JsSlice(s, page * size, page * size + size)
  }

  /** A page is the window of `size` rows starting at `page * size`, clipped to
      the list; a page past the end is empty. */
  lemma PageWindow<T>(s: seq<T>, page: nat, size: nat)
    ensures PageOf(s, page, size) == s[Min(page * size, |s|)..Min(page * size + size, |s|)]
    ensures |PageOf(s, page, size)| <= size
    ensures |s| <= page * size ==> PageOf(s, page, size) == []
    ensures 0 < size && page * size < |s| ==> PageOf(s, page, size) != []
    ensures forall k :: 0 <= k < |PageOf(s, page, size)| ==> PageOf(s, page, size)[k] == s[page * size + k]
  {
  }

  /** The first `k` pages, one after the other. */
  function Pages<T>(s: seq<T>, size: nat, k: nat): seq<T> {
    if k == 0 then [] else Pages(s, size, k - 1) + PageOf(s, k - 1, size)
  }

  /** The pages before page `k` are exactly the rows before `k * size`. */
  lemma {:induction false} PagesArePrefix<T>(s: seq<T>, size: nat, k: nat)
    ensures Pages(s, size, k) == s[..Min(k * size, |s|)]
  {
    if k > 0 {
      PagesArePrefix(s, size, k - 1);
      assert (k - 1) * size + size == k * size;
      PrefixThenSlice(s, (k - 1) * size, size);
    }
  }

  lemma PrefixThenSlice<T>(s: seq<T>, lo: nat, size: nat)
    ensures s[..Min(lo, |s|)] + JsSlice(s, lo, lo + size) == s[..Min(lo + size, |s|)]
  {
  }

  /** How many pages a list of `n` rows fills, `n / size` rounded up. */
  function PageCount(n: nat, size: nat): (c: nat)
    requires size > 0
    ensures (c - 1) * size < n <= c * size
  {
    var c := (n + size - 1) / size;
    assert c * size + (n + size - 1) % size == n + size - 1;
    c
  }

  /** Paging loses and repeats nothing: the `PageCount` pages are all
      non-empty, together they are the whole list in order, and the page after
      them is empty. */
  lemma PagesCoverList<T>(s: seq<T>, size: nat)
    requires size > 0
    ensures Pages(s, size, PageCount(|s|, size)) == s
    ensures forall p :: 0 <= p < PageCount(|s|, size) ==> PageOf(s, p, size) != []
    ensures PageOf(s, PageCount(|s|, size), size) == []
  {
    var c := PageCount(|s|, size);
    PagesArePrefix(s, size, c);
    assert s[..|s|] == s;
    forall p | 0 <= p < c ensures PageOf(s, p, size) != [] {
      LessPageStartsEarlier(p, c - 1, size);
      PageWindow(s, p, size);
    }
    PageWindow(s, c, size);
  }

  /** An earlier page starts no later. Kept apart from its one use so that the
      product facts do not meet the sequence facts of `PagesCoverList`. */
  lemma LessPageStartsEarlier(p: nat, q: nat, size: nat)
    requires p <= q
    ensures p * size <= q * size
  {
  }
}
