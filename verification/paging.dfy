/** The page window both mock services cut from a filtered list:
    `slice((page - 1) * pageSize, page * pageSize)`, with the total count and
    `Math.ceil(total / pageSize)` pages. */
module Paging {
  import opened Types

  function Min(a: int, b: int): int {
    if a <= b then a else b
  }

  /** `Math.ceil(total / size)`: the least page count whose pages hold
      `total` items. */
  function CeilDiv(total: nat, size: nat): (q: nat)
    requires size >= 1
    ensures q * size >= total
    ensures q == 0 || (q - 1) * size < total
    ensures q == 0 <==> total == 0
  {
    var q := (total + size - 1) / size;
    var rem := (total + size - 1) % size;
    assert q * size + rem == total + size - 1;
    assert (q - 1) * size == q * size - size;
    q
  }

  /** `s.slice(start, end)` for non-negative bounds: JavaScript clamps both
      ends to the length. */
  function Slice<T>(s: seq<T>, start: nat, end: nat): (r: seq<T>)
    requires start <= end
    ensures |r| == if start >= |s| then 0 else Min(end, |s|) - start
    ensures forall i :: 0 <= i < |r| ==> r[i] == s[start + i]
  {
    if start >= |s| then [] else s[start..Min(end, |s|)]
  }

  /** The offset of the first item of a page. */
  function PageStart(page: nat, pageSize: nat): nat
    requires page >= 1
  {
    (page - 1) * pageSize
  }

  function Paginate<T>(items: seq<T>, page: nat, pageSize: nat): (r: PaginatedResponse<T>)
    requires page >= 1 && pageSize >= 1
    ensures r.total == |items| && r.page == page && r.pageSize == pageSize
    ensures |r.data| <= pageSize
    ensures r.totalPages * pageSize >= |items|
    ensures r.totalPages == 0 || (r.totalPages - 1) * pageSize < |items|
    ensures r.totalPages == 0 <==> |items| == 0
    ensures |r.data| == if PageStart(page, pageSize) >= |items| then 0
                       else Min(pageSize, |items| - PageStart(page, pageSize))
    ensures forall i :: 0 <= i < |r.data| ==> r.data[i] == items[PageStart(page, pageSize) + i]
  {
    var start := PageStart(page, pageSize);
    PaginatedResponse(Slice(items, start, start + pageSize), |items|, page, pageSize, CeilDiv(|items|, pageSize))
  }

  /** A page has data exactly when its number is within the page count. */
  lemma PageNonEmptyIff<T>(items: seq<T>, page: nat, pageSize: nat)
    requires page >= 1 && pageSize >= 1
    ensures var r := Paginate(items, page, pageSize);
      |r.data| > 0 <==> page <= r.totalPages
  {
    var r := Paginate(items, page, pageSize);
    var q := r.totalPages;
    if page <= q {
      MulMonotone(page - 1, q - 1, pageSize);
    } else {
      MulMonotone(q, page - 1, pageSize);
    }
  }

  lemma MulMonotone(a: nat, b: nat, c: nat)
    requires a <= b
    ensures a * c <= b * c
  {
  }

  /** The items of pages 1 through `k`, in order. */
  function FirstPages<T>(items: seq<T>, pageSize: nat, k: nat): seq<T>
    requires pageSize >= 1
  {
    if k == 0 then [] else FirstPages(items, pageSize, k - 1) + Paginate(items, k, pageSize).data
  }

  /** Pages 1 through `k` hold exactly the first `k * pageSize` items. */
  lemma {:induction false} FirstPagesPrefix<T>(items: seq<T>, pageSize: nat, k: nat)
    requires pageSize >= 1
    ensures FirstPages(items, pageSize, k) == items[..Min(k * pageSize, |items|)]
  {
    if k > 0 {
      FirstPagesPrefix(items, pageSize, k - 1);
      PageIsSlice(items, k, pageSize);
      JoinSlices(items, Min((k - 1) * pageSize, |items|), Min(k * pageSize, |items|));
    }
  }

  lemma JoinSlices<T>(items: seq<T>, a: nat, b: nat)
    requires a <= b <= |items|
    ensures items[..a] + items[a..b] == items[..b]
  {
  }

  /** Page `k` is the stretch of the list between the ends of pages `k - 1`
      and `k`. */
  lemma PageIsSlice<T>(items: seq<T>, k: nat, pageSize: nat)
    requires k >= 1 && pageSize >= 1
    ensures (k - 1) * pageSize <= k * pageSize
    ensures Paginate(items, k, pageSize).data
      == items[Min((k - 1) * pageSize, |items|)..Min(k * pageSize, |items|)]
  {
    var start := (k - 1) * pageSize;
    assert k * pageSize == start + pageSize by {
      assert k * pageSize == (k - 1) * pageSize + pageSize;
    }
    assert PageStart(k, pageSize) == start;
    var data := Paginate(items, k, pageSize).data;
    if start >= |items| {
      assert data == [];
    } else {
      assert data == items[start..Min(start + pageSize, |items|)];
    }
  }

  /** The pages partition the list: concatenating every page, in order,
      gives back the whole list. */
  lemma PagesCoverItems<T>(items: seq<T>, pageSize: nat)
    requires pageSize >= 1
    ensures FirstPages(items, pageSize, CeilDiv(|items|, pageSize)) == items
  {
    FirstPagesPrefix(items, pageSize, CeilDiv(|items|, pageSize));
  }
}
