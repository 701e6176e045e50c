/** Offset pagination as every listing in the services computes it:
    `skip = (page - 1) * limit`, `take = limit`, `totalPages = Math.ceil(total / limit)`. */
module Pagination {
  import opened Common
  import Sorting

  /** Rows before page `page` (pages are numbered from 1). */
  function Skip(page: nat, limit: nat): nat
    requires page >= 1
  {
    (page - 1) * limit
  }

  lemma MulMonotone(a: nat, b: nat, c: nat)
    requires a <= b
    ensures a * c <= b * c
  {
  }

  /** `pages` pages of `limit` rows hold `total` rows, and one page fewer would not. */
  predicate IsPageCount(total: nat, limit: nat, pages: nat) {
    total <= pages * limit && (pages == 0 || (pages - 1) * limit < total)
  }

  /** `Math.ceil(total / limit)` for a positive limit: the fewest pages of `limit` rows that hold `total` rows. */
  function TotalPages(total: nat, limit: nat): (pages: nat)
    requires limit >= 1
    ensures IsPageCount(total, limit, pages)
  {
    var q := (total + limit - 1) / limit;
    var rem := (total + limit - 1) % limit;
    assert total + limit - 1 == q * limit + rem;
    assert (q - 1) * limit == q * limit - limit;
    q
  }

  /** The rows of page `page`: skip `Skip(page, limit)` rows, then take at most `limit`. */
  function Paginate<T>(rows: seq<T>, page: nat, limit: nat): (window: seq<T>)
    requires page >= 1 && limit >= 1
    ensures |window| <= limit
    ensures |window| == if Skip(page, limit) >= |rows| then 0 else Min(limit, |rows| - Skip(page, limit))
    ensures forall i :: 0 <= i < |window| ==> window[i] == rows[Skip(page, limit) + i]
  {
    var from := Min(Skip(page, limit), |rows|);
    rows[from..Min(from + limit, |rows|)]
  }

  /** A page holds rows exactly when its number is at most the page count. */
  lemma PageNonEmptyIff<T>(rows: seq<T>, page: nat, limit: nat)
    requires page >= 1 && limit >= 1
    ensures Paginate(rows, page, limit) != [] <==> page <= TotalPages(|rows|, limit)
  {
    var pages := TotalPages(|rows|, limit);
    if page <= pages {
      MulMonotone(page - 1, pages - 1, limit);
    } else {
      MulMonotone(pages, page - 1, limit);
    }
  }

  /** Pages 1 to `count`, one after another. */
  function PagesUpTo<T>(rows: seq<T>, limit: nat, count: nat): seq<T>
    requires limit >= 1
  {
    if count == 0 then [] else PagesUpTo(rows, limit, count - 1) + Paginate(rows, count, limit)
  }

  /** The first `count` pages are the first `count * limit` rows, in order. */
  lemma {:induction false} PagesUpToPrefix<T>(rows: seq<T>, limit: nat, count: nat)
    requires limit >= 1
    ensures PagesUpTo(rows, limit, count) == rows[..Min(count * limit, |rows|)]
  {
    if count > 0 {
      PagesUpToPrefix(rows, limit, count - 1);
      var before := Min((count - 1) * limit, |rows|);
      assert Skip(count, limit) == (count - 1) * limit;
      assert count * limit == (count - 1) * limit + limit;
      assert rows[..before] + rows[before..Min(count * limit, |rows|)] == rows[..Min(count * limit, |rows|)];
    }
  }

  /** Reading pages 1 to `TotalPages` returns every row exactly once, in order. */
  lemma PagesCoverAll<T>(rows: seq<T>, limit: nat)
    requires limit >= 1
    ensures PagesUpTo(rows, limit, TotalPages(|rows|, limit)) == rows
  {
    PagesUpToPrefix(rows, limit, TotalPages(|rows|, limit));
  }

  /** A page is a run of consecutive rows, so it keeps the order of the rows it is cut from. */
  lemma PageKeepsOrder<T>(rows: seq<T>, page: nat, limit: nat, le: (T, T) -> bool)
    requires page >= 1 && limit >= 1 && Sorting.SortedBy(rows, le)
    ensures Sorting.SortedBy(Paginate(rows, page, limit), le)
    ensures forall x :: x in Paginate(rows, page, limit) ==> x in rows
  {
    var window := Paginate(rows, page, limit);
    forall i | 0 <= i < |window| - 1 ensures le(window[i], window[i + 1]) {
      assert window[i + 1] == rows[Skip(page, limit) + i + 1];
    }
  }
}
