/**
 * The helpers of `internal/models`: the pagination arithmetic every list page uses, and the
 * `NullTime` column type with its `Scan` (which updates the receiver) and `Value`.
 */
module Models {
  import opened Wrappers

  // ---------------------------------------------------------------------------------------
  // Pagination

  const DefaultPerPage: int := 25

  datatype PaginationInfo = PaginationInfo(
    currentPage: int,
    perPage: int,
    totalItems: int,
    totalPages: int,
    hasPrevious: bool,
    hasNext: bool,
    previousPage: int,
    nextPage: int,
    offset: int)

  /** Go's `/` on `int`: the quotient truncated toward zero (the divisor here is positive). */
  function GoQuotient(a: int, b: int): (q: int)
    requires b > 0
    ensures a >= 0 ==> q * b <= a < q * b + b
    ensures a < 0 ==> q <= 0
  {
    if a >= 0 then a / b else -((-a) / b)
  }

  lemma MulMonotone(x: int, y: int, k: int)
    requires x <= y && k >= 0
    ensures x * k <= y * k
  {
    assert y * k - x * k == (y - x) * k;
  }

  /** For a positive total, the rounded-up quotient `(t + s - 1) / s` is the ceiling of t / s. */
  lemma CeilingQuotient(t: int, s: int)
    requires s > 0
    ensures var q := GoQuotient(t + s - 1, s);
            (t <= 0 ==> q < 1) && (t > 0 ==> q >= 1 && (q - 1) * s < t <= q * s)
  {
    var q := GoQuotient(t + s - 1, s);
    assert (q - 1) * s == q * s - s;
    if t + s - 1 >= 0 {
      if q >= 1 {
        MulMonotone(1, q, s);
      } else {
        MulMonotone(q, 0, s);
      }
    }
  }

  /**
   * `NewPaginationInfo`: a page below 1 becomes 1 and a page size below 1 becomes 25; the page
   * count is the rounded-up quotient but at least 1, and the page is clamped to it.
   */
  function NewPaginationInfo(page: int, perPage: int, totalItems: int): (r: PaginationInfo)
    ensures r.perPage == if perPage < 1 then DefaultPerPage else perPage
    ensures r.totalItems == totalItems
    ensures r.totalPages >= 1
    ensures totalItems <= 0 ==> r.totalPages == 1
    ensures totalItems > 0 ==> (r.totalPages - 1) * r.perPage < totalItems <= r.totalPages * r.perPage
    ensures 1 <= r.currentPage <= r.totalPages
    ensures 1 <= page <= r.totalPages ==> r.currentPage == page
    ensures page < 1 ==> r.currentPage == 1
    ensures page > r.totalPages ==> r.currentPage == r.totalPages
    ensures r.offset == (r.currentPage - 1) * r.perPage && r.offset >= 0
    ensures r.hasPrevious <==> r.currentPage > 1
    ensures r.hasNext <==> r.currentPage < r.totalPages
    ensures r.previousPage == r.currentPage - 1 && r.nextPage == r.currentPage + 1
  {
    var p := if page < 1 then 1 else page;
    var size := if perPage < 1 then DefaultPerPage else perPage;
    var quotient := GoQuotient(totalItems + size - 1, size);
    CeilingQuotient(totalItems, size);
    var totalPages := if quotient < 1 then 1 else quotient;
    var current := if p > totalPages then totalPages else p;
    var offset := (current - 1) * size;
    MulMonotone(0, current - 1, size);
    PaginationInfo(current, size, totalItems, totalPages, current > 1, current < totalPages,
                   current - 1, current + 1, if offset < 0 then 0 else offset)
  }

  /** Feeding a result's page and page size back in, with the same total, reproduces it. */
  lemma PaginationIsStable(page: int, perPage: int, totalItems: int)
    ensures var r := NewPaginationInfo(page, perPage, totalItems);
            NewPaginationInfo(r.currentPage, r.perPage, totalItems) == r
  {
  }

  /** Consecutive pages do not overlap and leave no gap: page n + 1 starts where page n ends. */
  lemma PagesAreContiguous(page: int, perPage: int, totalItems: int)
    requires 1 <= page
    requires page + 1 <= NewPaginationInfo(page, perPage, totalItems).totalPages
    ensures var a := NewPaginationInfo(page, perPage, totalItems);
            var b := NewPaginationInfo(page + 1, perPage, totalItems);
            b.offset == a.offset + a.perPage && b.offset < totalItems
  {
    var a := NewPaginationInfo(page, perPage, totalItems);
    var b := NewPaginationInfo(page + 1, perPage, totalItems);
    PageCountIgnoresPage(page, page + 1, perPage, totalItems);
    NextOffset(page, a.perPage, a.totalPages, totalItems);
  }

  /** Page `page + 1` starts one page after page `page`, and still before the end. */
  lemma NextOffset(page: int, size: int, pages: int, total: int)
    requires 1 <= page && page + 1 <= pages && size >= 1 && (pages - 1) * size < total
    ensures page * size == (page - 1) * size + size && page * size < total
  {
    MulMonotone(page, pages - 1, size);
  }

  /** The page count depends on the page size and the total only. */
  lemma PageCountIgnoresPage(p: int, q: int, perPage: int, totalItems: int)
    ensures NewPaginationInfo(p, perPage, totalItems).totalPages == NewPaginationInfo(q, perPage, totalItems).totalPages
  {
  }

  // ---------------------------------------------------------------------------------------
  // NullTime

  /** What the database driver hands to `Scan`; times are Unix seconds. */
  datatype ScanSource = NilSource | TimeSource(t: int) | TextSource(text: string) | OtherSource(typeName: string)

  datatype ScanError = ParseFailed(text: string) | CannotScan(typeName: string)

  /**
   * `NullTime`: a time that may be SQL NULL. `parse` is `time.Parse` with the layout
   * "2006-01-02 15:04:05".
   */
  class NullTime {
    var time: int
    var valid: bool

    constructor ()
      ensures time == 0 && !valid
    {
      time, valid := 0, false;
    }

    /**
     * `Scan`: NULL clears `Valid`; anything else sets `Valid` before looking at the value, so a
     * text that does not parse or an unsupported type leaves `Valid` true next to the error.
     */
    method Scan(source: ScanSource, parse: string -> Option<int>) returns (err: Option<ScanError>)
      modifies this
      ensures source.NilSource? ==> !valid && time == old(time) && err.None?
      ensures !source.NilSource? ==> valid
      ensures source.TimeSource? ==> time == source.t && err.None?
      ensures source.TextSource? && parse(source.text).Some? ==> time == parse(source.text).value && err.None?
      ensures source.TextSource? && parse(source.text).None? ==> time == old(time) && err == Some(ParseFailed(source.text))
      ensures source.OtherSource? ==> time == old(time) && err == Some(CannotScan(source.typeName))
      ensures err.None? && source.NilSource? ==> Value() == None
      ensures err.None? && source.TimeSource? ==> Value() == Some(source.t)
      ensures err.None? && source.TextSource? ==> Value() == parse(source.text)
      ensures err.Some? ==> Value() == Some(old(time))
    {
      if source.NilSource? {
        valid := false;
        return None;
      }
      valid := true;
      match source
      case TimeSource(t) =>
        time := t;
        err := None;
      case TextSource(text) =>
        var parsed := parse(text);
        if parsed.None? {
          return Some(ParseFailed(text));
        }
        time := parsed.value;
        err := None;
      case OtherSource(typeName) =>
        err := Some(CannotScan(typeName));
    }

    /** `Value`: NULL when not valid, the stored time otherwise. */
    function Value(): (v: Option<int>)
      reads this
      ensures v.None? <==> !valid
      ensures v.Some? ==> v.value == time
    {
      if valid then Some(time) else None
    }
  }
}
