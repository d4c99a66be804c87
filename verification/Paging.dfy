/** Offset paging: parameters, responses with their links, and walking a list by its links. */
module Paging {
  import opened Wrappers
  import opened Strings
  import opened Texts

  function Max(a: int, b: int): int {
    if a < b then b else a
  }

  function Clamp(x: int, low: int, high: int): int
    requires low <= high
  {
    if x < low then low else if x > high then high else x
  }

  /** Integer division as the machine does it, towards zero. */
  function TruncDiv(a: int, b: int): int
    requires b != 0
  {
    if (a >= 0) == (b > 0) then (if a >= 0 then a else -a) / (if b > 0 then b else -b)
    else -((if a >= 0 then a else -a) / (if b > 0 then b else -b))
  }

  lemma ClampedWithin(perPage: int)
    ensures 1 <= Clamp(perPage, 1, 1000) <= 1000
  {
  }

  // ---------- parameters and responses ----------

  datatype PaginationParams = PaginationParams(page: int, perPage: int, givenOffset: Option<int>) {

    static function New(page: int, perPage: int): PaginationParams {
      PaginationParams(Max(page, 1), Clamp(perPage, 1, 1000), None)
    }

    function Offset(): int {
      match givenOffset
      case Some(offset) => offset
      case None => (page - 1) * perPage
    }

    function Limit(): int {
      perPage
    }
  }

  datatype PaginatedResponse<T> = PaginatedResponse(
    total: int,
    count: int,
    pageSize: int,
    offset: int,
    previous: Option<string>,
    next: Option<string>,
    elements: seq<T>
  )

  function Href(baseUrl: string, offset: int, pageSize: int): string {
    baseUrl + "?offset=" + IntText(offset) + "&pageSize=" + IntText(pageSize)
  }

  function NewResponse<T>(items: seq<T>, total: int, params: PaginationParams, baseUrl: string): PaginatedResponse<T> {
    var offset := params.Offset();
    var count := |items|;
    var pageSize := params.perPage;
    PaginatedResponse(
      total, count, pageSize, offset,
      if offset > 0 then Some(Href(baseUrl, Max(offset - pageSize, 0), pageSize)) else None,
      if offset + count < total then Some(Href(baseUrl, offset + pageSize, pageSize)) else None,
      items)
  }

  // ---------- following links ----------

  const OFFSET_PARAM := "?offset="
  const SIZE_PARAM := "pageSize="

  /** What the receiver of a link reads from its query string. */
  function ReadHref(baseUrl: string, href: string): Option<PaginationParams> {
    match StripPrefix(href, baseUrl + OFFSET_PARAM)
    case None => None
    case Some(query) =>
      match SplitOnce(query, '&')
      case None => None
      case Some((first, second)) =>
        match StripPrefix(second, SIZE_PARAM)
        case None => None
        case Some(size) =>
          if ParseInt(first).Some? && ParseInt(size).Some?
          then Some(PaginationParams(1, ParseInt(size).value, Some(ParseInt(first).value)))
          else None
  }

  lemma IntTextHasNoAmpersand(n: int)
    ensures '&' !in IntText(n)
  {
  }

  /** A link says which page it is for. */
  lemma HrefReadsBack(baseUrl: string, offset: int, pageSize: int)
    ensures ReadHref(baseUrl, Href(baseUrl, offset, pageSize)) == Some(PaginationParams(1, pageSize, Some(offset)))
  {
    hide IntText, ParseInt, StripPrefix, SplitOnce;
    var query := IntText(offset) + "&" + (SIZE_PARAM + IntText(pageSize));
    assert Href(baseUrl, offset, pageSize) == baseUrl + OFFSET_PARAM + query;
    StripPrefixOf(baseUrl + OFFSET_PARAM, query);
    IntTextHasNoAmpersand(offset);
    SplitOnceOf(IntText(offset), '&', SIZE_PARAM + IntText(pageSize));
    assert IntText(offset) + ['&'] + (SIZE_PARAM + IntText(pageSize)) == query;
    StripPrefixOf(SIZE_PARAM, IntText(pageSize));
    IntRoundTrip(offset);
    IntRoundTrip(pageSize);
  }

  /** What LIMIT and OFFSET select from a list. */
  function Select<T>(all: seq<T>, params: PaginationParams): seq<T>
    requires params.Offset() >= 0 && params.Limit() >= 0
  {
    var from := if params.Offset() < |all| then params.Offset() else |all|;
    var to := if from + params.Limit() < |all| then from + params.Limit() else |all|;
    all[from..to]
  }

  function Respond<T>(all: seq<T>, params: PaginationParams, baseUrl: string): PaginatedResponse<T>
    requires params.Offset() >= 0 && params.Limit() >= 0
  {
    NewResponse(Select(all, params), |all|, params, baseUrl)
  }

  /** Parameters that ask for a page of at least one element at a proper offset. */
  predicate IsPage(params: PaginationParams) {
    params.perPage >= 1 && params.Offset() >= 0
  }

  /** The pages one gets by following the next links. A link that does not lead on ends the walk. */
  function Walk<T>(all: seq<T>, params: PaginationParams, baseUrl: string): seq<seq<T>>
    requires IsPage(params)
    decreases |all| - params.Offset()
  {
    var response := Respond(all, params, baseUrl);
    match response.next
    case None => [response.elements]
    case Some(href) =>
      var next := ReadHref(baseUrl, href);
      if next.Some? && IsPage(next.value) && params.Offset() < next.value.Offset()
      then [response.elements] + Walk(all, next.value, baseUrl)
      else [response.elements]
  }

  function Concat<T>(pages: seq<seq<T>>): seq<T> {
    if pages == [] then [] else pages[0] + Concat(pages[1..])
  }

  /** ceil(n / size), at least 1. */
  function PagesFor(n: int, size: int): int
    requires size >= 1
  {
    if n <= size then 1 else 1 + PagesFor(n - size, size)
  }

  lemma {:induction false} PagesForIsCeiling(n: nat, size: int)
    requires size >= 1
    ensures PagesFor(n, size) == Max(1, (n + size - 1) / size)
    decreases n
  {
    hide TruncDiv;
    if n == 0 {
      DivisionIsUnique(size - 1, size, 0, size - 1);
    } else if n <= size {
      DivisionIsUnique(n + size - 1, size, 1, n - 1);
    } else {
      PagesForIsCeiling(n - size, size);
      assert n - size + size - 1 == n - 1;
      CeilingStep(n + size - 1, size);
      CeilingStep(n - 1, size);
      DivisionIsPositive(n - 1 - size, size);
    }
  }

  lemma DivisionIsPositive(x: nat, size: int)
    requires size >= 1
    ensures x / size >= 0
  {
  }

  lemma CeilingStep(x: int, size: int)
    requires size >= 1 && x >= size
    ensures x / size == 1 + (x - size) / size
  {
    var q := (x - size) / size;
    assert x - size == q * size + (x - size) % size;
    assert x == (q + 1) * size + (x - size) % size;
    DivisionIsUnique(x, size, q + 1, (x - size) % size);
  }

  lemma DivisionIsUnique(x: int, size: int, q: int, r: int)
    requires size >= 1 && 0 <= r < size && x == q * size + r
    ensures x / size == q && x % size == r
  {
    var d := x / size - q;
    assert d * size == r - x % size;
    assert d >= 1 ==> d * size >= size;
    assert d <= -1 ==> d * size <= -size;
  }

  lemma {:induction false} WalkFrom<T>(all: seq<T>, params: PaginationParams, baseUrl: string)
    requires IsPage(params) && params.Offset() <= |all|
    ensures Concat(Walk(all, params, baseUrl)) == all[params.Offset()..]
    ensures |Walk(all, params, baseUrl)| == PagesFor(|all| - params.Offset(), params.perPage)
    decreases |all| - params.Offset()
  {
    hide ReadHref, Href;
    var offset, size := params.Offset(), params.perPage;
    var page := Select(all, params);
    if offset + |page| < |all| {
      HrefReadsBack(baseUrl, offset + size, size);
      var next := PaginationParams(1, size, Some(offset + size));
      WalkFrom(all, next, baseUrl);
      assert Walk(all, params, baseUrl) == [page] + Walk(all, next, baseUrl);
      assert all[offset..] == page + all[offset + size..];
    } else {
      assert page == all[offset..];
      assert Walk(all, params, baseUrl) == [page];
      assert [page][1..] == [];
      assert page + [] == page;
    }
  }

  /** Following the next links from the first page ends after max(1, ceil(total / size)) pages, and the
      pages laid end to end are the whole list: no gap, no overlap. */
  lemma WalkCoversAll<T>(all: seq<T>, perPage: int, baseUrl: string)
    ensures var first := PaginationParams.New(1, perPage);
            && Concat(Walk(all, first, baseUrl)) == all
            && |Walk(all, first, baseUrl)| == Max(1, (|all| + first.perPage - 1) / first.perPage)
  {
    hide Walk, PagesFor, Concat, Clamp;
    var first := PaginationParams.New(1, perPage);
    assert first.perPage >= 1 by {
      ClampedWithin(perPage);
    }
    assert first.Offset() == 0 * first.perPage == 0;
    WalkFrom(all, first, baseUrl);
    PagesForIsCeiling(|all|, first.perPage);
    assert all[0..] == all;
  }

  /** The previous link of the page a next link leads to leads back, wherever one started. */
  lemma PreviousUndoesNext<T>(all: seq<T>, params: PaginationParams, baseUrl: string)
    requires IsPage(params) && Respond(all, params, baseUrl).next.Some?
    ensures var next := ReadHref(baseUrl, Respond(all, params, baseUrl).next.value);
            && next.Some? && IsPage(next.value)
            && var previous := Respond(all, next.value, baseUrl).previous;
               && previous.Some?
               && ReadHref(baseUrl, previous.value) == Some(PaginationParams(1, params.perPage, Some(params.Offset())))
  {
    hide ReadHref, Href;
    HrefReadsBack(baseUrl, params.Offset() + params.perPage, params.perPage);
    HrefReadsBack(baseUrl, params.Offset(), params.perPage);
  }

  /** Page numbers and sizes out of range are brought to the nearest that is in range. */
  lemma ParametersAreClamped(page: int, perPage: int)
    ensures var params := PaginationParams.New(page, perPage);
            && params.page >= 1 && 1 <= params.perPage <= 1000 && params.givenOffset.None?
            && (forall p :: p >= 1 ==> AtLeastAsNear(page, params.page, p))
            && (forall n :: 1 <= n <= 1000 ==> AtLeastAsNear(perPage, params.perPage, n))
  {
  }

  /** No further from x than b is. */
  predicate AtLeastAsNear(x: int, a: int, b: int) {
    (if a < x then x - a else a - x) <= (if b < x then x - b else b - x)
  }

  /** What a response tells, for a list and a page of it. */
  lemma ResponseTells<T>(all: seq<T>, params: PaginationParams, baseUrl: string)
    requires IsPage(params) && params.Offset() < |all|
    ensures var response := Respond(all, params, baseUrl);
            && response.total == |all| && response.count == |response.elements|
            && response.pageSize == params.perPage && response.offset == params.Offset()
            && response.count == (if params.Offset() + params.perPage <= |all| then params.perPage
                                  else |all| - params.Offset())
            && response.elements == all[params.Offset()..params.Offset() + response.count]
            && (response.next.Some? ==>
                  response.next.value == baseUrl + "?offset=" + IntText(params.Offset() + params.perPage)
                                         + "&pageSize=" + IntText(params.perPage))
  {
    hide IntText;
  }

  // ---------- the repository's pagination ----------

  datatype Pagination = Pagination(limit: int, offset: int) {
    static function Page(page: int, perPage: int): Pagination {
      Pagination(perPage, (page - 1) * perPage)
    }
  }

  datatype PaginatedResult<T> = PaginatedResult(items: seq<T>, total: int, limit: int, offset: int) {

    function Page(): int {
      if limit == 0 then 1 else TruncDiv(offset, limit) + 1
    }

    function TotalPages(): int {
      if limit == 0 then 1 else TruncDiv(total + limit - 1, limit)
    }

    predicate HasNext() {
      offset + limit < total
    }

    predicate HasPrev() {
      offset > 0
    }
  }

  /** `has_next` and `has_prev` say whether the response for the same page has the respective link. */
  lemma HasNextMatchesLink<T>(all: seq<T>, params: PaginationParams, baseUrl: string)
    requires IsPage(params)
    ensures var page := Select(all, params);
            var result := PaginatedResult(page, |all|, params.Limit(), params.Offset());
            && (result.HasNext() <==> Respond(all, params, baseUrl).next.Some?)
            && (result.HasPrev() <==> Respond(all, params, baseUrl).previous.Some?)
  {
    hide Href;
  }

  ghost predicate NextMatchesPages<T>(items: seq<T>, limit: int, offset: int, total: nat) {
    var result := PaginatedResult(items, total, limit, offset);
    result.HasNext() == (result.Page() < result.TotalPages())
  }

  /** `has_next` agrees with `page() < total_pages()` for all totals exactly when the limit is positive and the offset
      is a multiple of it, or else lies more than two pages before the start. */
  lemma HasNextMatchesPagesIff<T>(items: seq<T>, limit: int, offset: int)
    ensures (forall total :: NextMatchesPages(items, limit, offset, total))
            <==> limit >= 1 && (offset % limit == 0 || offset < -2 * limit)
  {
    hide NextMatchesPages;
    if limit >= 1 {
      PositiveLimitMatchesIff(items, limit, offset);
    } else {
      assert !NextMatchesPages(items, limit, offset, BigTotal(limit, offset)) by {
        OtherLimitsDisagree(items, limit, offset);
      }
    }
  }

  lemma PositiveLimitMatchesIff<T>(items: seq<T>, limit: int, offset: int)
    requires limit >= 1
    ensures (forall total :: NextMatchesPages(items, limit, offset, total))
            <==> offset % limit == 0 || offset < -2 * limit
  {
    hide TruncDiv;
    var end := (TruncDiv(offset, limit) + 1) * limit;
    PageEnd(offset, limit);
    forall total: nat
      ensures NextMatchesPages(items, limit, offset, total) <==> (offset + limit < total <==> end < total)
    {
      CeilingExceeds(total, limit, TruncDiv(offset, limit) + 1);
      TruncDivIsFloor(total + limit - 1, limit);
    }
    if offset + limit < end && 0 <= end {
      assert !NextMatchesPages(items, limit, offset, end);
    } else if end < offset + limit {
      assert !NextMatchesPages(items, limit, offset, offset + limit);
    }
  }

  lemma TruncDivIsFloor(x: nat, limit: int)
    requires limit >= 1
    ensures TruncDiv(x, limit) == x / limit
  {
  }

  /** Where the page of an offset ends, against where `has_next` takes it to end. */
  lemma PageEnd(offset: int, limit: int)
    requires limit >= 1
    ensures var end := (TruncDiv(offset, limit) + 1) * limit;
            && (end == offset + limit <==> offset % limit == 0)
            && (offset >= 0 ==> end <= offset + limit)
            && (offset < 0 ==> offset + limit <= end)
            && (offset < 0 && offset % limit != 0 ==> (end < 0 <==> offset < -2 * limit))
  {
    hide TruncDiv;
    if offset >= 0 {
      TruncDivIsFloor(offset, limit);
      assert offset == (offset / limit) * limit + offset % limit;
    } else {
      TruncDivOfNegative(-offset, limit);
      PageEndBeforeStart(-offset, limit);
    }
  }

  lemma TruncDivOfNegative(x: int, limit: int)
    requires limit >= 1 && x > 0
    ensures TruncDiv(-x, limit) == -(x / limit)
  {
  }

  lemma PageEndBeforeStart(before: int, limit: int)
    requires limit >= 1 && before > 0
    ensures var end := (1 - before / limit) * limit;
            && (end == limit - before <==> -before % limit == 0)
            && limit - before <= end
            && (-before % limit != 0 ==> (end < 0 <==> before > 2 * limit))
  {
    var q, r := before / limit, before % limit;
    assert before == q * limit + r;
    assert (1 - q) * limit == limit - q * limit;
    if r == 0 {
      DivisionIsUnique(-before, limit, -q, 0);
    } else {
      assert -before == (-q - 1) * limit + (limit - r);
      DivisionIsUnique(-before, limit, -q - 1, limit - r);
      if q >= 2 {
        assert (q - 2) * limit >= 0;
      } else {
        assert (1 - q) * limit >= 0;
      }
    }
  }

  /** A total beyond which a limit of 0 or less cannot have as many pages as `has_next` promises. */
  function BigTotal(limit: int, offset: int): nat
    requires limit <= 0
  {
    var n := if offset < 0 then -offset else offset;
    1 - limit + -limit * (n + 1) + n
  }

  lemma OtherLimitsDisagree<T>(items: seq<T>, limit: int, offset: int)
    requires limit <= 0
    ensures !NextMatchesPages(items, limit, offset, BigTotal(limit, offset))
  {
    var n, total := if offset < 0 then -offset else offset, BigTotal(limit, offset);
    assert -limit * (n + 1) >= 0;
    if limit < 0 {
      QuotientIsSmall(n, -limit);
      var x := total + limit - 1;
      assert x == -limit * (n + 1) + n;
      QuotientIsLarge(x, -limit, n + 1);
    }
  }

  lemma QuotientIsSmall(n: nat, d: int)
    requires d >= 1
    ensures 0 <= n / d <= n
  {
  }

  lemma QuotientIsLarge(x: nat, d: int, k: int)
    requires d >= 1 && x >= d * k
    ensures x / d >= k
  {
    var q := x / d;
    assert x == q * d + x % d;
    assert q < k ==> (q + 1) * d <= k * d;
  }

  /** ceil(total / limit) exceeds k exactly when total exceeds k full pages. */
  lemma CeilingExceeds(total: nat, limit: int, k: int)
    requires limit >= 1
    ensures k < (total + limit - 1) / limit <==> k * limit < total
  {
    var x := total + limit - 1;
    var c := x / limit;
    assert x == c * limit + x % limit;
    var d := c - k;
    assert c * limit == k * limit + d * limit;
    assert d >= 1 ==> d * limit >= limit;
    assert d <= 0 ==> d * limit <= 0;
  }

  /** A response for a page has a next link exactly while the page is not the last. */
  lemma NextLinkUntilLastPage<T>(all: seq<T>, page: int, perPage: int, baseUrl: string)
    ensures var params := PaginationParams.New(page, perPage);
            var result := PaginatedResult(Select(all, params), |all|, params.Limit(), params.Offset());
            && result.Page() == params.page
            && (Respond(all, params, baseUrl).next.Some? <==> params.page < result.TotalPages())
  {
    hide TruncDiv, Clamp;
    var params := PaginationParams.New(page, perPage);
    ClampedWithin(perPage);
    assert params.Offset() == (params.page - 1) * params.perPage >= 0;
    DivisionIsUnique(params.Offset(), params.perPage, params.page - 1, 0);
    HasNextMatchesLink(all, params, baseUrl);
    HasNextMatchesPagesIff(Select(all, params), params.Limit(), params.Offset());
    assert NextMatchesPages(Select(all, params), params.Limit(), params.Offset(), |all|);
    PageRoundTrip(Select(all, params), |all|, params.page, params.perPage);
  }

  /** And a previous link exactly if it is not the first. */
  lemma PreviousLinkFromSecondPage<T>(all: seq<T>, page: int, perPage: int, baseUrl: string)
    ensures var params := PaginationParams.New(page, perPage);
            IsPage(params) && (Respond(all, params, baseUrl).previous.Some? <==> params.page > 1)
  {
    hide Href, Clamp, Select;
    ClampedWithin(perPage);
    var params := PaginationParams.New(page, perPage);
    ProductSign(params.page - 1, params.perPage);
  }

  lemma ProductSign(a: nat, b: nat)
    requires b > 0
    ensures a * b >= 0 && (a * b > 0 <==> a > 0)
  {
  }

  /** The page reported is the page asked for, unless pages of size 0 were asked for: those are all page 1. */
  lemma PageRoundTrip<T>(items: seq<T>, total: int, page: int, perPage: int)
    ensures var p := Pagination.Page(page, perPage);
            PaginatedResult(items, total, p.limit, p.offset).Page() == page <==> perPage != 0 || page == 1
  {
    if perPage != 0 {
      QuotientIsExact(page - 1, perPage);
    }
  }

  lemma QuotientIsExact(q: int, d: int)
    requires d != 0
    ensures TruncDiv(q * d, d) == q
  {
    var size, count := if d > 0 then d else -d, if q >= 0 then q else -q;
    DivisionIsUnique(count * size, size, count, 0);
    assert count * size >= 0;
    if (q >= 0) == (d > 0) {
      assert q * d == count * size;
    } else {
      assert q * d == -(count * size);
    }
  }
}
