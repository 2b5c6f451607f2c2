/** The paginated end-of-day fetch for one symbol (fetch_symbol_data). The HTTP
    request itself is a parameter: `source` maps a page offset to the response
    the market-data service gives for that offset, the symbol and the fixed
    start date. */
module MarketStack {
  import opened Frames

  /** Page size sent as `limit`; the offset advances by this much per page. */
  const PageLimit: nat := 100

  /** One element of the "data" array of a response. The service may return any
      symbol here; the fetch overwrites it. A JSON null close is None. */
  datatype Record<V> = Record(date: int, symbol: Symbol, close: Option<V>)

  /** An HTTP response: its status code and the "data" member of its JSON body
      (None when the body has no such member). */
  datatype Response<V> = Response(status: int, data: Option<seq<Record<V>>>)

  /** The page's rows, an absent "data" member read as an empty list. */
  function PageRows<V>(r: Response<V>): seq<Record<V>>
  {
    match r.data
    case Some(rows) => rows
    case None => []
  }

  /** The loop stops at this response: a status other than 200, or no rows. */
  predicate EndsPaging<V>(r: Response<V>)
  {
    r.status != 200 || |PageRows(r)| == 0
  }

  /** The response to the k-th request (offset k * PageLimit). */
  function Page<V>(source: nat -> Response<V>, k: nat): Response<V>
  {
    source(k * PageLimit)
  }

  /** Page n is the first page that ends paging. */
  predicate IsFirstStop<V>(source: nat -> Response<V>, n: nat)
  {
    EndsPaging(Page(source, n)) && forall k :: 0 <= k < n ==> !EndsPaging(Page(source, k))
  }

  /** The rows collected from page k on, given that page `bound` ends paging. */
  function Collected<V>(source: nat -> Response<V>, k: nat, bound: nat): (rows: seq<Record<V>>)
    requires k <= bound && EndsPaging(Page(source, bound))
    ensures forall i :: 0 <= i < |rows| ==>
              exists p :: k <= p < bound && Page(source, p).status == 200 && rows[i] in PageRows(Page(source, p))
    decreases bound - k
  {
    if EndsPaging(Page(source, k)) then []
    else PageRows(Page(source, k)) + Collected(source, k + 1, bound)
  }

  /** Pages joined end to end, in order. */
  function Flatten<T>(pages: seq<seq<T>>): seq<T>
  {
    if pages == [] then [] else pages[0] + Flatten(pages[1..])
  }

  /** The rows of pages 0 .. n-1, in page order. */
  function PagesBefore<V>(source: nat -> Response<V>, n: nat): seq<seq<Record<V>>>
  {
    seq(n, k requires 0 <= k < n => PageRows(Page(source, k)))
  }

  /** fetch_symbol_data: request offsets 0, 100, 200, ... until a response is not
      200 or has no rows, collect every row received before that, then stamp
      each row with the requested symbol and keep (date, symbol, close).
      `bound` is any page that ends paging: it only bounds the loop. */
  method FetchSymbolData<V>(symbol: Symbol, source: nat -> Response<V>, ghost bound: nat)
    returns (rows: seq<Row<V>>, ghost offsets: seq<nat>)
    requires EndsPaging(Page(source, bound))
    ensures |offsets| > 0 && IsFirstStop(source, |offsets| - 1)
    ensures forall i :: 0 <= i < |offsets| ==> offsets[i] == i * PageLimit
    ensures |rows| == |Collected(source, 0, bound)|
    ensures forall i :: 0 <= i < |rows| ==>
              var rec := Collected(source, 0, bound)[i];
              rows[i] == Row(rec.date, symbol, rec.close)
  {
    var allData: seq<Record<V>> := [];
    var limit := PageLimit;
    var offset: nat := 0;
    ghost var page: nat := 0;
    offsets := [];
    while true
      invariant page <= bound && offset == page * limit
      invariant |offsets| == page && forall i :: 0 <= i < page ==> offsets[i] == i * PageLimit
      invariant forall k :: 0 <= k < page ==> !EndsPaging(Page(source, k))
      invariant allData + Collected(source, page, bound) == Collected(source, 0, bound)
      decreases bound - page
    {
      var r := source(offset);
      offsets := offsets + [offset];
      if r.status != 200 {
        break;
      }
      var data := PageRows(r);
      if |data| == 0 {
        break;
      }
      allData := allData + data;
      offset := offset + limit;
      page := page + 1;
    }
    assert allData == Collected(source, 0, bound);
    if |allData| == 0 {
      rows := [];
      return;
    }
    rows := seq(|allData|, i requires 0 <= i < |allData| => Row(allData[i].date, symbol, allData[i].close));
  }

  /** Whatever page bounds the loop, the same rows are collected: paging stops at
      the first stopping page, not at the bound. */
  lemma {:induction false} CollectedIndependentOfBound<V>(source: nat -> Response<V>, k: nat, b1: nat, b2: nat)
    requires k <= b1 && EndsPaging(Page(source, b1))
    requires k <= b2 && EndsPaging(Page(source, b2))
    ensures Collected(source, k, b1) == Collected(source, k, b2)
    decreases b1 - k
  {
    if !EndsPaging(Page(source, k)) {
      assert k < b1 && k < b2;
      CollectedIndependentOfBound(source, k + 1, b1, b2);
    }
  }

  /** The collected rows are the in-order concatenation of the pages before the
      first stopping page, each of which came back 200 and non-empty. */
  lemma {:induction false} CollectedIsPagesBeforeFirstStop<V>(source: nat -> Response<V>, n: nat, bound: nat)
    requires IsFirstStop(source, n) && EndsPaging(Page(source, bound))
    ensures n <= bound
    ensures forall k :: 0 <= k < n ==> Page(source, k).status == 200 && |PageRows(Page(source, k))| > 0
    ensures Collected(source, 0, bound) == Flatten(PagesBefore(source, n))
  {
    CollectedSuffix(source, n, 0, bound);
    assert PagesBefore(source, n)[0..] == PagesBefore(source, n);
  }

  /** From page k on, the collected rows are pages k up to the first stopping
      page, joined in order. */
  lemma {:induction false} CollectedSuffix<V>(source: nat -> Response<V>, n: nat, k: nat, bound: nat)
    requires IsFirstStop(source, n) && n <= bound && EndsPaging(Page(source, bound)) && k <= n
    ensures Collected(source, k, bound) == Flatten(PagesBefore(source, n)[k..])
    decreases n - k
  {
    if k < n {
      CollectedSuffix(source, n, k + 1, bound);
      assert PagesBefore(source, n)[k..][1..] == PagesBefore(source, n)[k + 1..];
    }
  }

  /** Responses after the first stopping page are never looked at: two sources
      that agree up to it yield the same rows. */
  lemma {:induction false} CollectedIgnoresLaterPages<V>(s1: nat -> Response<V>, s2: nat -> Response<V>, n: nat)
    requires IsFirstStop(s1, n)
    requires forall k :: 0 <= k <= n ==> Page(s1, k) == Page(s2, k)
    ensures IsFirstStop(s2, n)
    ensures Collected(s1, 0, n) == Collected(s2, 0, n)
  {
    assert forall k :: 0 <= k < n ==> !EndsPaging(Page(s2, k)) by {
      forall k | 0 <= k < n ensures !EndsPaging(Page(s2, k)) {
        assert Page(s1, k) == Page(s2, k);
      }
    }
    CollectedIsPagesBeforeFirstStop(s1, n, n);
    CollectedIsPagesBeforeFirstStop(s2, n, n);
    assert PagesBefore(s1, n) == PagesBefore(s2, n);
  }
}
