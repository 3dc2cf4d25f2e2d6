/**
 * The page-collecting fetcher of the unified service: it asks for pages
 * of 100 items, numbered from 1, until a page comes back short, and
 * answers `None` as soon as anything goes wrong.
 */
module HarborApi {
  import opened Wrappers
  import opened Json
  import opened Registry

  /** Harbor's largest page size, sent with every request. */
  const PageSize := 100

  /**
   * How a body decodes to the items of a page: a list is the page; an
   * object's `data` value must be a list; anything else is rejected.
   */
  function PageItems<T>(body: PageBody<T>): (r: Option<seq<Item<T>>>)
    ensures body.ListBody? ==> r == Some(body.items)
    ensures body.ObjectBody? ==> (r.Some? <==> body.data.DataList?)
                                 && (r.Some? ==> r.value == body.data.items)
    ensures body.ScalarBody? ==> r == None
  {
    match body
    case ListBody(items) => Some(items)
    case ObjectBody(_, DataList(items)) => Some(items)
    case ObjectBody(_, _) => None
    case ScalarBody(_) => None
  }

  /** The items one answer contributes, or `None` when the fetch gives up on it. */
  function PageResult<T>(resp: Response<T>): (r: Option<seq<Item<T>>>)
    ensures resp.Err? ==> r == None
    ensures resp.Ok? ==> r == PageItems(resp.body)
  {
    if resp.Err? then None else PageItems(resp.body)
  }

  /** The parameters every request shares. */
  function BaseQuery(params: Params): Params
  {
    PagedQuery(params, PageSize)
  }

  /** The parameters of every request sent, in order, and what the call returns. */
  datatype Fetch<T> = Fetch(requests: seq<Params>, result: Option<seq<Item<T>>>)

  /**
   * Fetching from page `page` on, with `acc` collected so far: stop with
   * `None` on a failed or undecodable answer, stop with everything on a
   * short page, go on after a full one.
   */
  function FetchFrom<T>(server: Server<T>, url: string, query: Params, page: nat, acc: seq<Item<T>>): (r: Fetch<T>)
    requires page >= 1
    ensures r.requests != []
    decreases |server(url, query)| + 1 - page
  {
    var req := RequestParams(query, page);
    match PageResult(PageAnswer(server, url, query, page))
    case None => Fetch([req], None)
    case Some(items) =>
      if |items| < PageSize then Fetch([req], Some(acc + items))
      else
        var rest := FetchFrom(server, url, query, page + 1, acc + items);
        Fetch([req] + rest.requests, rest.result)
  }

  /** `get_harbor_paginated_results(url, auth, params)`. */
  function HarborPaginatedResults<T>(server: Server<T>, url: string, params: Params): (r: Fetch<T>)
  {
    FetchFrom(server, url, BaseQuery(params), 1, [])
  }

  /**
   * One page's decoding in the fetch loop: a failed request or a body
   * that is neither a list nor an object whose `data` is a list ends the
   * call with `None`.
   */
  method DecodePage<T>(response: Response<T>) returns (current: Option<seq<Item<T>>>)
    ensures current == PageResult(response)
  {
    match response {
      case Err(_) =>
        current := None;
      case Ok(body, _) =>
        if body.ListBody? {
          current := Some(body.items);
        } else if body.ObjectBody? && body.data.DataList? {
          current := Some(body.data.items);
        } else {
          current := None;
        }
    }
  }

  /**
   * The fetch loop. The caller's dictionary (a fresh one when it passes
   * none) is updated in place with each page's `page` and `page_size`,
   * so afterwards it holds the last request's parameters.
   */
  method GetHarborPaginatedResults<T>(server: Server<T>, url: string, params: QueryParams?)
    returns (results: Option<seq<Item<T>>>)
    modifies params
    ensures var f := HarborPaginatedResults(server, url, if params == null then map[] else old(params.entries));
            results == f.result && (params != null ==> params.entries == f.requests[|f.requests| - 1])
  {
    var p := params;
    if p == null {
      p := new QueryParams(map[]);
    }
    ghost var query := BaseQuery(p.entries);
    ghost var whole := FetchFrom(server, url, query, 1, []);
    ghost var sent: seq<Params> := [];
    var collected: seq<Item<T>> := [];
    var page := 1;
    while true
      invariant page >= 1
      invariant BaseQuery(p.entries) == query
      invariant whole.result == FetchFrom(server, url, query, page, collected).result
      invariant whole.requests == sent + FetchFrom(server, url, query, page, collected).requests
      decreases |server(url, query)| + 1 - page
    {
      var current := RequestPage(server, url, p, query, page);
      FetchFromStep(server, url, query, page, collected, current);
      if current.None? {
        return None;
      }
      collected := collected + current.value;
      if |current.value| < PageSize {
        results := Some(collected);
        return;
      }
      AppendAssociative(sent, [p.entries], FetchFrom(server, url, query, page + 1, collected).requests);
      sent := sent + [p.entries];
      page := page + 1;
    }
  }

  /**
   * The start of one turn of the loop: write the page number and the page
   * size into the dictionary, send the request, and decode the answer.
   */
  method RequestPage<T>(server: Server<T>, url: string, p: QueryParams, ghost query: Params, page: nat)
    returns (current: Option<seq<Item<T>>>)
    modifies p
    requires page >= 1 && BaseQuery(p.entries) == query
    ensures p.entries == RequestParams(query, page) && BaseQuery(p.entries) == query
    ensures current == PageResult(PageAnswer(server, url, query, page))
  {
    ghost var before := p.entries;
    p.entries := p.entries["page" := PInt(page)];
    p.entries := p.entries["page_size" := PInt(PageSize)];
    NextRequest(before, PageSize, query, page);
    assert Respond(server, url, p.entries) == PageAnswer(server, url, query, page);
    current := DecodePage(Respond(server, url, p.entries));
  }

  /** One turn of the loop: what the answer to page `page` makes of the rest of the fetch. */
  lemma FetchFromStep<T>(server: Server<T>, url: string, query: Params, page: nat, acc: seq<Item<T>>,
                         current: Option<seq<Item<T>>>)
    requires page >= 1 && current == PageResult(PageAnswer(server, url, query, page))
    ensures current.None? ==> FetchFrom(server, url, query, page, acc) == Fetch([RequestParams(query, page)], None)
    ensures current.Some? && |current.value| < PageSize
            ==> FetchFrom(server, url, query, page, acc) == Fetch([RequestParams(query, page)], Some(acc + current.value))
    ensures current.Some? && |current.value| >= PageSize
            ==> && FetchFrom(server, url, query, page, acc).result
                   == FetchFrom(server, url, query, page + 1, acc + current.value).result
                && FetchFrom(server, url, query, page, acc).requests
                   == [RequestParams(query, page)] + FetchFrom(server, url, query, page + 1, acc + current.value).requests
  {
  }

  // ----- properties of the fetcher -----

  /** A page that decodes to at least a full page of items: the loop asks for the next one. */
  predicate Full<T>(server: Server<T>, url: string, query: Params, page: nat)
  {
    var r := PageResult(PageAnswer(server, url, query, page));
    r.Some? && |r.value| >= PageSize
  }

  /** The items of page `page`, or nothing if it does not decode. */
  function ItemsOf<T>(server: Server<T>, url: string, query: Params, page: nat): seq<Item<T>>
  {
    PageResult(PageAnswer(server, url, query, page)).GetOr([])
  }

  /** The items of `n` consecutive pages from `page` on, in order. */
  function Collected<T>(server: Server<T>, url: string, query: Params, page: nat, n: nat): seq<Item<T>>
    decreases n
  {
    if n == 0 then [] else ItemsOf(server, url, query, page) + Collected(server, url, query, page + 1, n - 1)
  }

  /**
   * The whole behaviour of the loop from page `page` on: request `k`
   * asks for page `page + k`; every page before the last is full and the
   * last is not; the call gives `None` if the last answer failed, and
   * otherwise everything collected, in request order.
   */
  lemma FetchFromShape<T>(server: Server<T>, url: string, query: Params, page: nat, acc: seq<Item<T>>)
    requires page >= 1
    ensures var f := FetchFrom(server, url, query, page, acc);
            var n := |f.requests|;
            && (forall k :: 0 <= k < n ==> f.requests[k] == RequestParams(query, page + k))
            && (forall j :: page <= j < page + n - 1 ==> Full(server, url, query, j))
            && !Full(server, url, query, page + n - 1)
            && f.result == (if PageResult(PageAnswer(server, url, query, page + n - 1)).None? then None
                            else Some(acc + Collected(server, url, query, page, n)))
  {
    FetchFromRequests(server, url, query, page, acc);
    FetchFromStops(server, url, query, page, acc);
    FetchFromResult(server, url, query, page, acc);
  }

  /** Request `k` of the loop from page `page` on asks for page `page + k`. */
  lemma {:induction false} FetchFromRequests<T>(server: Server<T>, url: string, query: Params, page: nat, acc: seq<Item<T>>)
    requires page >= 1
    ensures forall k :: 0 <= k < |FetchFrom(server, url, query, page, acc).requests| ==>
                          FetchFrom(server, url, query, page, acc).requests[k] == RequestParams(query, page + k)
    decreases |server(url, query)| + 1 - page
  {
    var f := FetchFrom(server, url, query, page, acc);
    var r := PageResult(PageAnswer(server, url, query, page));
    if r.Some? && |r.value| >= PageSize {
      var rest := FetchFrom(server, url, query, page + 1, acc + r.value);
      FetchFromRequests(server, url, query, page + 1, acc + r.value);
      assert f.requests == [RequestParams(query, page)] + rest.requests;
      forall k | 0 <= k < |f.requests| ensures f.requests[k] == RequestParams(query, page + k) {
        if k > 0 {
          assert f.requests[k] == rest.requests[k - 1];
        }
      }
    }
  }

  /** Every page before the last of the loop from page `page` on is full, and the last is not. */
  lemma {:induction false} FetchFromStops<T>(server: Server<T>, url: string, query: Params, page: nat, acc: seq<Item<T>>)
    requires page >= 1
    ensures var n := |FetchFrom(server, url, query, page, acc).requests|;
            && (forall j :: page <= j < page + n - 1 ==> Full(server, url, query, j))
            && !Full(server, url, query, page + n - 1)
    decreases |server(url, query)| + 1 - page
  {
    var r := PageResult(PageAnswer(server, url, query, page));
    if r.Some? && |r.value| >= PageSize {
      FetchFromStops(server, url, query, page + 1, acc + r.value);
      assert Full(server, url, query, page);
    }
  }

  /**
   * The loop from page `page` on gives `None` if its last answer failed,
   * and otherwise `acc` and everything collected, in request order.
   */
  lemma {:induction false} FetchFromResult<T>(server: Server<T>, url: string, query: Params, page: nat, acc: seq<Item<T>>)
    requires page >= 1
    ensures var f := FetchFrom(server, url, query, page, acc);
            var n := |f.requests|;
            f.result == (if PageResult(PageAnswer(server, url, query, page + n - 1)).None? then None
                         else Some(acc + Collected(server, url, query, page, n)))
    decreases |server(url, query)| + 1 - page
  {
    var f := FetchFrom(server, url, query, page, acc);
    match PageResult(PageAnswer(server, url, query, page))
    case None =>
    case Some(items) =>
      if |items| >= PageSize {
        var rest := FetchFrom(server, url, query, page + 1, acc + items);
        FetchFromResult(server, url, query, page + 1, acc + items);
        var n := |f.requests|;
        assert |rest.requests| == n - 1;
        assert ItemsOf(server, url, query, page) == items;
        var later := Collected(server, url, query, page + 1, n - 1);
        assert Collected(server, url, query, page, n) == items + later;
        AppendAssociative(acc, items, later);
      } else {
        assert Collected(server, url, query, page, 1) == items;
      }
  }

  /**
   * Request `k` (from 0) carries `page = k + 1` and `page_size = 100`,
   * and every other parameter the caller passed, unchanged.
   */
  lemma RequestsCarryPageNumbers<T>(server: Server<T>, url: string, params: Params, k: nat)
    requires k < |HarborPaginatedResults(server, url, params).requests|
    ensures var req := HarborPaginatedResults(server, url, params).requests[k];
            && "page" in req && "page_size" in req
            && req["page"] == PInt(k + 1) && req["page_size"] == PInt(PageSize)
            && forall key :: key in params && key != "page" && key != "page_size" ==> key in req && req[key] == params[key]
  {
    FetchFromShape(server, url, BaseQuery(params), 1, []);
  }

  /**
   * The result, and how many requests are sent: after `n` requests the
   * loop stops at the first page that is not full; the result is `None`
   * when that page failed, and otherwise the items of all `n` pages.
   */
  lemma FetchOutcome<T>(server: Server<T>, url: string, params: Params)
    ensures var f := HarborPaginatedResults(server, url, params);
            var q := BaseQuery(params);
            var n := |f.requests|;
            && (forall j :: 1 <= j < n ==> Full(server, url, q, j))
            && !Full(server, url, q, n)
            && (f.result.None? <==> PageResult(PageAnswer(server, url, q, n)).None?)
            && (f.result.Some? ==> f.result.value == Collected(server, url, q, 1, n))
  {
    var q := BaseQuery(params);
    FetchFromShape(server, url, q, 1, []);
  }

  /**
   * Pages of 100, 100, 100 and fewer than 100 items take exactly four
   * requests and give their items in order.
   */
  lemma ThreeFullPagesAndAShortOne<T>(server: Server<T>, url: string, params: Params,
                                      a: seq<Item<T>>, b: seq<Item<T>>, c: seq<Item<T>>, d: seq<Item<T>>)
    requires |a| == PageSize && |b| == PageSize && |c| == PageSize && |d| < PageSize
    requires server(url, BaseQuery(params))
             == [Ok(ListBody(a), None), Ok(ListBody(b), None), Ok(ListBody(c), None), Ok(ListBody(d), None)]
    ensures |HarborPaginatedResults(server, url, params).requests| == 4
    ensures HarborPaginatedResults(server, url, params).result == Some(a + b + c + d)
    ensures |HarborPaginatedResults(server, url, params).result.value| == 3 * PageSize + |d|
  {
    var q := BaseQuery(params);
    FetchOutcome(server, url, params);
    var n := |HarborPaginatedResults(server, url, params).requests|;
    assert Full(server, url, q, 1) && Full(server, url, q, 2) && Full(server, url, q, 3);
    assert !Full(server, url, q, 4);
    assert n == 4;
    assert Collected(server, url, q, 4, 1) == d;
    assert Collected(server, url, q, 3, 2) == c + d;
    assert Collected(server, url, q, 2, 3) == b + (c + d);
    assert Collected(server, url, q, 1, 4) == a + (b + (c + d));
    assert a + (b + (c + d)) == a + b + c + d;
  }

  /** An empty first page ends the loop after one request, with nothing collected. */
  lemma EmptyFirstPage<T>(server: Server<T>, url: string, params: Params)
    requires PageAnswer(server, url, BaseQuery(params), 1) == Ok(ListBody([]), None)
    ensures HarborPaginatedResults(server, url, params) == Fetch([RequestParams(BaseQuery(params), 1)], Some([]))
  {
    assert PageResult(PageAnswer(server, url, BaseQuery(params), 1)) == Some([]);
    var none: seq<Item<T>> := [];
    assert none + none == none;
  }

  /** A failed first request gives `None` after that one request. */
  lemma FailedFirstRequest<T>(server: Server<T>, url: string, params: Params, why: RequestFailure)
    requires PageAnswer(server, url, BaseQuery(params), 1) == Err(why)
    ensures HarborPaginatedResults(server, url, params) == Fetch([RequestParams(BaseQuery(params), 1)], None)
  {
  }
}
