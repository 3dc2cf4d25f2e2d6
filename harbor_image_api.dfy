/**
 * The Harbor image service: its own page-collecting fetcher (pages of
 * 50, stopping at an empty page, a short page or the `x-total-count`
 * header, and raising on any failure), and the walk from projects to
 * repositories to artifacts to tags that flattens the registry into
 * `(repository, tag)` records.
 */
module HarborImageApi {
  import opened Wrappers
  import opened Json
  import opened Text
  import opened Registry
  import opened UrlEncoding

  /** The page size this fetcher asks for. */
  const PageSize := 50

  /** The registry address used when `HARBOR_URL` is not set. */
  const DefaultHarborUrl := "https://k8s-gpu-worker-node:9443"

  /** `HARBOR_URL`: the environment's value, or the default, without trailing slashes. */
  function HarborUrl(env: Option<string>): (r: string)
    ensures r == [] || r[|r| - 1] != '/'
    ensures env.Some? ==> |r| <= |env.value| && r == env.value[..|r|] && forall k :: |r| <= k < |env.value| ==> env.value[k] == '/'
  {
    RStripChar(env.GetOr(DefaultHarborUrl), '/')
  }

  lemma DefaultHarborUrlIsKept()
    ensures HarborUrl(None) == DefaultHarborUrl
  {
  }

  // ----- the fetcher -----

  /** What a fetch gives: every item collected, or the exception it raised. */
  datatype Outcome<T> = Fetched(items: seq<Item<T>>) | Raised(failure: Failure)

  /** The parameters of every request sent, in order, and the outcome. */
  datatype Fetch<T> = Fetch(requests: seq<Params>, outcome: Outcome<T>)

  /** `not current_page_data` is false: a non-empty list, a non-empty object, or a truthy scalar. */
  predicate BodyTruthy<T>(body: PageBody<T>)
  {
    match body
    case ListBody(items) => items != []
    case ObjectBody(keys, _) => keys != []
    case ScalarBody(v) => Truthy(v)
  }

  /**
   * What `results.extend(body)` appends: a list's elements, an object's
   * keys, a string's characters (as one-character strings); `None` when
   * the body is not iterable (a number, a boolean or null), which raises
   * `TypeError`.
   */
  function Extension<T>(body: PageBody<T>): (r: Option<seq<Item<T>>>)
    ensures body.ListBody? ==> r == Some(body.items)
    ensures body.ObjectBody? ==> r.Some? && |r.value| == |body.keys|
                                 && forall i :: 0 <= i < |body.keys| ==> r.value[i] == NonObject(JString(body.keys[i]))
    ensures body.ScalarBody? ==> (r.Some? <==> body.v.JString?)
    ensures body.ScalarBody? && body.v.JString? ==>
              r.Some? && |r.value| == |body.v.s| && forall i :: 0 <= i < |body.v.s| ==> r.value[i] == NonObject(JString([body.v.s[i]]))
  {
    match body
    case ListBody(items) => Some(items)
    case ObjectBody(keys, _) => Some(seq(|keys|, i requires 0 <= i < |keys| => NonObject(JString(keys[i]))))
    case ScalarBody(JString(s)) => Some(seq(|s|, i requires 0 <= i < |s| => NonObject(JString([s[i]]))))
    case ScalarBody(_) => None
  }

  /** The `x-total-count` test, after a full page has been added. */
  datatype Verdict = GoOn | Reached | BadCount

  /**
   * An absent or empty header never stops the loop; otherwise `int()` of
   * it must succeed (a `ValueError`, re-raised, otherwise), and the loop
   * stops once `collected` is at least that many.
   */
  function TotalCountVerdict(header: Option<string>, collected: nat): (v: Verdict)
    ensures v.BadCount? <==> header.Some? && header.value != [] && ParseInt(header.value).None?
    ensures v.Reached? <==> header.Some? && header.value != [] && ParseInt(header.value).Some?
                            && collected >= ParseInt(header.value).value
  {
    if header.None? || header.value == [] then GoOn
    else match ParseInt(header.value)
         case None => BadCount
         case Some(n) => if collected >= n then Reached else GoOn
  }

  /** What one answer does to the loop: end it with an outcome, or go on with more collected. */
  datatype Turn<T> = Done(outcome: Outcome<T>) | More(collected: seq<Item<T>>)

  /**
   * One answer, with `acc` collected so far. The stop rules are tried in
   * the source's order: a failed answer raises; an empty body stops
   * without adding anything; a body that cannot be iterated raises; a
   * short page stops; a malformed count header raises; a reached count
   * stops. Only a full page with no count reached goes on.
   */
  function PageTurn<T>(resp: Response<T>, acc: seq<Item<T>>): (t: Turn<T>)
    ensures resp.Err? ==> t == Done(Raised(Request(resp.failure)))
    ensures resp.Ok? && !BodyTruthy(resp.body) ==> t == Done(Fetched(acc))
    ensures t.More? ==> && resp.Ok? && BodyTruthy(resp.body) && Extension(resp.body).Some?
                        && |Extension(resp.body).value| >= PageSize
                        && t.collected == acc + Extension(resp.body).value
                        && TotalCountVerdict(resp.totalCount, |t.collected|).GoOn?
    ensures t.Done? && t.outcome.Fetched? ==>
              t.outcome.items == acc + (if resp.Ok? && BodyTruthy(resp.body) then Extension(resp.body).GetOr([]) else [])
    ensures t.Done? && t.outcome.Raised? && t.outcome.failure.Request? <==> resp.Err?
  {
    match resp
    case Err(f) => Done(Raised(Request(f)))
    case Ok(body, total) =>
      if !BodyTruthy(body) then Done(Fetched(acc))
      else match Extension(body)
        case None => Done(Raised(NotIterable))
        case Some(items) =>
          if |items| < PageSize then Done(Fetched(acc + items))
          else match TotalCountVerdict(total, |acc + items|)
            case BadCount => Done(Raised(BadTotalCount))
            case Reached => Done(Fetched(acc + items))
            case GoOn => More(acc + items)
  }

  /** Fetching from page `page` on, with `acc` collected so far. */
  function FetchFrom<T>(server: Server<T>, url: string, query: Params, page: nat, acc: seq<Item<T>>): (r: Fetch<T>)
    requires page >= 1
    ensures r.requests != []
    decreases |server(url, query)| + 1 - page
  {
    var req := RequestParams(query, page);
    match PageTurn(PageAnswer(server, url, query, page), acc)
    case Done(outcome) => Fetch([req], outcome)
    case More(collected) =>
      var rest := FetchFrom(server, url, query, page + 1, collected);
      Fetch([req] + rest.requests, rest.outcome)
  }

  /** `get_harbor_paginated_results(url, auth, params)`. */
  function HarborPaginatedResults<T>(server: Server<T>, url: string, params: Params): Fetch<T>
  {
    FetchFrom(server, url, PagedQuery(params, PageSize), 1, [])
  }

  /** The body of the fetch loop after the request: the checks on one answer, in order. */
  method ReadPage<T>(response: Response<T>, results: seq<Item<T>>) returns (turn: Turn<T>)
    ensures turn == PageTurn(response, results)
  {
    if response.Err? {
      return Done(Raised(Request(response.failure)));
    }
    if !BodyTruthy(response.body) {
      return Done(Fetched(results));
    }
    var current := Extension(response.body);
    if current.None? {
      return Done(Raised(NotIterable));
    }
    var collected := results + current.value;
    if |current.value| < PageSize {
      return Done(Fetched(collected));
    }
    var header := response.totalCount;
    if header.Some? && header.value != [] {
      var count := ParseInt(header.value);
      if count.None? {
        return Done(Raised(BadTotalCount));
      }
      if |collected| >= count.value {
        return Done(Fetched(collected));
      }
    }
    return More(collected);
  }

  /** The fetch loop, writing `page` and `page_size` into the caller's dictionary (or a fresh one). */
  method GetHarborPaginatedResults<T>(server: Server<T>, url: string, params: QueryParams?)
    returns (outcome: Outcome<T>)
    modifies params
    ensures var f := HarborPaginatedResults(server, url, if params == null then map[] else old(params.entries));
            outcome == f.outcome && (params != null ==> params.entries == f.requests[|f.requests| - 1])
  {
    var p := params;
    if p == null {
      p := new QueryParams(map[]);
    }
    ghost var query := PagedQuery(p.entries, PageSize);
    ghost var whole := FetchFrom(server, url, query, 1, []);
    ghost var sent: seq<Params> := [];
    var results: seq<Item<T>> := [];
    var page := 1;
    while true
      invariant page >= 1
      invariant PagedQuery(p.entries, PageSize) == query
      invariant whole.outcome == FetchFrom(server, url, query, page, results).outcome
      invariant whole.requests == sent + FetchFrom(server, url, query, page, results).requests
      decreases |server(url, query)| + 1 - page
    {
      var turn := RequestPage(server, url, p, query, page, results);
      FetchFromStep(server, url, query, page, results);
      if turn.Done? {
        return turn.outcome;
      }
      AppendAssociative(sent, [p.entries], FetchFrom(server, url, query, page + 1, turn.collected).requests);
      results := turn.collected;
      sent := sent + [p.entries];
      page := page + 1;
    }
  }

  /**
   * The start of one turn of the loop: write the page number and the page
   * size into the dictionary, send the request, and read the answer.
   */
  method RequestPage<T>(server: Server<T>, url: string, p: QueryParams, ghost query: Params, page: nat, results: seq<Item<T>>)
    returns (turn: Turn<T>)
    modifies p
    requires page >= 1 && PagedQuery(p.entries, PageSize) == query
    ensures p.entries == RequestParams(query, page) && PagedQuery(p.entries, PageSize) == query
    ensures turn == PageTurn(PageAnswer(server, url, query, page), results)
  {
    ghost var before := p.entries;
    p.entries := p.entries["page" := PInt(page)];
    p.entries := p.entries["page_size" := PInt(PageSize)];
    NextRequest(before, PageSize, query, page);
    assert Respond(server, url, p.entries) == PageAnswer(server, url, query, page);
    turn := ReadPage(Respond(server, url, p.entries), results);
  }

  /** One turn of the loop: the request for page `page`, then what its answer makes of the rest. */
  lemma FetchFromStep<T>(server: Server<T>, url: string, query: Params, page: nat, acc: seq<Item<T>>)
    requires page >= 1 && "page" !in query
    ensures Respond(server, url, RequestParams(query, page)) == PageAnswer(server, url, query, page)
    ensures var t := PageTurn(PageAnswer(server, url, query, page), acc);
            var f := FetchFrom(server, url, query, page, acc);
            && (t.Done? ==> f == Fetch([RequestParams(query, page)], t.outcome))
            && (t.More? ==> f.outcome == FetchFrom(server, url, query, page + 1, t.collected).outcome
                            && f.requests == [RequestParams(query, page)] + FetchFrom(server, url, query, page + 1, t.collected).requests)
  {
  }

  // ----- properties of the fetcher -----

  /** A page after which the loop goes on: answered, non-empty, iterable and full. */
  predicate Full<T>(server: Server<T>, url: string, query: Params, page: nat)
  {
    var resp := PageAnswer(server, url, query, page);
    && resp.Ok? && BodyTruthy(resp.body)
    && Extension(resp.body).Some? && |Extension(resp.body).value| >= PageSize
  }

  /** The items one page adds to the result. */
  function ItemsOf<T>(server: Server<T>, url: string, query: Params, page: nat): seq<Item<T>>
  {
    var resp := PageAnswer(server, url, query, page);
    if resp.Ok? && BodyTruthy(resp.body) then Extension(resp.body).GetOr([]) else []
  }

  /** The items of `n` consecutive pages from `page` on, in order. */
  function Gathered<T>(server: Server<T>, url: string, query: Params, page: nat, n: nat): seq<Item<T>>
    decreases n
  {
    if n == 0 then [] else ItemsOf(server, url, query, page) + Gathered(server, url, query, page + 1, n - 1)
  }

  /** Request `k` of the loop from page `page` on asks for page `page + k`. */
  lemma {:induction false} FetchFromRequests<T>(server: Server<T>, url: string, query: Params, page: nat, acc: seq<Item<T>>)
    requires page >= 1
    ensures forall k :: 0 <= k < |FetchFrom(server, url, query, page, acc).requests| ==>
                          FetchFrom(server, url, query, page, acc).requests[k] == RequestParams(query, page + k)
    decreases |server(url, query)| + 1 - page
  {
    var f := FetchFrom(server, url, query, page, acc);
    var turn := PageTurn(PageAnswer(server, url, query, page), acc);
    if turn.More? {
      var rest := FetchFrom(server, url, query, page + 1, turn.collected);
      FetchFromRequests(server, url, query, page + 1, turn.collected);
      assert f.requests == [RequestParams(query, page)] + rest.requests;
      forall k | 0 <= k < |f.requests| ensures f.requests[k] == RequestParams(query, page + k) {
        if k > 0 {
          assert f.requests[k] == rest.requests[k - 1];
        }
      }
    }
  }

  /** The answer to the last request of the loop from page `page` on. */
  function LastAnswer<T>(server: Server<T>, url: string, query: Params, page: nat, acc: seq<Item<T>>): Response<T>
    requires page >= 1
  {
    PageAnswer(server, url, query, page + |FetchFrom(server, url, query, page, acc).requests| - 1)
  }

  /** Every page before the last of the loop from page `page` on was answered and full. */
  lemma {:induction false} FetchFromFullPages<T>(server: Server<T>, url: string, query: Params, page: nat, acc: seq<Item<T>>)
    requires page >= 1
    ensures forall j :: page <= j < page + |FetchFrom(server, url, query, page, acc).requests| - 1 ==> Full(server, url, query, j)
    decreases |server(url, query)| + 1 - page
  {
    var turn := PageTurn(PageAnswer(server, url, query, page), acc);
    if turn.More? {
      FetchFromFullPages(server, url, query, page + 1, turn.collected);
      assert Full(server, url, query, page);
    }
  }

  /**
   * A failed last answer is raised as it is, and only a failed answer
   * raises a request failure.
   */
  lemma {:induction false} FetchFromRaises<T>(server: Server<T>, url: string, query: Params, page: nat, acc: seq<Item<T>>)
    requires page >= 1
    ensures LastAnswer(server, url, query, page, acc).Err? <==>
              FetchFrom(server, url, query, page, acc).outcome.Raised? && FetchFrom(server, url, query, page, acc).outcome.failure.Request?
    ensures LastAnswer(server, url, query, page, acc).Err? ==>
              FetchFrom(server, url, query, page, acc).outcome == Raised(Request(LastAnswer(server, url, query, page, acc).failure))
    decreases |server(url, query)| + 1 - page
  {
    var turn := PageTurn(PageAnswer(server, url, query, page), acc);
    if turn.More? {
      FetchFromRaises(server, url, query, page + 1, turn.collected);
      assert LastAnswer(server, url, query, page, acc) == LastAnswer(server, url, query, page + 1, turn.collected);
    }
  }

  /** What one answer adds to the items collected so far, whether the loop goes on or stops. */
  lemma TurnAddsPageItems<T>(server: Server<T>, url: string, query: Params, page: nat, acc: seq<Item<T>>)
    ensures var t := PageTurn(PageAnswer(server, url, query, page), acc);
            && (t.More? ==> t.collected == acc + ItemsOf(server, url, query, page))
            && (t.Done? && t.outcome.Fetched? ==> t.outcome.items == acc + ItemsOf(server, url, query, page))
  {
  }

  /** A result that is not an exception is `acc` and then everything the pages held, in order. */
  lemma {:induction false} FetchFromGathers<T>(server: Server<T>, url: string, query: Params, page: nat, acc: seq<Item<T>>)
    requires page >= 1
    ensures FetchFrom(server, url, query, page, acc).outcome.Fetched? ==>
              FetchFrom(server, url, query, page, acc).outcome.items
              == acc + Gathered(server, url, query, page, |FetchFrom(server, url, query, page, acc).requests|)
    decreases |server(url, query)| + 1 - page
  {
    var turn := PageTurn(PageAnswer(server, url, query, page), acc);
    TurnAddsPageItems(server, url, query, page, acc);
    if turn.More? {
      var rest := FetchFrom(server, url, query, page + 1, turn.collected);
      FetchFromGathers(server, url, query, page + 1, turn.collected);
      if rest.outcome.Fetched? {
        GatheredAfterFullPage(server, url, query, page, acc, rest.outcome.items, |rest.requests|);
      }
    } else {
      assert Gathered(server, url, query, page, 1) == ItemsOf(server, url, query, page) + [];
    }
  }

  /** The step of `FetchFromGathers` past a full page: the page's items join the later ones. */
  lemma GatheredAfterFullPage<T>(server: Server<T>, url: string, query: Params, page: nat, acc: seq<Item<T>>,
                                 items: seq<Item<T>>, n: nat)
    requires items == (acc + ItemsOf(server, url, query, page)) + Gathered(server, url, query, page + 1, n)
    ensures items == acc + Gathered(server, url, query, page, n + 1)
  {
    var first, later := ItemsOf(server, url, query, page), Gathered(server, url, query, page + 1, n);
    AppendAssociative(acc, first, later);
    assert Gathered(server, url, query, page, n + 1) == first + later;
  }

  /**
   * Request `k` (from 0) carries `page = k + 1` and `page_size = 50`,
   * overriding the caller's values, and every other parameter the caller
   * passed, unchanged.
   */
  lemma RequestsCarryPageNumbers<T>(server: Server<T>, url: string, params: Params, k: nat)
    requires k < |HarborPaginatedResults(server, url, params).requests|
    ensures var req := HarborPaginatedResults(server, url, params).requests[k];
            && "page" in req && "page_size" in req
            && req["page"] == PInt(k + 1) && req["page_size"] == PInt(PageSize)
            && forall key :: key in params && key != "page" && key != "page_size" ==> key in req && req[key] == params[key]
  {
    FetchFromRequests(server, url, PagedQuery(params, PageSize), 1, []);
  }

  /**
   * Errors are re-raised: a failed answer ends the fetch with that
   * failure and no result, and every answer before the last succeeded.
   */
  lemma FailuresAreRaised<T>(server: Server<T>, url: string, params: Params)
    ensures var f := HarborPaginatedResults(server, url, params);
            var q := PagedQuery(params, PageSize);
            var n := |f.requests|;
            && (forall j :: 1 <= j < n ==> Full(server, url, q, j))
            && (PageAnswer(server, url, q, n).Err? ==> f.outcome == Raised(Request(PageAnswer(server, url, q, n).failure)))
            && (f.outcome.Fetched? ==> f.outcome.items == Gathered(server, url, q, 1, n))
  {
    var q := PagedQuery(params, PageSize);
    FetchFromFullPages(server, url, q, 1, []);
    FetchFromRaises(server, url, q, 1, []);
    FetchFromGathers(server, url, q, 1, []);
  }

  /**
   * The stop rules, in the order the loop applies them, on the first
   * page: an empty page stops with nothing; a short page stops before the
   * count header is read, even a malformed one; a full page with a
   * malformed count raises; a full page whose count is reached stops; a
   * full page with no count asks for page 2.
   */
  lemma StopRulesInOrder<T>(server: Server<T>, url: string, params: Params, body: PageBody<T>, total: Option<string>)
    requires PageAnswer(server, url, PagedQuery(params, PageSize), 1) == Ok(body, total)
    ensures var f := HarborPaginatedResults(server, url, params);
            var items := Extension(body);
            && (!BodyTruthy(body) ==> f.outcome == Fetched([]) && |f.requests| == 1)
            && (BodyTruthy(body) && items.Some? && |items.value| < PageSize
                ==> f.outcome == Fetched(items.value) && |f.requests| == 1)
            && (BodyTruthy(body) && items.Some? && |items.value| >= PageSize
                && total.Some? && total.value != [] && ParseInt(total.value).None?
                ==> f.outcome == Raised(BadTotalCount))
            && (BodyTruthy(body) && items.Some? && |items.value| >= PageSize
                && total.Some? && total.value != [] && ParseInt(total.value).Some?
                && ParseInt(total.value).value <= |items.value|
                ==> f.outcome == Fetched(items.value) && |f.requests| == 1)
            && (BodyTruthy(body) && items.Some? && |items.value| >= PageSize && total.None?
                ==> |f.requests| >= 2)
  {
    var none: seq<Item<T>> := [];
    assert none + none == none;
    var items := Extension(body);
    if items.Some? {
      assert none + items.value == items.value;
    }
  }

  // ----- the traversal -----

  /** `HARBOR_URL.replace('https://', '').replace('http://', '')`. */
  function StripScheme(url: string): string
  {
    RemoveAll(RemoveAll(url, "https://"), "http://")
  }

  /** The `repository` of a record: the registry host, `/`, and the full repository name. */
  function DisplayRepository(base: string, fullName: string): string
  {
    StripScheme(base) + "/" + fullName
  }

  function ProjectsUrl(base: string): string
  {
    base + "/api/v2.0/projects"
  }

  function RepositoriesUrl(base: string, project: string): string
  {
    base + "/api/v2.0/projects/" + project + "/repositories"
  }

  function ArtifactsUrl(base: string, project: string, encodedRepository: string): string
  {
    base + "/api/v2.0/projects/" + project + "/repositories/" + encodedRepository + "/artifacts"
  }

  const ProjectsParams: Params := map["with_detail" := PStr("false")]
  const RepositoriesParams: Params := map["page_size" := PInt(50)]
  const ArtifactsParams: Params := map["with_tag" := PStr("true"), "page_size" := PInt(50)]

  /** `s.split('/', 1)`: the text before the first `/` and the text after it, when there is one. */
  function SplitAtSlash(s: string): (r: Option<(string, string)>)
    ensures r.None? <==> '/' !in s
    ensures r.Some? ==> s == r.value.0 + "/" + r.value.1 && '/' !in r.value.0
  {
    if s == [] then None
    else if s[0] == '/' then Some(([], s[1..]))
    else match SplitAtSlash(s[1..])
         case None => None
         case Some((before, after)) => Some(([s[0]] + before, after))
  }

  /**
   * The repository's name inside its project: the text after the first
   * `/` when the text before it is the project's name, and otherwise the
   * full name.
   */
  function RepositoryPathName(fullName: string, project: string): string
  {
    match SplitAtSlash(fullName)
    case Some((first, rest)) => if first == project then rest else fullName
    case None => fullName
  }

  const NoTag := "<none>"

  /** One flattened image: where it lives, and its tag. */
  datatype HarborRecord = HarborRecord(repository: string, tag: string)

  /**
   * Records gathered inside a `try` block: those appended so far, and the
   * exception that ended the block early, if any.
   */
  datatype Partial = Partial(records: seq<HarborRecord>, failure: Option<Failure>)

  /** Running `second` after `first`, unless `first` raised. */
  function Then(first: Partial, second: Partial): (r: Partial)
  {
    if first.failure.Some? then first else Partial(first.records + second.records, second.failure)
  }

  /**
   * One element of an artifact's tag list: a truthy tag object with a
   * non-empty name gives a record; a falsy element or a tag without a
   * name is skipped; a truthy element that is not an object raises
   * `AttributeError` on `.get`.
   */
  function TagRecord(repository: string, tag: Item<TagInfo>): (r: Partial)
  {
    match tag
    case NonObject(v) => if Truthy(v) then Partial([], Some(NotAnObject)) else Partial([], None)
    case Entity(TagInfo(name)) =>
      if name.Present? && name.value != [] then Partial([HarborRecord(repository, name.value)], None)
      else Partial([], None)
  }

  /** The records of a tag list, in order, up to the first exception. */
  function TagRecords(repository: string, tags: seq<Item<TagInfo>>): (r: Partial)
  {
    if tags == [] then Partial([], None)
    else Then(TagRecords(repository, tags[..|tags| - 1]), TagRecord(repository, tags[|tags| - 1]))
  }

  /**
   * Iterating an object yields its keys; the tag test skips a falsy one
   * and calls `.get` on any other, which raises. So an object whose only
   * key is the empty string is iterated without a raise and without a
   * record.
   */
  predicate OnlyEmptyKey(v: Json)
  {
    v.JObject? && v.members.Keys == {""}
  }

  /**
   * One artifact: `.get` on a non-object raises; truthy `tags` give the
   * tag list's records. Iterating a truthy non-list value raises (a
   * string's characters and an object's non-empty keys are truthy strings,
   * which have no `.get`, and a number is not iterable), except for an
   * object whose only key is empty, which gives nothing. Absent, null or
   * empty `tags` give one `<none>` record.
   */
  function ArtifactRecords(repository: string, artifact: Item<Artifact>): (r: Partial)
  {
    match artifact
    case NonObject(_) => Partial([], Some(NotAnObject))
    case Entity(a) =>
      if a.tags.Present? && TagsTruthy(a.tags.value) then
        match a.tags.value
        case TagList(items) => TagRecords(repository, items)
        case NotAList(v) =>
          if OnlyEmptyKey(v) then Partial([], None)
          else Partial([], Some(if v.JString? || v.JObject? then NotAnObject else NotIterable))
      else Partial([HarborRecord(repository, NoTag)], None)
  }

  /** The records of a repository's artifacts, in order, up to the first exception. */
  function ArtifactsRecords(repository: string, artifacts: seq<Item<Artifact>>): (r: Partial)
  {
    if artifacts == [] then Partial([], None)
    else Then(ArtifactsRecords(repository, artifacts[..|artifacts| - 1]),
              ArtifactRecords(repository, artifacts[|artifacts| - 1]))
  }

  /** The answer of the service: the records, or the 500 error with its cause. */
  datatype Served = Images(records: seq<HarborRecord>) | ServerError(cause: Failure)

  /** Running `second` after `first`, unless `first` failed the request. */
  function AndThen(first: Served, second: Served): (r: Served)
  {
    if first.ServerError? then first
    else if second.ServerError? then second
    else Images(first.records + second.records)
  }

  /**
   * One repository of project `project`: `.get` on a non-object fails
   * the request; a nameless repository, or one whose derived name is
   * empty, is skipped; otherwise its artifacts are fetched from the
   * encoded name's URL, and their records are kept up to the first
   * exception, which skips only the rest of this repository.
   */
  function RepositoryImages(h: Harbor, base: string, project: string, repository: Item<Repository>): (r: Served)
  {
    match repository
    case NonObject(_) => ServerError(NotAnObject)
    case Entity(Repository(name)) =>
      if !name.Present? || name.value == [] then Images([])
      else
        var pathName := RepositoryPathName(name.value, project);
        if pathName == [] then Images([])
        else
          var url := ArtifactsUrl(base, project, QuotePlus(pathName));
          match HarborPaginatedResults(h.artifacts, url, ArtifactsParams).outcome
          case Raised(_) => Images([])
          case Fetched(artifacts) => Images(ArtifactsRecords(DisplayRepository(base, name.value), artifacts).records)
  }

  function RepositoriesImages(h: Harbor, base: string, project: string, repositories: seq<Item<Repository>>): (r: Served)
  {
    if repositories == [] then Images([])
    else AndThen(RepositoriesImages(h, base, project, repositories[..|repositories| - 1]),
                 RepositoryImages(h, base, project, repositories[|repositories| - 1]))
  }

  /**
   * One project: `.get` on a non-object fails the request; a nameless
   * project is skipped; a failure to list its repositories fails the
   * request.
   */
  function ProjectImages(h: Harbor, base: string, project: Item<Project>): (r: Served)
  {
    match project
    case NonObject(_) => ServerError(NotAnObject)
    case Entity(Project(name)) =>
      if !name.Present? || name.value == [] then Images([])
      else match HarborPaginatedResults(h.repositories, RepositoriesUrl(base, name.value), RepositoriesParams).outcome
           case Raised(f) => ServerError(f)
           case Fetched(repositories) => RepositoriesImages(h, base, name.value, repositories)
  }

  function ProjectsImages(h: Harbor, base: string, projects: seq<Item<Project>>): (r: Served)
  {
    if projects == [] then Images([])
    else AndThen(ProjectsImages(h, base, projects[..|projects| - 1]), ProjectImages(h, base, projects[|projects| - 1]))
  }

  /** `get_harbor_images()` against registry `h` at address `base`. */
  function HarborImages(h: Harbor, base: string): (r: Served)
  {
    match HarborPaginatedResults(h.projects, ProjectsUrl(base), ProjectsParams).outcome
    case Raised(f) => ServerError(f)
    case Fetched(projects) => ProjectsImages(h, base, projects)
  }

  // ----- exceptions end the loops they interrupt -----

  /** Once a tag raised, the later tags add nothing. */
  lemma {:induction false} TagRecordsAfterFailure(repository: string, tags: seq<Item<TagInfo>>, k: nat)
    requires k <= |tags| && TagRecords(repository, tags[..k]).failure.Some?
    ensures TagRecords(repository, tags) == TagRecords(repository, tags[..k])
    decreases |tags|
  {
    if |tags| > k {
      var init := tags[..|tags| - 1];
      assert init[..k] == tags[..k];
      TagRecordsAfterFailure(repository, init, k);
    } else {
      assert tags[..k] == tags;
    }
  }

  /** Once an artifact raised, the later artifacts add nothing; the records before it are kept. */
  lemma {:induction false} ArtifactsRecordsAfterFailure(repository: string, artifacts: seq<Item<Artifact>>, k: nat)
    requires k <= |artifacts| && ArtifactsRecords(repository, artifacts[..k]).failure.Some?
    ensures ArtifactsRecords(repository, artifacts) == ArtifactsRecords(repository, artifacts[..k])
    decreases |artifacts|
  {
    if |artifacts| > k {
      var init := artifacts[..|artifacts| - 1];
      assert init[..k] == artifacts[..k];
      ArtifactsRecordsAfterFailure(repository, init, k);
    } else {
      assert artifacts[..k] == artifacts;
    }
  }

  /** Once a repository failed the request, the later repositories do not matter. */
  lemma {:induction false} RepositoriesImagesAfterFailure(h: Harbor, base: string, project: string,
                                                          repositories: seq<Item<Repository>>, k: nat)
    requires k <= |repositories| && RepositoriesImages(h, base, project, repositories[..k]).ServerError?
    ensures RepositoriesImages(h, base, project, repositories) == RepositoriesImages(h, base, project, repositories[..k])
    decreases |repositories|
  {
    if |repositories| > k {
      var init := repositories[..|repositories| - 1];
      assert init[..k] == repositories[..k];
      RepositoriesImagesAfterFailure(h, base, project, init, k);
    } else {
      assert repositories[..k] == repositories;
    }
  }

  /** Once a project failed the request, the later projects do not matter. */
  lemma {:induction false} ProjectsImagesAfterFailure(h: Harbor, base: string, projects: seq<Item<Project>>, k: nat)
    requires k <= |projects| && ProjectsImages(h, base, projects[..k]).ServerError?
    ensures ProjectsImages(h, base, projects) == ProjectsImages(h, base, projects[..k])
    decreases |projects|
  {
    if |projects| > k {
      var init := projects[..|projects| - 1];
      assert init[..k] == projects[..k];
      ProjectsImagesAfterFailure(h, base, init, k);
    } else {
      assert projects[..k] == projects;
    }
  }

  // ----- the traversal's loops -----

  /** The loop over one artifact's tag list. */
  method CollectTagRecords(repository: string, tags: seq<Item<TagInfo>>) returns (records: seq<HarborRecord>, failure: Option<Failure>)
    ensures Partial(records, failure) == TagRecords(repository, tags)
  {
    records := [];
    for k := 0 to |tags|
      invariant TagRecords(repository, tags[..k]) == Partial(records, None)
    {
      assert tags[..k + 1][..k] == tags[..k];
      var tag := tags[k];
      match tag {
        case NonObject(v) =>
          if Truthy(v) {
            TagRecordsAfterFailure(repository, tags, k + 1);
            return records, Some(NotAnObject);
          }
        case Entity(info) =>
          if info.name.Present? && info.name.value != [] {
            records := records + [HarborRecord(repository, info.name.value)];
          }
      }
    }
    assert tags[..|tags|] == tags;
    failure := None;
  }

  /** The loop over one repository's artifacts. */
  method CollectArtifactRecords(repository: string, artifacts: seq<Item<Artifact>>)
    returns (records: seq<HarborRecord>, failure: Option<Failure>)
    ensures Partial(records, failure) == ArtifactsRecords(repository, artifacts)
  {
    records := [];
    for k := 0 to |artifacts|
      invariant ArtifactsRecords(repository, artifacts[..k]) == Partial(records, None)
    {
      assert artifacts[..k + 1][..k] == artifacts[..k];
      var artifact := artifacts[k];
      if artifact.NonObject? {
        ArtifactsRecordsAfterFailure(repository, artifacts, k + 1);
        return records, Some(NotAnObject);
      }
      var tags := artifact.value.tags;
      if tags.Present? && TagsTruthy(tags.value) {
        if tags.value.NotAList? {
          var v := tags.value.v;
          if v.JObject? && v.members.Keys == {""} {
            continue;
          }
          ArtifactsRecordsAfterFailure(repository, artifacts, k + 1);
          return records, Some(if v.JString? || v.JObject? then NotAnObject else NotIterable);
        }
        var more, raised := CollectTagRecords(repository, tags.value.items);
        records := records + more;
        if raised.Some? {
          ArtifactsRecordsAfterFailure(repository, artifacts, k + 1);
          return records, raised;
        }
      } else {
        records := records + [HarborRecord(repository, NoTag)];
      }
    }
    assert artifacts[..|artifacts|] == artifacts;
    failure := None;
  }

  /** The loop over one project's repositories. */
  method CollectProjectImages(h: Harbor, base: string, project: string, repositories: seq<Item<Repository>>)
    returns (served: Served)
    ensures served == RepositoriesImages(h, base, project, repositories)
  {
    var images: seq<HarborRecord> := [];
    for k := 0 to |repositories|
      invariant RepositoriesImages(h, base, project, repositories[..k]) == Images(images)
    {
      assert repositories[..k + 1][..k] == repositories[..k];
      var repository := repositories[k];
      if repository.NonObject? {
        RepositoriesImagesAfterFailure(h, base, project, repositories, k + 1);
        return ServerError(NotAnObject);
      }
      var fullName := repository.value.name;
      if !fullName.Present? || fullName.value == [] {
        continue;
      }
      var pathName := RepositoryPathName(fullName.value, project);
      if pathName == [] {
        continue;
      }
      var url := ArtifactsUrl(base, project, QuotePlus(pathName));
      var params := new QueryParams(ArtifactsParams);
      var fetched := GetHarborPaginatedResults(h.artifacts, url, params);
      if fetched.Fetched? {
        var more, _ := CollectArtifactRecords(DisplayRepository(base, fullName.value), fetched.items);
        images := images + more;
      }
    }
    assert repositories[..|repositories|] == repositories;
    served := Images(images);
  }

  /** `get_harbor_images()`: the loop over the projects, and the repositories of each. */
  method GetHarborImages(h: Harbor, base: string) returns (served: Served)
    ensures served == HarborImages(h, base)
  {
    var projectsParams := new QueryParams(ProjectsParams);
    var fetched := GetHarborPaginatedResults(h.projects, ProjectsUrl(base), projectsParams);
    if fetched.Raised? {
      return ServerError(fetched.failure);
    }
    var projects := fetched.items;
    var images: seq<HarborRecord> := [];
    for k := 0 to |projects|
      invariant ProjectsImages(h, base, projects[..k]) == Images(images)
    {
      assert projects[..k + 1][..k] == projects[..k];
      var more := CollectOneProject(h, base, projects[k]);
      if more.ServerError? {
        ProjectsImagesAfterFailure(h, base, projects, k + 1);
        return more;
      }
      images := images + more.records;
    }
    assert projects[..|projects|] == projects;
    served := Images(images);
  }

  /** The body of the projects loop: one project's repositories, and their images. */
  method CollectOneProject(h: Harbor, base: string, project: Item<Project>) returns (served: Served)
    ensures served == ProjectImages(h, base, project)
  {
    if project.NonObject? {
      return ServerError(NotAnObject);
    }
    var name := project.value.name;
    if !name.Present? || name.value == [] {
      return Images([]);
    }
    var reposParams := new QueryParams(RepositoriesParams);
    var repositories := GetHarborPaginatedResults(h.repositories, RepositoriesUrl(base, name.value), reposParams);
    if repositories.Raised? {
      return ServerError(repositories.failure);
    }
    served := CollectProjectImages(h, base, name.value, repositories.items);
  }

  // ----- properties of the traversal -----

  /** An artifact whose `tags` is absent, null or empty gives exactly one `<none>` record. */
  lemma UntaggedArtifactGivesNoneRecord(repository: string, a: Artifact)
    requires !a.tags.Present? || !TagsTruthy(a.tags.value)
    ensures ArtifactRecords(repository, Entity(a)) == Partial([HarborRecord(repository, NoTag)], None)
  {
  }

  /** The names of the tags that give records: those of tag objects with a non-empty name, in order. */
  function TagNames(tags: seq<Item<TagInfo>>): (names: seq<string>)
    ensures forall i :: 0 <= i < |names| ==> names[i] != []
  {
    if tags == [] then []
    else
      var first := if tags[0].Entity? && tags[0].value.name.Present? && tags[0].value.name.value != []
                   then [tags[0].value.name.value] else [];
      first + TagNames(tags[1..])
  }

  lemma {:induction false} TagNamesAppend(tags: seq<Item<TagInfo>>, tag: Item<TagInfo>)
    ensures TagNames(tags + [tag]) == TagNames(tags) + TagNames([tag])
  {
    if tags == [] {
      assert tags + [tag] == [tag];
    } else {
      assert (tags + [tag])[0] == tags[0];
      assert (tags + [tag])[1..] == tags[1..] + [tag];
      TagNamesAppend(tags[1..], tag);
    }
  }

  /** The records for a list of names, in order. */
  function RecordsFor(repository: string, names: seq<string>): (r: seq<HarborRecord>)
    ensures |r| == |names| && forall i :: 0 <= i < |names| ==> r[i] == HarborRecord(repository, names[i])
  {
    seq(|names|, i requires 0 <= i < |names| => HarborRecord(repository, names[i]))
  }

  /**
   * A tag list with no truthy non-object element raises nothing, and
   * gives one record per named tag, in order; falsy elements and
   * nameless tags give none.
   */
  lemma {:induction false} TagRecordsAreNamedTags(repository: string, tags: seq<Item<TagInfo>>)
    requires forall i :: 0 <= i < |tags| ==> tags[i].NonObject? ==> !Truthy(tags[i].v)
    ensures TagRecords(repository, tags) == Partial(RecordsFor(repository, TagNames(tags)), None)
  {
    if tags != [] {
      var init := tags[..|tags| - 1];
      var last := tags[|tags| - 1];
      TagRecordsAreNamedTags(repository, init);
      assert init + [last] == tags;
      TagNamesAppend(init, last);
      assert TagNames([last]) == (if last.Entity? && last.value.name.Present? && last.value.name.value != []
                                  then [last.value.name.value] else []) + TagNames([]);
      assert RecordsFor(repository, TagNames(init) + TagNames([last]))
             == RecordsFor(repository, TagNames(init)) + RecordsFor(repository, TagNames([last]));
    }
  }

  /**
   * A non-empty tag list holding only nulls and nameless tags is truthy,
   * so the artifact gets no `<none>` record, and it gives no record at all.
   */
  lemma NamelessTagsGiveNoRecord(repository: string, a: Artifact)
    requires a.tags.Present? && a.tags.value.TagList? && a.tags.value.items != []
    requires forall i :: 0 <= i < |a.tags.value.items| ==>
               a.tags.value.items[i] == NonObject(JNull) || a.tags.value.items[i] == Entity(TagInfo(Absent))
                 || a.tags.value.items[i] == Entity(TagInfo(Null))
    ensures ArtifactRecords(repository, Entity(a)) == Partial([], None)
  {
    var items := a.tags.value.items;
    TagRecordsAreNamedTags(repository, items);
    assert TagNames(items) == [] by {
      if TagNames(items) != [] {
        TagNamesAreFromTags(items, TagNames(items)[0]);
        assert false;
      }
    }
  }

  /**
   * Truthy `tags` that are not a list give no record; they raise unless
   * they are an object whose only key is empty, and then the loop goes on
   * to the next artifact.
   */
  lemma NonListTagsGiveNoRecord(repository: string, a: Artifact, v: NonListJson)
    requires a.tags == Present(NotAList(v)) && Truthy(v)
    ensures ArtifactRecords(repository, Entity(a)).records == []
    ensures ArtifactRecords(repository, Entity(a)).failure.None? <==> v.JObject? && v.members.Keys == {""}
    ensures ArtifactRecords(repository, Entity(a)).failure.Some? ==>
              ArtifactRecords(repository, Entity(a)).failure.value == (if v.JString? || v.JObject? then NotAnObject else NotIterable)
  {
  }

  /**
   * The artifact loop of a repository stops early exactly when one of its
   * artifacts raises; an artifact that raises nothing lets the loop go on.
   */
  lemma {:induction false} ArtifactsRecordsRaiseIff(repository: string, artifacts: seq<Item<Artifact>>)
    ensures ArtifactsRecords(repository, artifacts).failure.Some?
            <==> exists k :: 0 <= k < |artifacts| && ArtifactRecords(repository, artifacts[k]).failure.Some?
  {
    if artifacts != [] {
      var init := artifacts[..|artifacts| - 1];
      ArtifactsRecordsRaiseIff(repository, init);
      assert forall k :: 0 <= k < |init| ==> init[k] == artifacts[k];
      if ArtifactRecords(repository, artifacts[|artifacts| - 1]).failure.Some? {
        assert ArtifactsRecords(repository, artifacts).failure.Some?;
      }
    }
  }

  /** Every name `TagNames` lists is the non-empty name of some tag object of the list. */
  lemma {:induction false} TagNamesAreFromTags(tags: seq<Item<TagInfo>>, name: string)
    requires name in TagNames(tags)
    ensures exists i :: 0 <= i < |tags| && tags[i] == Entity(TagInfo(Present(name)))
  {
    if tags != [] {
      if tags[0].Entity? && tags[0].value.name.Present? && tags[0].value.name.value != [] && name == tags[0].value.name.value {
        assert tags[0] == Entity(TagInfo(Present(name)));
      } else {
        TagNamesAreFromTags(tags[1..], name);
        var i :| 0 <= i < |tags[1..]| && tags[1..][i] == Entity(TagInfo(Present(name)));
        assert tags[i + 1] == tags[1..][i];
      }
    }
  }

  /** Every record of a repository's artifacts names that repository and has a non-empty tag. */
  lemma {:induction false} ArtifactsRecordsShape(repository: string, artifacts: seq<Item<Artifact>>)
    ensures forall i :: 0 <= i < |ArtifactsRecords(repository, artifacts).records| ==>
              ArtifactsRecords(repository, artifacts).records[i].repository == repository
              && ArtifactsRecords(repository, artifacts).records[i].tag != []
  {
    if artifacts != [] {
      ArtifactsRecordsShape(repository, artifacts[..|artifacts| - 1]);
      ArtifactRecordsShape(repository, artifacts[|artifacts| - 1]);
    }
  }

  lemma ArtifactRecordsShape(repository: string, artifact: Item<Artifact>)
    ensures forall i :: 0 <= i < |ArtifactRecords(repository, artifact).records| ==>
              ArtifactRecords(repository, artifact).records[i].repository == repository
              && ArtifactRecords(repository, artifact).records[i].tag != []
  {
    if artifact.Entity? && artifact.value.tags.Present? && artifact.value.tags.value.TagList? {
      TagRecordsShape(repository, artifact.value.tags.value.items);
    }
  }

  lemma {:induction false} TagRecordsShape(repository: string, tags: seq<Item<TagInfo>>)
    ensures forall i :: 0 <= i < |TagRecords(repository, tags).records| ==>
              TagRecords(repository, tags).records[i].repository == repository
              && TagRecords(repository, tags).records[i].tag != []
  {
    if tags != [] {
      TagRecordsShape(repository, tags[..|tags| - 1]);
    }
  }

  /** A record's repository is the registry host, `/`, then a non-empty name; its tag is not empty. */
  predicate WellFormedRecord(base: string, r: HarborRecord)
  {
    var prefix := StripScheme(base) + "/";
    |r.repository| > |prefix| && r.repository[..|prefix|] == prefix && r.tag != []
  }

  lemma RepositoryImagesShape(h: Harbor, base: string, project: string, repository: Item<Repository>)
    ensures RepositoryImages(h, base, project, repository).Images? ==>
              forall i :: 0 <= i < |RepositoryImages(h, base, project, repository).records| ==>
                WellFormedRecord(base, RepositoryImages(h, base, project, repository).records[i])
  {
    if repository.Entity? && repository.value.name.Present? && repository.value.name.value != [] {
      var name := repository.value.name.value;
      var pathName := RepositoryPathName(name, project);
      if pathName != [] {
        var url := ArtifactsUrl(base, project, QuotePlus(pathName));
        var outcome := HarborPaginatedResults(h.artifacts, url, ArtifactsParams).outcome;
        if outcome.Fetched? {
          ArtifactsRecordsShape(DisplayRepository(base, name), outcome.items);
        }
      }
    }
  }

  lemma {:induction false} RepositoriesImagesShape(h: Harbor, base: string, project: string, repositories: seq<Item<Repository>>)
    ensures RepositoriesImages(h, base, project, repositories).Images? ==>
              forall i :: 0 <= i < |RepositoriesImages(h, base, project, repositories).records| ==>
                WellFormedRecord(base, RepositoriesImages(h, base, project, repositories).records[i])
  {
    if repositories != [] {
      RepositoriesImagesShape(h, base, project, repositories[..|repositories| - 1]);
      RepositoryImagesShape(h, base, project, repositories[|repositories| - 1]);
    }
  }

  lemma {:induction false} ProjectsImagesShape(h: Harbor, base: string, projects: seq<Item<Project>>)
    ensures ProjectsImages(h, base, projects).Images? ==>
              forall i :: 0 <= i < |ProjectsImages(h, base, projects).records| ==>
                WellFormedRecord(base, ProjectsImages(h, base, projects).records[i])
  {
    if projects != [] {
      ProjectsImagesShape(h, base, projects[..|projects| - 1]);
      var last := projects[|projects| - 1];
      if last.Entity? && last.value.name.Present? && last.value.name.value != [] {
        var name := last.value.name.value;
        var outcome := HarborPaginatedResults(h.repositories, RepositoriesUrl(base, name), RepositoriesParams).outcome;
        if outcome.Fetched? {
          RepositoriesImagesShape(h, base, name, outcome.items);
        }
      }
    }
  }

  /**
   * Every record the service returns has as `repository` the registry's
   * host (its address without the scheme), `/`, and a non-empty full
   * repository name, and has a non-empty tag.
   */
  lemma HarborImagesRecordsShape(h: Harbor, base: string)
    ensures HarborImages(h, base).Images? ==>
              forall i :: 0 <= i < |HarborImages(h, base).records| ==> WellFormedRecord(base, HarborImages(h, base).records[i])
  {
    var outcome := HarborPaginatedResults(h.projects, ProjectsUrl(base), ProjectsParams).outcome;
    if outcome.Fetched? {
      ProjectsImagesShape(h, base, outcome.items);
    }
  }

  /**
   * Error scope within a project: a repository fails the whole request
   * exactly when it is not an object; every other failure (an artifacts
   * fetch that raises, a bad artifact or tag) skips at most the rest of
   * that repository.
   */
  lemma {:induction false} RepositoriesServerErrorIff(h: Harbor, base: string, project: string, repositories: seq<Item<Repository>>)
    ensures RepositoriesImages(h, base, project, repositories).ServerError? <==>
              exists i :: 0 <= i < |repositories| && repositories[i].NonObject?
  {
    if repositories != [] {
      var init := repositories[..|repositories| - 1];
      RepositoriesServerErrorIff(h, base, project, init);
      if exists i :: 0 <= i < |repositories| && repositories[i].NonObject? {
        var i :| 0 <= i < |repositories| && repositories[i].NonObject?;
        if i < |init| {
          assert init[i].NonObject?;
        }
      }
      if exists i :: 0 <= i < |init| && init[i].NonObject? {
        var i :| 0 <= i < |init| && init[i].NonObject?;
        assert repositories[i] == init[i];
      }
    }
  }

  /**
   * The whole request fails exactly when listing the projects fails, or
   * some project fails it: it is not an object, listing its repositories
   * raises, or one of its repositories is not an object.
   */
  lemma {:induction false} ProjectsServerErrorIff(h: Harbor, base: string, projects: seq<Item<Project>>)
    ensures ProjectsImages(h, base, projects).ServerError? <==>
              exists i :: 0 <= i < |projects| && ProjectImages(h, base, projects[i]).ServerError?
  {
    if projects != [] {
      var init := projects[..|projects| - 1];
      ProjectsServerErrorIff(h, base, init);
      if exists i :: 0 <= i < |projects| && ProjectImages(h, base, projects[i]).ServerError? {
        var i :| 0 <= i < |projects| && ProjectImages(h, base, projects[i]).ServerError?;
        if i < |init| {
          assert init[i] == projects[i];
        }
      }
      if exists i :: 0 <= i < |init| && ProjectImages(h, base, init[i]).ServerError? {
        var i :| 0 <= i < |init| && ProjectImages(h, base, init[i]).ServerError?;
        assert projects[i] == init[i];
      }
    }
  }

  /** What makes one project fail the request. */
  lemma ProjectServerErrorIff(h: Harbor, base: string, project: Item<Project>)
    ensures ProjectImages(h, base, project).ServerError? <==>
              || project.NonObject?
              || (project.value.name.Present? && project.value.name.value != [] &&
                  var outcome := HarborPaginatedResults(h.repositories, RepositoriesUrl(base, project.value.name.value), RepositoriesParams).outcome;
                  || outcome.Raised?
                  || exists i :: 0 <= i < |outcome.items| && outcome.items[i].NonObject?)
  {
    if project.Entity? && project.value.name.Present? && project.value.name.value != [] {
      var name := project.value.name.value;
      var outcome := HarborPaginatedResults(h.repositories, RepositoriesUrl(base, name), RepositoriesParams).outcome;
      if outcome.Fetched? {
        RepositoriesServerErrorIff(h, base, name, outcome.items);
      }
    }
  }

  /** A repository whose artifacts cannot be fetched is skipped; the request goes on. */
  lemma ArtifactFetchFailureSkipsRepository(h: Harbor, base: string, project: string, name: string)
    requires name != [] && RepositoryPathName(name, project) != []
    requires HarborPaginatedResults(h.artifacts, ArtifactsUrl(base, project, QuotePlus(RepositoryPathName(name, project))),
                                    ArtifactsParams).outcome.Raised?
    ensures RepositoryImages(h, base, project, Entity(Repository(Present(name)))) == Images([])
  {
  }

  /**
   * Name derivation: for a project name without `/`, a full name that
   * starts with the project's name and `/` loses that prefix, and any
   * other full name is kept whole.
   */
  lemma DerivedName(fullName: string, project: string)
    requires '/' !in project
    ensures |fullName| > |project| && fullName[..|project| + 1] == project + "/" ==>
              RepositoryPathName(fullName, project) == fullName[|project| + 1..]
    ensures !(|fullName| > |project| && fullName[..|project| + 1] == project + "/") ==>
              RepositoryPathName(fullName, project) == fullName
  {
    if |fullName| > |project| && fullName[..|project| + 1] == project + "/" {
      SplitAtSlashOfPrefix(fullName, project);
    } else if SplitAtSlash(fullName).Some? {
      var first, rest := SplitAtSlash(fullName).value.0, SplitAtSlash(fullName).value.1;
      assert fullName == first + "/" + rest;
      assert |fullName| > |first| && fullName[..|first| + 1] == first + "/";
    }
  }

  /** A slash-free text followed by `/` at the start of `s` is what `split('/', 1)` cuts off. */
  lemma {:induction false} SplitAtSlashOfPrefix(s: string, a: string)
    requires '/' !in a && |s| > |a| && s[..|a| + 1] == a + "/"
    ensures SplitAtSlash(s) == Some((a, s[|a| + 1..]))
  {
    if a == [] {
      assert s[0] == '/';
    } else {
      var t := s[1..];
      assert s[0] == a[0] && s[0] != '/';
      assert t[..|a|] == a[1..] + "/";
      SplitAtSlashOfPrefix(t, a[1..]);
      assert t[|a|..] == s[|a| + 1..];
      assert [s[0]] + a[1..] == a;
    }
  }

  /** The derived name fills exactly one path segment of the artifacts URL. */
  lemma ArtifactsUrlSegment(base: string, project: string, pathName: string)
    ensures var segment := QuotePlus(pathName);
            && ArtifactsUrl(base, project, segment) == base + "/api/v2.0/projects/" + project + "/repositories/" + segment + "/artifacts"
            && forall i :: 0 <= i < |segment| ==> segment[i] != '/'
  {
    QuotePlusIsOneSegment(pathName);
  }

  /** An `https://` scheme in front of a host that mentions no scheme is removed, leaving the host. */
  lemma StripSchemeOfHost(host: string)
    requires !Contains(host, "https://") && !Contains(host, "http://")
    ensures StripScheme("https://" + host) == host
  {
    var s := "https://" + host;
    assert s[..8] == "https://" && s[8..] == host;
    RemoveAllAbsent(host, "https://");
    RemoveAllAbsent(host, "http://");
  }
}
