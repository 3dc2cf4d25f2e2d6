/**
 * What a Harbor registry answers, as the fetchers and traversals see it:
 * paged JSON responses whose list elements are read as projects,
 * repositories or artifacts, and the query-parameter dictionary the
 * fetchers write the page number into.
 */
module Registry {
  import opened Wrappers
  import opened Json

  /** A query-parameter value. */
  datatype Param = PInt(n: int) | PStr(s: string)

  type Params = map<string, Param>

  /** A key of a JSON object: missing, present with null, or present with a value. */
  datatype Field<T> = Absent | Null | Present(value: T)

  /**
   * An element of a JSON list: an object, read as an entity, or some other
   * JSON value (null, a number, a string, a list) on which `.get` and
   * `[key]` raise.
   */
  datatype Item<T> = Entity(value: T) | NonObject(v: NonObjectJson)

  datatype Project = Project(name: Field<string>)

  datatype Repository = Repository(name: Field<string>)

  /** A tag object; an empty object and one without `name` behave alike. */
  datatype TagInfo = TagInfo(name: Field<string>)

  /** An artifact's `tags` value: a list, or some other JSON value. */
  datatype Tags = TagList(items: seq<Item<TagInfo>>) | NotAList(v: NonListJson)

  datatype Artifact = Artifact(digest: Field<Json>, tags: Field<Tags>, size: Field<Json>)

  /** Python truthiness of a `tags` value. */
  predicate TagsTruthy(t: Tags)
  {
    match t
    case TagList(items) => items != []
    case NotAList(v) => Truthy(v)
  }

  /** The keys of a decoded JSON object, in document order: no key twice. */
  type ObjectKeys = keys: seq<string> | forall i, j :: 0 <= i < j < |keys| ==> keys[i] != keys[j]

  /** The `data` key of an object body. */
  datatype DataField<T> = NoData | DataList(items: seq<Item<T>>) | DataOther

  /**
   * A decoded response body: a JSON list; a JSON object, given by its
   * keys in document order and its `data` key; or any other JSON value
   * (a string, a number, a boolean or null).
   */
  datatype PageBody<T> =
    | ListBody(items: seq<Item<T>>)
    | ObjectBody(keys: ObjectKeys, data: DataField<T>)
    | ScalarBody(v: ScalarJson)

  /**
   * Why a request raised: an HTTP error status (from `raise_for_status`),
   * a transport failure (connection, timeout and other request errors), or
   * a body that is not valid JSON.
   */
  datatype RequestFailure = HttpStatus(code: int) | ConnectionFailed | InvalidJson

  /** One answer: a decoded body with the optional `x-total-count` header, or a failure. */
  datatype Response<T> = Ok(body: PageBody<T>, totalCount: Option<string>) | Err(failure: RequestFailure)

  /**
   * A paged endpoint: for a URL and the query parameters other than
   * `page`, the answers to pages 1, 2, ... in order. Every page past the
   * listed ones answers an empty list.
   */
  type Server<T> = (string, Params) -> seq<Response<T>>

  /** The answer to the page numbered `page` (from 1). */
  function PageAnswer<T>(server: Server<T>, url: string, query: Params, page: nat): (r: Response<T>)
    ensures page == 0 || page > |server(url, query)| ==> r == Ok(ListBody([]), None)
  {
    var pages := server(url, query);
    if 1 <= page <= |pages| then pages[page - 1] else Ok(ListBody([]), None)
  }

  /** The answer to a request whose parameters hold a page number. */
  function Respond<T>(server: Server<T>, url: string, params: Params): (r: Response<T>)
    requires "page" in params && params["page"].PInt? && params["page"].n >= 1
  {
    PageAnswer(server, url, params - {"page"}, params["page"].n)
  }

  /**
   * The parameters every request of a paging loop shares: the caller's,
   * with `page_size` forced to `size` and `page` set aside.
   */
  function PagedQuery(params: Params, size: int): (q: Params)
    ensures "page" !in q && "page_size" in q && q["page_size"] == PInt(size)
    ensures forall k :: k in params && k != "page" && k != "page_size" ==> k in q && q[k] == params[k]
    ensures q.Keys == params.Keys - {"page"} + {"page_size"}
  {
    (params - {"page"})["page_size" := PInt(size)]
  }

  /** The parameters of the request for page `page`. */
  function RequestParams(query: Params, page: nat): (p: Params)
    ensures "page" in p && p["page"] == PInt(page)
    ensures "page" !in query ==> p - {"page"} == query
  {
    query["page" := PInt(page)]
  }

  /**
   * Writing the page number and then the page size into a dictionary
   * whose shared part is `query` gives the request for that page, and
   * leaves the shared part as it was.
   */
  lemma NextRequest(entries: Params, size: int, query: Params, page: nat)
    requires PagedQuery(entries, size) == query
    ensures var next := entries["page" := PInt(page)]["page_size" := PInt(size)];
            next == RequestParams(query, page) && PagedQuery(next, size) == query
  {
    var next := entries["page" := PInt(page)]["page_size" := PInt(size)];
    assert next == RequestParams(query, page);
    assert PagedQuery(next, size) == query;
  }

  /** The three paged endpoints of a registry. */
  datatype Harbor = Harbor(projects: Server<Project>, repositories: Server<Repository>, artifacts: Server<Artifact>)

  /** A Python dict of query parameters, which the fetchers update in place. */
  class QueryParams {
    var entries: Params

    constructor (entries: Params)
      ensures this.entries == entries
    {
      this.entries := entries;
    }
  }

  /**
   * Why a traversal gave up: a request failure passed on, an
   * `x-total-count` header that `int()` rejects, iterating a value that
   * is not iterable (a `None` result, a number), subscripting or calling
   * `.get` on a value that is not an object, or a missing key.
   */
  datatype Failure =
    | Request(f: RequestFailure)
    | BadTotalCount
    | NotIterable
    | NotAnObject
    | MissingKey(key: string)
}
