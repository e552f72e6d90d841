/** `get_wiki_image` (flower_app.py:48-84): find an illustration for a flower
    name through the Wikipedia search API, querying "<name> 植物" first and the
    bare name only when that finds no page. The HTTP exchange is an oracle
    `fetch` from the request sent to the response received. */
module WikiImage {
  import opened Common

  const ApiUrl: string := "https://ja.wikipedia.org/w/api.php"
  const UserAgent: string := "FlowerApp/1.0 (streamlit-app-learning)"
  const TimeoutSeconds: nat := 5
  /** Appended to the name in the first search, to favour botanical articles. */
  const PlantQualifier: string := " 植物"

  /** The query parameters of flower_app.py:56-64 for a given search term. */
  function SearchParams(term: string): map<string, string>
  {
    map["action" := "query", "format" := "json", "generator" := "search",
        "gsrsearch" := term, "gsrlimit" := "1", "prop" := "pageimages", "piprop" := "original"]
  }

  /** One `requests.get(url, params=..., headers=..., timeout=...)`. */
  datatype Request = Request(url: string, params: map<string, string>, userAgent: string, timeout: nat)

  function SearchRequest(params: map<string, string>): Request
  {
    Request(ApiUrl, params, UserAgent, TimeoutSeconds)
  }

  /** The parts of the decoded JSON the code looks at: `query.pages`, a map
      from page id to page (kept in its iteration order), and on a page
      `original.source`. A missing object is None. */
  datatype Original = Original(source: Option<string>)
  datatype Page = Page(original: Option<Original>)
  datatype PageEntry = PageEntry(id: string, page: Page)
  datatype QueryPart = QueryPart(pages: Option<seq<PageEntry>>)

  /** `response.json()` and the `.get` calls on it either raise (the body is
      not JSON, or not an object where one is expected), with the exception's
      text, or give the parts above. */
  datatype Body = Unreadable(detail: string) | Json(query: Option<QueryPart>)

  /** What a request gives: an exception raised by `requests.get` (timeout,
      connection failure) with its text, or a response with its status code,
      the text of the HTTPError `raise_for_status` would raise for it, and its body. */
  datatype Response = Raised(detail: string) | Received(status: int, statusError: string, body: Body)

  /** `raise_for_status` raises for client and server error codes. */
  predicate IsHttpError(status: int)
  {
    400 <= status < 600
  }

  /** `data.get("query", {}).get("pages", {})`: no pages when either is missing. */
  function PagesOf(body: Body): seq<PageEntry>
    requires body.Json?
  {
    match body.query
    case None => []
    case Some(q) => match q.pages case None => [] case Some(ps) => ps
  }

  /** Why no image was returned. */
  datatype Reason = EmptyName | NoSearchResults | NoImage | CommError(detail: string) | UnknownError

  /** The outcome of a lookup: an image URL, or the reason there is none. */
  datatype Lookup = Found(url: string) | NotFound(reason: Reason)

  /** The message text returned with each reason. */
  function Message(reason: Reason): string
  {
    match reason
    case EmptyName => "名前が空です"
    case NoSearchResults => "検索結果が0件でした"
    case NoImage => "画像が見つかりませんでした"
    case CommError(detail) => CommErrorPrefix + detail
    case UnknownError => "不明なエラー"
  }

  const CommErrorPrefix: string := "通信エラー: "

  /** What `str(KeyError('source'))` gives. */
  const MissingSourceDetail: string := "'source'"

  /** The pair `(url, message)` the function returns. */
  function ToPair(lookup: Lookup): (p: (Option<string>, Option<string>))
    // exactly one side is present
    ensures p.0.Some? != p.1.Some?
    ensures p.0.Some? <==> lookup.Found?
    ensures p.0.Some? ==> p.0.value == lookup.url
    ensures p.1.Some? ==> p.1.value == Message(lookup.reason)
  {
    match lookup
    case Found(url) => (Some(url), None)
    case NotFound(reason) => (None, Some(Message(reason)))
  }

  /** The `for page_id in pages` loop of flower_app.py:77-81: it returns on its
      first iteration, so only the first page decides; without any page it
      falls through to "不明なエラー". */
  function PagesDecision(pages: seq<PageEntry>): (l: Lookup)
    ensures pages == [] <==> l == NotFound(UnknownError)
    ensures pages != [] ==> (l.Found? <==> pages[0].page.original.Some? && pages[0].page.original.value.source.Some?)
    ensures pages != [] && pages[0].page.original.None? ==> l == NotFound(NoImage)
    // the URL returned is the first page's `original.source`
    ensures l.Found? ==> pages[0].page.original == Some(Original(Some(l.url)))
    // an "original" without "source" raises KeyError('source')
    ensures pages != [] && pages[0].page.original.Some? && pages[0].page.original.value.source.None? ==>
              l == NotFound(CommError(MissingSourceDetail))
  {
    if pages == [] then NotFound(UnknownError)
    else match pages[0].page.original
      case None => NotFound(NoImage)
      case Some(o) => match o.source
        case Some(url) => Found(url)
        case None => NotFound(CommError(MissingSourceDetail))
  }

  /** The bare-name request: its status is not checked (no `raise_for_status`). */
  function FallbackDecision(response: Response): Lookup
  {
    match response
    case Raised(detail) => NotFound(CommError(detail))
    case Received(_, _, body) =>
      match body
      case Unreadable(detail) => NotFound(CommError(detail))
      case Json(_) => if PagesOf(body) == [] then NotFound(NoSearchResults) else PagesDecision(PagesOf(body))
  }

  /** The request for "<name> 植物". */
  function FirstRequest(name: string): Request
  {
    SearchRequest(SearchParams(name + PlantQualifier))
  }

  /** The retry: the same parameters with the bare name as search term. */
  function RetryRequest(name: string): Request
  {
    SearchRequest(SearchParams(name + PlantQualifier)["gsrsearch" := name])
  }

  /** The first response passed `raise_for_status` and its body decoded. */
  predicate ReadWithoutError(response: Response)
  {
    response.Received? && !IsHttpError(response.status) && response.body.Json?
  }

  /** The first response was read and found no page: the case that triggers the retry. */
  predicate FoundNoPages(response: Response)
  {
    ReadWithoutError(response) && PagesOf(response.body) == []
  }

  /** A response whose body decoded (its status is not looked at). */
  predicate Decoded(response: Response)
  {
    response.Received? && response.body.Json?
  }

  /** What `get_wiki_image(name)` returns together with the requests it sends, in order. */
  datatype Resolution = Resolution(lookup: Lookup, requests: seq<Request>)

  function Resolve(name: string, fetch: Request -> Response): (r: Resolution)
    // an empty name is refused before any request
    ensures r.lookup == NotFound(EmptyName) <==> name == ""
    ensures name == "" ==> r.requests == []
    // otherwise the first request searches for "<name> 植物"
    ensures name != "" ==> 1 <= |r.requests| <= 2 && r.requests[0] == FirstRequest(name)
    // a second request, for the bare name, is sent only after the first found no page
    ensures |r.requests| == 2 ==> FoundNoPages(fetch(r.requests[0])) && r.requests[1] == RetryRequest(name)
    // pages found by the first search decide, without a retry
    ensures name != "" && ReadWithoutError(fetch(FirstRequest(name))) && PagesOf(fetch(FirstRequest(name)).body) != [] ==>
              |r.requests| == 1 && r.lookup == PagesDecision(PagesOf(fetch(FirstRequest(name)).body))
    // pages found by the retry decide
    ensures |r.requests| == 2 && Decoded(fetch(r.requests[1])) && PagesOf(fetch(r.requests[1]).body) != [] ==>
              r.lookup == PagesDecision(PagesOf(fetch(r.requests[1]).body))
    // "no results" exactly when the bare-name retry was decoded and found no page either
    ensures r.lookup == NotFound(NoSearchResults) <==>
              |r.requests| == 2 && Decoded(fetch(r.requests[1])) && PagesOf(fetch(r.requests[1]).body) == []
    // an image URL is the source of the first page of the last response
    ensures r.lookup.Found? ==> var last := fetch(r.requests[|r.requests| - 1]);
              && Decoded(last) && PagesOf(last.body) != []
              && PagesOf(last.body)[0].page.original == Some(Original(Some(r.lookup.url)))
  {
    if name == "" then Resolution(NotFound(EmptyName), [])
    else
      var first := FirstRequest(name);
      match fetch(first)
      case Raised(detail) => Resolution(NotFound(CommError(detail)), [first])
      case Received(status, statusError, body) =>
        if IsHttpError(status) then Resolution(NotFound(CommError(statusError)), [first])
        else match body
          case Unreadable(detail) => Resolution(NotFound(CommError(detail)), [first])
          case Json(_) =>
            if PagesOf(body) != [] then Resolution(PagesDecision(PagesOf(body)), [first])
            else
              var second := SearchRequest(first.params["gsrsearch" := name]);
              Resolution(FallbackDecision(fetch(second)), [first, second])
  }

  /** The closing `return None, "不明なエラー"` (flower_app.py:84) is never reached. */
  lemma UnknownErrorUnreachable(name: string, fetch: Request -> Response)
    ensures Resolve(name, fetch).lookup != NotFound(UnknownError)
  {
  }

  /** The retry is sent exactly when the name is not empty and the first search
      was read without error and found no page. */
  lemma RetryIff(name: string, fetch: Request -> Response)
    ensures |Resolve(name, fetch).requests| == 2 <==>
            name != "" && FoundNoPages(fetch(FirstRequest(name)))
  {
  }

  /** Every exception of either request ends as a communication error carrying
      its text, never escapes: `requests.get` raising, `raise_for_status` on the
      first response, and `response.json()` on either response. */
  lemma RequestErrors(name: string, fetch: Request -> Response)
    requires name != ""
    ensures var first, second, l := fetch(FirstRequest(name)), fetch(RetryRequest(name)), Resolve(name, fetch).lookup;
            && (first.Raised? ==> l == NotFound(CommError(first.detail)))
            && (first.Received? && IsHttpError(first.status) ==> l == NotFound(CommError(first.statusError)))
            && (first.Received? && !IsHttpError(first.status) && first.body.Unreadable? ==>
                  l == NotFound(CommError(first.body.detail)))
            && (FoundNoPages(first) && second.Raised? ==> l == NotFound(CommError(second.detail)))
            && (FoundNoPages(first) && second.Received? && second.body.Unreadable? ==>
                  l == NotFound(CommError(second.body.detail)))
  {
  }

  /** The fallback path: no page for "<name> 植物", an image on the first page for
      the bare name (whatever the status of that second response) gives that image. */
  lemma FallbackSucceeds(name: string, fetch: Request -> Response, url: string)
    requires name != ""
    requires FoundNoPages(fetch(FirstRequest(name)))
    requires var second := fetch(RetryRequest(name));
             second.Received? && second.body.Json? && PagesOf(second.body) != []
             && PagesOf(second.body)[0].page.original == Some(Original(Some(url)))
    ensures Resolve(name, fetch).lookup == Found(url)
  {
  }

  /** Only the first page decides: the pages after it never change the outcome. */
  lemma OnlyFirstPageMatters(p: PageEntry, rest1: seq<PageEntry>, rest2: seq<PageEntry>)
    ensures PagesDecision([p] + rest1) == PagesDecision([p] + rest2)
  {
  }

  /** The decision on the pages of one response, written as the loop of flower_app.py:77-84. */
  method DecidePages(pages: seq<PageEntry>) returns (image: Option<string>, error: Option<string>)
    ensures (image, error) == ToPair(PagesDecision(pages))
  {
    for i := 0 to |pages|
      invariant i == 0
    {
      match pages[i].page.original {
        case Some(original) =>
          match original.source {
            case Some(source) =>
              return Some(source), None;
            case None =>
              // `pages[page_id]["original"]["source"]` raised KeyError
              return None, Some(CommErrorPrefix + MissingSourceDetail);
          }
        case None =>
          return None, Some("画像が見つかりませんでした");
      }
    }
    return None, Some("不明なエラー");
  }

  /** `get_wiki_image` as the code runs it: the parameter map is updated in
      place for the retry. Also returns the requests sent, in order. */
  method GetWikiImage(name: string, fetch: Request -> Response)
    returns (image: Option<string>, error: Option<string>, sent: seq<Request>)
    ensures (image, error) == ToPair(Resolve(name, fetch).lookup)
    ensures sent == Resolve(name, fetch).requests
  {
    sent := [];
    if name == "" {
      return None, Some("名前が空です"), sent;
    }
    var params := SearchParams(name + PlantQualifier);
    var request := SearchRequest(params);
    sent := sent + [request];
    var response := fetch(request);
    if response.Raised? {
      return None, Some(CommErrorPrefix + response.detail), sent;
    }
    if IsHttpError(response.status) {
      return None, Some(CommErrorPrefix + response.statusError), sent;
    }
    if response.body.Unreadable? {
      return None, Some(CommErrorPrefix + response.body.detail), sent;
    }
    var pages := PagesOf(response.body);
    if |pages| == 0 {
      params := params["gsrsearch" := name];
      request := SearchRequest(params);
      sent := sent + [request];
      response := fetch(request);
      if response.Raised? {
        return None, Some(CommErrorPrefix + response.detail), sent;
      }
      if response.body.Unreadable? {
        return None, Some(CommErrorPrefix + response.body.detail), sent;
      }
      pages := PagesOf(response.body);
    }
    if |pages| == 0 {
      return None, Some("検索結果が0件でした"), sent;
    }
    image, error := DecidePages(pages);
  }
}
