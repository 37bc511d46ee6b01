/** `code_scanning_puller.py`: one page of an organisation's code scanning
    alerts and the page number of the next one, and the unpaged request. The
    HTTP exchange is given as the outcome of `requests.get`. */
module CodeScanningPuller {
  import opened Outcomes
  import opened PyStrings
  import opened PyStringFacts

  /** One code scanning alert, as the JSON text of the object. */
  datatype Alert = Alert(json: string)

  /** A `requests` response: status, decoded body and the `url` of the
      `next` entry of `response.links`, when there is one. */
  datatype HttpResponse = HttpResponse(status: int, body: seq<Alert>, nextLink: Option<string>)

  /** A `CodeScanningAlertResponse`. */
  datatype AlertPage = AlertPage(data: seq<Alert>, nextPage: Option<string>)

  /** The query parameter that carries the page number. */
  const PageParam: string := "page="

  /** The URL of one page of alerts. */
  function RequestUrl(org: string, page: string): string
  {
    "https://api.github.com/orgs/" + org + "/code-scanning/alerts?" + PageParam + page
  }

  /** The unpaged URL. */
  function UnpagedUrl(org: string): string
  {
    "https://api.github.com/orgs/" + org + "/code-scanning/alerts"
  }

  /** `next_page`: none when there is no next link (or it is empty);
      otherwise the second piece of the link split on "page=", which fails
      with IndexError when the link has no "page=". */
  function NextPage(nextLink: Option<string>): Call<Option<string>>
  {
    if nextLink.None? || nextLink.value == "" then Returned(None)
    else
      var parts := Split(nextLink.value, PageParam);
      if |parts| < 2 then Raised(IndexError) else Returned(Some(parts[1]))
  }

  /** `get_github_org_code_scanning_page`: the request goes to the page's
      own URL, and every failure of it, `raise_for_status` included, is
      raised again. */
  function GetPage(org: string, page: string, fetch: string -> Call<HttpResponse>): (r: Call<AlertPage>)
    ensures r.Returned? ==>
      && fetch(RequestUrl(org, page)).Returned?
      && !RaisesForStatus(fetch(RequestUrl(org, page)).value.status)
      && r.value.data == fetch(RequestUrl(org, page)).value.body
      && NextPage(fetch(RequestUrl(org, page)).value.nextLink) == Returned(r.value.nextPage)
  {
    match fetch(RequestUrl(org, page))
    case Raised(exc) => Raised(exc)
    case Returned(response) =>
      if RaisesForStatus(response.status) then Raised(HttpError(response.status))
      else
        match NextPage(response.nextLink)
        case Raised(exc) => Raised(exc)
        case Returned(next) => Returned(AlertPage(response.body, next))
  }

  /** `get_github_org_code_scanning`: the request goes to the unpaged URL,
      and a failure of it, the status check included, gives None instead. */
  function GetAll(org: string, fetch: string -> Call<HttpResponse>): (r: Call<Option<seq<Alert>>>)
    ensures r.Returned? && r.value.Some? ==>
      && fetch(UnpagedUrl(org)).Returned?
      && !RaisesForStatus(fetch(UnpagedUrl(org)).value.status)
      && r.value.value == fetch(UnpagedUrl(org)).value.body
  {
    match fetch(UnpagedUrl(org))
    case Raised(exc) => if IsRequestException(exc) then Returned(None) else Raised(exc)
    case Returned(response) =>
      if RaisesForStatus(response.status) then Returned(None) else Returned(Some(response.body))
  }

  // ---------------------------------------------------------------------
  // Properties
  // ---------------------------------------------------------------------

  /** No next link, or an empty one, means no next page; a link without
      "page=" is an IndexError; otherwise there is a next page. */
  lemma {:induction false} NextPageCases(nextLink: Option<string>)
    ensures NextPage(nextLink) == Returned(None) <==> nextLink.None? || nextLink.value == ""
    ensures NextPage(nextLink) == Raised(IndexError) <==>
      nextLink.Some? && nextLink.value != "" && !Contains(nextLink.value, PageParam)
    ensures NextPage(nextLink).Returned? || NextPage(nextLink) == Raised(IndexError)
  {
    if nextLink.Some? && nextLink.value != "" {
      SplitHead(nextLink.value, PageParam);
    }
  }

  /** The next page is the text right after the first "page=", up to the
      next "page=" or the end of the link, and holds no "page=" itself. */
  lemma {:induction false} NextPageBetween(link: string)
    requires Contains(link, PageParam)
    ensures NextPage(Some(link)).Returned? && NextPage(Some(link)).value.Some?
    ensures var i, p := Find(link, PageParam).value + |PageParam|, NextPage(Some(link)).value.value;
      && i + |p| <= |link| && link[i..i + |p|] == p
      && !Contains(p, PageParam)
      && (i + |p| == |link| || OccursAt(link, PageParam, i + |p|))
  {
    SplitSecond(link, PageParam);
  }

  /** "page=" cannot overlap itself. */
  lemma {:induction false} PageParamBorderFree()
    ensures BorderFree(PageParam)
  {
    forall k | 0 < k < |PageParam| ensures PageParam[k..] != PageParam[..|PageParam| - k] {
      assert PageParam[k..][0] != PageParam[..|PageParam| - k][0];
    }
  }

  /** A string without '=' cannot contain "page=". */
  lemma {:induction false} NoEqualsNoParam(s: string)
    requires '=' !in s
    ensures !Contains(s, PageParam)
  {
    forall j: nat ensures !OccursAt(s, PageParam, j) {
      if j + 5 <= |s| {
        assert s[j + 4] in s;
        assert s[j..j + 5][4] == s[j + 4];
      }
    }
    ContainsIff(s, PageParam);
  }

  /** Round trip: for an organisation login and a page number without '=',
      the page number read back from a page's own URL is that page number. */
  lemma {:induction false} NextPageOfRequestUrl(org: string, page: string)
    requires '=' !in org && '=' !in page
    ensures NextPage(Some(RequestUrl(org, page))) == Returned(Some(page))
  {
    var prefix := "https://api.github.com/orgs/" + org + "/code-scanning/alerts?";
    assert '=' !in prefix;
    NoEqualsNoParam(prefix);
    NoEqualsNoParam(page);
    PageParamBorderFree();
    SplitAfterFirst(prefix, PageParam, page);
    SplitFree(page, PageParam);
    assert RequestUrl(org, page) == prefix + PageParam + page;
  }

  /** The two request functions differ only in what they do with a failed
      request: the paged one raises it again, the unpaged one returns None.
      Each asks only for its own URL. */
  lemma {:induction false} PagedRaisesUnpagedSwallows(org: string, page: string, fetch: string -> Call<HttpResponse>)
    ensures var paged := fetch(RequestUrl(org, page));
      && (paged.Raised? ==> GetPage(org, page, fetch) == Raised(paged.exc))
      && (paged.Returned? && RaisesForStatus(paged.value.status) ==>
            GetPage(org, page, fetch) == Raised(HttpError(paged.value.status)))
      && (paged.Returned? && !RaisesForStatus(paged.value.status) && NextPage(paged.value.nextLink).Returned? ==>
            GetPage(org, page, fetch) == Returned(AlertPage(paged.value.body, NextPage(paged.value.nextLink).value)))
    ensures var unpaged := fetch(UnpagedUrl(org));
      && (unpaged.Raised? && IsRequestException(unpaged.exc) ==> GetAll(org, fetch) == Returned(None))
      && (unpaged.Raised? && !IsRequestException(unpaged.exc) ==> GetAll(org, fetch) == Raised(unpaged.exc))
      && (unpaged.Returned? && RaisesForStatus(unpaged.value.status) ==> GetAll(org, fetch) == Returned(None))
      && (unpaged.Returned? && !RaisesForStatus(unpaged.value.status) ==>
            GetAll(org, fetch) == Returned(Some(unpaged.value.body)))
    ensures forall other: string -> Call<HttpResponse> | other(RequestUrl(org, page)) == fetch(RequestUrl(org, page)) ::
      GetPage(org, page, other) == GetPage(org, page, fetch)
    ensures forall other: string -> Call<HttpResponse> | other(UnpagedUrl(org)) == fetch(UnpagedUrl(org)) ::
      GetAll(org, other) == GetAll(org, fetch)
  {
  }
}
