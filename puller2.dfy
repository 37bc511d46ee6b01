/** `code_scanning_puller2.py`: every code scanning alert of an organisation,
    page after page, following the `rel="next"` target of each response's
    `link` header. The responses are given to the loop in request order. */
module CodeScanningPuller2 {
  import opened Outcomes
  import opened PyStrings
  import opened PyStringFacts
  import opened SeqFacts

  /** One code scanning alert, as the JSON text of the object. */
  datatype Alert = Alert(json: string)

  /** What `requests.get(url, ...)` gives back: the status code, the decoded
      body and the `link` header, when there is one. */
  datatype Response = Response(statusCode: int, alerts: seq<Alert>, link: Option<string>)

  /** The first page of alerts of an organisation. */
  function AlertsUrl(org: string): string
  {
    "https://api.github.com/orgs/" + org + "/code-scanning/alerts"
  }

  /** The marker of the link to the next page. */
  const NextRel: string := "rel=\"next\""

  /** The target of one `link` entry: the text between its first '<' and its
      first '>', with Python's slicing when either is missing. */
  function LinkTarget(segment: string): string
  {
    PySlice(segment, PyFind(segment, "<") + 1, PyFind(segment, ">"))
  }

  /** The index of the first segment, from `k` on, that mentions the next
      link, or the number of segments when none does. */
  function FirstNextIndex(segments: seq<string>, k: nat): (n: nat)
    requires k <= |segments|
    ensures k <= n <= |segments|
    ensures forall i :: k <= i < n ==> !Contains(segments[i], NextRel)
    ensures n < |segments| ==> Contains(segments[n], NextRel)
    decreases |segments| - k
  {
    if k == |segments| || Contains(segments[k], NextRel) then k
    else FirstNextIndex(segments, k + 1)
  }

  /** The URL of the next page: the target of the first comma-separated
      segment of the `link` header that mentions `rel="next"`; none without
      a header or without such a segment. */
  function NextUrl(link: Option<string>): Option<string>
  {
    match link
    case None => None
    case Some(header) =>
      var segments := Split(header, ",");
      var n := FirstNextIndex(segments, 0);
      if n < |segments| then Some(LinkTarget(segments[n])) else None
  }

  /** The link-scanning part of the loop body: split the header on commas
      and stop at the first segment with the next link. */
  method NextPageUrl(link: Option<string>) returns (url: Option<string>)
    ensures url == NextUrl(link)
  {
    if link.None? {
      return None;
    }
    var links := Split(link.value, ",");
    url := None;
    for i := 0 to |links|
      invariant url.None?
      invariant forall j :: 0 <= j < i ==> !Contains(links[j], NextRel)
    {
      if Contains(links[i], NextRel) {
        FirstNextAt(links, i);
        url := Some(LinkTarget(links[i]));
        break;
      }
    }
    if url.None? {
      NoNextAt(links);
    }
  }

  lemma {:induction false} FirstNextAt(segments: seq<string>, i: nat)
    requires i < |segments| && Contains(segments[i], NextRel)
    requires forall j :: 0 <= j < i ==> !Contains(segments[j], NextRel)
    ensures FirstNextIndex(segments, 0) == i
  {
  }

  lemma {:induction false} NoNextAt(segments: seq<string>)
    requires forall j :: 0 <= j < |segments| ==> !Contains(segments[j], NextRel)
    ensures FirstNextIndex(segments, 0) == |segments|
  {
  }

  /** `while url:` goes on for a URL that is neither None nor empty. */
  predicate Truthy(url: Option<string>)
  {
    url.Some? && url.value != ""
  }

  /** What the loop gathered: the alerts, the URLs requested, and whether
      the responses ran out while there was still a page to fetch. */
  datatype Pages = Pages(alerts: seq<Alert>, requested: seq<string>, exhausted: bool)

  /** The loop from `url` on, the k-th request answered by `responses[k]`:
      a 200 adds its alerts and moves to the next URL, anything else stops. */
  function Paginate(url: Option<string>, responses: seq<Response>): Pages
    decreases |responses|
  {
    if !Truthy(url) then Pages([], [], false)
    else if responses == [] then Pages([], [], true)
    else if responses[0].statusCode != 200 then Pages([], [url.value], false)
    else
      var rest := Paginate(NextUrl(responses[0].link), responses[1..]);
      Pages(responses[0].alerts + rest.alerts, [url.value] + rest.requested, rest.exhausted)
  }

  /** After k responses, what the loop has gathered is what the whole run
      gathers before the rest of it. */
  predicate PartialPages(start: Option<string>, responses: seq<Response>, k: nat, url: Option<string>,
                         alerts: seq<Alert>, requested: seq<string>)
  {
    k <= |responses|
    && var rest, all := Paginate(url, responses[k..]), Paginate(start, responses);
    && alerts + rest.alerts == all.alerts
    && requested + rest.requested == all.requested
    && rest.exhausted == all.exhausted
  }

  lemma {:induction false} PageAdvances(start: Option<string>, responses: seq<Response>, k: nat, url: Option<string>,
                     alerts: seq<Alert>, requested: seq<string>)
    requires k < |responses| && Truthy(url) && responses[k].statusCode == 200
    requires PartialPages(start, responses, k, url, alerts, requested)
    ensures PartialPages(start, responses, k + 1, NextUrl(responses[k].link),
                         alerts + responses[k].alerts, requested + [url.value])
  {
    assert responses[k..][1..] == responses[k + 1..];
    var rest := Paginate(NextUrl(responses[k].link), responses[k + 1..]);
    AppendAssociates(alerts, responses[k].alerts, rest.alerts);
    AppendAssociates(requested, [url.value], rest.requested);
  }

  /** `fetch_code_scanning_alerts(org, ...)`: the alerts it writes out and
      the URLs it requested. */
  method FetchCodeScanningAlerts(org: string, responses: seq<Response>)
    returns (allAlerts: seq<Alert>, requested: seq<string>, exhausted: bool)
    ensures Pages(allAlerts, requested, exhausted) == Paginate(Some(AlertsUrl(org)), responses)
  {
    ghost var start := Some(AlertsUrl(org));
    allAlerts, requested := [], [];
    var url: Option<string> := Some("https://api.github.com/orgs/" + org + "/code-scanning/alerts");
    var k := 0;
    assert responses[k..] == responses;
    while Truthy(url) && k < |responses|
      invariant PartialPages(start, responses, k, url, allAlerts, requested)
      decreases |responses| - k
    {
      var response := responses[k];
      if response.statusCode != 200 {
        assert Paginate(url, responses[k..]) == Pages([], [url.value], false);
        requested := requested + [url.value];
        return allAlerts, requested, false;
      }
      PageAdvances(start, responses, k, url, allAlerts, requested);
      allAlerts := allAlerts + response.alerts;
      requested := requested + [url.value];
      url := NextPageUrl(response.link);
      k := k + 1;
    }
    exhausted := Truthy(url);
    assert Paginate(url, responses[k..]) == Pages([], [], exhausted);
    assert allAlerts + [] == allAlerts && requested + [] == requested;
  }

  // ---------------------------------------------------------------------
  // Properties
  // ---------------------------------------------------------------------

  /** The concatenated alerts of a sequence of responses. */
  function AllAlerts(responses: seq<Response>): seq<Alert>
  {
    if responses == [] then [] else responses[0].alerts + AllAlerts(responses[1..])
  }

  /** A run requests one URL per response it consumes, starting with the
      first URL; every consumed response but the last answered 200, each
      further URL is the next link of the response before it, and the alerts
      are those of the 200 responses, in order. */
  lemma {:induction false} PaginateShape(url: Option<string>, responses: seq<Response>)
    ensures var p := Paginate(url, responses);
      var n := |p.requested|;
      && n <= |responses|
      && (n > 0 ==> url.Some? && p.requested[0] == url.value)
      && (forall i :: 0 <= i < n - 1 ==> responses[i].statusCode == 200)
      && (forall i :: 0 < i < n ==> NextUrl(responses[i - 1].link) == Some(p.requested[i]))
      && (n > 0 && responses[n - 1].statusCode == 200 ==> p.alerts == AllAlerts(responses[..n]))
      && (n > 0 && responses[n - 1].statusCode != 200 ==> p.alerts == AllAlerts(responses[..n - 1]))
      && (n == 0 ==> p.alerts == [])
  {
    PaginateRequests(url, responses);
    PaginateAlerts(url, responses);
  }

  /** The requests of a run: one per consumed response, the first URL first,
      then the next link of each 200 response. */
  lemma {:induction false} PaginateRequests(url: Option<string>, responses: seq<Response>)
    ensures var p := Paginate(url, responses);
      var n := |p.requested|;
      && n <= |responses|
      && (n > 0 ==> url.Some? && p.requested[0] == url.value)
      && (forall i :: 0 <= i < n - 1 ==> responses[i].statusCode == 200)
      && (forall i :: 0 < i < n ==> NextUrl(responses[i - 1].link) == Some(p.requested[i]))
    decreases |responses|
  {
    var p := Paginate(url, responses);
    if Truthy(url) && responses != [] && responses[0].statusCode == 200 {
      var next := NextUrl(responses[0].link);
      var rest := Paginate(next, responses[1..]);
      PaginateRequests(next, responses[1..]);
      var m := |rest.requested|;
      forall i | 0 < i < m + 1 ensures NextUrl(responses[i - 1].link) == Some(p.requested[i]) {
        if i > 1 {
          assert responses[i - 1] == responses[1..][i - 2];
        }
      }
    }
  }

  /** The alerts of a run: those of every consumed response that answered 200. */
  lemma {:induction false} PaginateAlerts(url: Option<string>, responses: seq<Response>)
    ensures var p := Paginate(url, responses);
      var n := |p.requested|;
      && n <= |responses|
      && (n > 0 && responses[n - 1].statusCode == 200 ==> p.alerts == AllAlerts(responses[..n]))
      && (n > 0 && responses[n - 1].statusCode != 200 ==> p.alerts == AllAlerts(responses[..n - 1]))
      && (n == 0 ==> p.alerts == [])
    decreases |responses|
  {
    if Truthy(url) && responses != [] && responses[0].statusCode == 200 {
      var next := NextUrl(responses[0].link);
      var rest := Paginate(next, responses[1..]);
      PaginateAlerts(next, responses[1..]);
      var m := |rest.requested|;
      if m == 0 {
        AllAlertsFront(responses, 1);
      } else if responses[1..][m - 1].statusCode == 200 {
        AllAlertsFront(responses, m + 1);
      } else {
        AllAlertsFront(responses, m);
      }
    }
  }

  /** The alerts of a non-empty prefix: those of its first response, then
      those of the rest of it. */
  lemma {:induction false} AllAlertsFront(responses: seq<Response>, k: nat)
    requires 0 < k <= |responses|
    ensures AllAlerts(responses[..k]) == responses[0].alerts + AllAlerts(responses[1..][..k - 1])
  {
    assert responses[..k][1..] == responses[1..][..k - 1];
  }

  /** A response other than 200 stops the loop at or before it; when the
      loop gets as far as it, the alerts are exactly those of the earlier
      pages. */
  lemma {:induction false} FailureKeepsEarlierPages(url: Option<string>, responses: seq<Response>, i: nat)
    requires i < |responses| && responses[i].statusCode != 200
    ensures var p := Paginate(url, responses);
      && |p.requested| <= i + 1 && !p.exhausted
      && (|p.requested| == i + 1 ==> p.alerts == AllAlerts(responses[..i]))
  {
    FailureStops(url, responses, i);
    PaginateAlerts(url, responses);
  }

  lemma {:induction false} FailureStops(url: Option<string>, responses: seq<Response>, i: nat)
    requires i < |responses| && responses[i].statusCode != 200
    ensures var p := Paginate(url, responses);
      |p.requested| <= i + 1 && !p.exhausted
    decreases i
  {
    if i > 0 && Truthy(url) && responses[0].statusCode == 200 {
      FailureStops(NextUrl(responses[0].link), responses[1..], i - 1);
    }
  }

  /** A segment with the next link, followed by anything: its target is
      the next URL, and later segments are ignored. */
  lemma {:induction false} NextUrlFirstSegment(segment: string, tail: string)
    requires !Contains(segment, ",") && Contains(segment, NextRel)
    ensures NextUrl(Some(segment + "," + tail)) == Some(LinkTarget(segment))
  {
    SplitAfterFirst(segment, ",", tail);
  }

  /** A segment without the next link is passed over. */
  lemma {:induction false} NextUrlSkipsSegment(segment: string, tail: string)
    requires !Contains(segment, ",") && !Contains(segment, NextRel)
    ensures NextUrl(Some(segment + "," + tail)) == NextUrl(Some(tail))
  {
    SplitAfterFirst(segment, ",", tail);
    var segments := Split(tail, ",");
    var all := [segment] + segments;
    FirstNextShift(segment, segments, 0);
  }

  lemma {:induction false} FirstNextShift(first: string, segments: seq<string>, k: nat)
    requires !Contains(first, NextRel) && k <= |segments|
    ensures FirstNextIndex([first] + segments, k + 1) == FirstNextIndex(segments, k) + 1
    decreases |segments| - k
  {
    if k < |segments| && !Contains(segments[k], NextRel) {
      FirstNextShift(first, segments, k + 1);
    }
  }

  /** A header none of whose comma-separated segments mentions the next
      link gives no next URL, so the loop ends. */
  lemma {:induction false} NextUrlNone(header: string)
    requires forall s :: s in Split(header, ",") ==> !Contains(s, NextRel)
    ensures NextUrl(Some(header)) == None
  {
    var segments := Split(header, ",");
    forall j | 0 <= j < |segments| ensures !Contains(segments[j], NextRel) {
      assert segments[j] in segments;
    }
    NoNextAt(segments);
  }

  /** The target of a well-formed entry `<url>...` is the URL. */
  lemma {:induction false} LinkTargetOfEntry(url: string, params: string)
    requires '<' !in url && '>' !in url
    ensures LinkTarget("<" + url + ">" + params) == url
  {
    var s := "<" + url + ">" + params;
    assert OccursAt(s, "<", 0) by { assert s[0..1] == "<"; }
    assert OccursAt(s, ">", |url| + 1) by { assert s[|url| + 1..|url| + 2] == ">"; }
    forall j: nat | j < |url| + 1 ensures !OccursAt(s, ">", j) {
      assert s[j] != '>' by {
        if j > 0 { assert s[j] == url[j - 1]; }
      }
      assert s[j..j + 1][0] == s[j];
    }
    assert s[1..|url| + 1] == url;
  }
}
