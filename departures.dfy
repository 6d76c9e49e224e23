/** The live-departures client of lib/bh.js: building the departure-board
    query for one stop, classifying the server's answer (including the error
    pages the server returns with status 200), and turning the departure-board
    markup into a timetable.

    The HTTP request itself is not modelled: the server's answer to the query
    is the parameter `outcome`. The markup library is not modelled either: what
    its selectors pick out of a page is the parameter `select`, which maps the
    page text it is given to the selected texts (a `Widget`). */
module Departures {
  import opened Results
  import opened JsText

  // ---------------------------------------------------------------------------
  // The query

  /** Query-string parameters, name to value. */
  type Query = map<string, string>

  /** The parameters every departure-board request carries. */
  const FixedParams: Query := map[
    "clientid" := "BrightonBuses2016",
    "format" := "json",
    "sourcetype" := "siri",
    "requestor" := "LD",
    "includeTimestamp" := "true"
  ]

  /** `/^\d+$/.test(stop)`: a numeric stop id rather than an alphabetic code. */
  predicate IsStopId(stop: string)
  {
    |stop| > 0 && AllDigits(stop)
  }

  /** What a departure-board query for `stop` and `service` holds. An absent
      service and the empty string are both falsy, so both are `""` here. */
  predicate IsStopQuery(qs: Query, stop: string, service: string)
  {
    && (forall k :: k in FixedParams ==> k in qs && qs[k] == FixedParams[k])
    && ("stopid" in qs <==> IsStopId(stop))
    && ("stopcode" in qs <==> !IsStopId(stop))
    && ("stopid" in qs ==> qs["stopid"] == stop)
    && ("stopcode" in qs ==> qs["stopcode"] == stop)
    && ("servicenamefilter" in qs <==> service != "")
    && ("servicenamefilter" in qs ==> qs["servicenamefilter"] == service)
    && qs.Keys <= FixedParams.Keys + {"stopid", "stopcode", "servicenamefilter"}
  }

  /** The description above leaves no freedom: one stop and service give
      exactly one query. */
  lemma StopQueryUnique(q1: Query, q2: Query, stop: string, service: string)
    requires IsStopQuery(q1, stop, service) && IsStopQuery(q2, stop, service)
    ensures q1 == q2
  {
    forall k | k in q1 ensures k in q2 && q1[k] == q2[k] {
      if k !in FixedParams {
        assert k in {"stopid", "stopcode", "servicenamefilter"};
      }
    }
    forall k | k in q2 ensures k in q1 {
      if k !in FixedParams {
        assert k in {"stopid", "stopcode", "servicenamefilter"};
      }
    }
    assert q1.Keys == q2.Keys;
  }

  // ---------------------------------------------------------------------------
  // The server's answer

  /** The outcome of the HTTP request: it failed to complete, or it completed
      with a status code and a body. */
  datatype HttpOutcome = TransportError(message: string) | Response(statusCode: int, body: string)

  /** The uniform failure of every fetch. */
  datatype FetchError = FetchError(statusCode: int, body: string)

  /** Texts whose presence in a status-200 page means the stop does not exist. */
  const PossibleErrors: seq<string> := [
    "no matching stop found",
    "Please select a stop from the map or search to see live departures"
  ]

  const NotFoundBody := "no matching stop found"

  predicate HasSentinel(body: string)
  {
    exists i :: 0 <= i < |PossibleErrors| && Contains(body, PossibleErrors[i])
  }

  /** How the fetch of a departure board settles: a transport failure is
      rejected as 503 with its message; a non-200 answer is rejected with its
      own status and body; a 200 page holding one of the not-found texts is
      rejected as 404 'no matching stop found'; any other 200 page resolves
      with its body unchanged. */
  function FetchOutcome(outcome: HttpOutcome): Result<string, FetchError>
  {
    match outcome
    case TransportError(message) => Err(FetchError(503, message))
    case Response(status, body) =>
      if status != 200 then Err(FetchError(status, body))
      else if HasSentinel(body) then Err(FetchError(404, NotFoundBody))
      else Ok(body)
  }

  /** getStop: builds the query step by step, then classifies the answer the
      server gave to it, scanning the not-found texts in order. */
  method GetStop(stop: string, service: string, outcome: HttpOutcome)
    returns (qs: Query, page: Result<string, FetchError>)
    ensures IsStopQuery(qs, stop, service)
    ensures page == FetchOutcome(outcome)
  {
    qs := FixedParams;
    if IsStopId(stop) {
      qs := qs["stopid" := stop];
    } else {
      qs := qs["stopcode" := stop];
    }
    if service != "" {
      qs := qs["servicenamefilter" := service];
    }

    if outcome.TransportError? {
      return qs, Err(FetchError(503, outcome.message));
    }
    if outcome.statusCode == 200 {
      var i := 0;
      while i < |PossibleErrors|
        invariant 0 <= i <= |PossibleErrors|
        invariant forall j :: 0 <= j < i ==> !Contains(outcome.body, PossibleErrors[j])
      {
        if IndexOf(outcome.body, PossibleErrors[i]) != -1 {
          return qs, Err(FetchError(404, NotFoundBody));
        }
        i := i + 1;
      }
      return qs, Ok(outcome.body);
    }
    return qs, Err(FetchError(outcome.statusCode, outcome.body));
  }

  /** Only a clean 200 page resolves, with its body unchanged; a rejection
      reads 404 only when the server said 404 or sent a not-found page. */
  lemma FetchClassification(outcome: HttpOutcome)
    ensures FetchOutcome(outcome).Ok? <==>
              outcome.Response? && outcome.statusCode == 200 && !HasSentinel(outcome.body)
    ensures FetchOutcome(outcome).Ok? ==> FetchOutcome(outcome).value == outcome.body
    ensures FetchOutcome(outcome).Err? && FetchOutcome(outcome).error.statusCode == 404 <==>
              outcome.Response? && (outcome.statusCode == 404 || (outcome.statusCode == 200 && HasSentinel(outcome.body)))
  {
  }

  /** The server answers status 200 for a stop that does not exist; the
      not-found page is still turned into a rejection. */
  lemma NotFoundPageRejected(body: string)
    requires Contains(body, NotFoundBody)
    ensures FetchOutcome(Response(200, body)) == Err(FetchError(404, "no matching stop found"))
  {
    assert Contains(body, PossibleErrors[0]);
  }

  // ---------------------------------------------------------------------------
  // Unescaping the page

  /** `html.replace(/\\"/g, '"')`: every backslash-quote pair, taken left to
      right without overlapping, becomes a plain quote. */
  function Unescape(s: string): (r: string)
    ensures |r| <= |s|
  {
    if |s| == 0 then s
    else if |s| >= 2 && s[0] == '\\' && s[1] == '"' then "\"" + Unescape(s[2..])
    else [s[0]] + Unescape(s[1..])
  }

  /** Quotes escaped with a backslash, as the server embeds the markup in a
      JSON string. */
  function EscapeQuotes(s: string): (r: string)
    ensures |r| >= |s|
    ensures r == [] || r[0] != '"'
  {
    if |s| == 0 then s
    else if s[0] == '"' then "\\\"" + EscapeQuotes(s[1..])
    else [s[0]] + EscapeQuotes(s[1..])
  }

  /** Unescaping recovers markup whose quotes were escaped. */
  lemma {:induction false} UnescapeEscapeQuotes(s: string)
    ensures Unescape(EscapeQuotes(s)) == s
  {
    if |s| > 0 {
      UnescapeEscapeQuotes(s[1..]);
      var e := EscapeQuotes(s);
      if s[0] == '"' {
        assert e[2..] == EscapeQuotes(s[1..]);
      } else {
        assert e[1..] == EscapeQuotes(s[1..]);
      }
      assert [s[0]] + s[1..] == s;
    }
  }

  // ---------------------------------------------------------------------------
  // Parsing the departure board

  /** The cells of one departure row: the texts of the service, destination
      and departure-time cells, and the time cell's `data-departuretime`. */
  datatype Row = Row(serviceText: string, destinationText: string, timeText: string, departureTime: string)

  /** What the selectors pick out of a departure-board page: the stop-name
      header cell, the "text ... to 84268 for live times" header cell, the
      second span of the timestamp block, the texts of the links in the
      services panel, and the rows of the table body, all in document order. */
  datatype Widget = Widget(
    stopName: string,
    codeHeader: string,
    lastUpdate: string,
    serviceLinks: seq<string>,
    rows: seq<Row>)

  datatype Departure = Departure(service: string, destination: string, timeLabel: string, time: string)

  datatype Timetable = Timetable(
    stopName: string,
    stopCode: string,
    lastUpdate: string,
    services: seq<string>,
    times: seq<Departure>)

  const CodePrefix := "text "
  const LiveTimesSuffix := " to 84268 for live times"

  /** The stop code: the header text with its first "text " and then its
      first " to 84268 for live times" removed. */
  function StopCodeOf(header: string): string
  {
    ReplaceFirst(ReplaceFirst(header, CodePrefix, ""), LiveTimesSuffix, "")
  }

  /** The services of a board: the link texts other than "all", each at its
      first occurrence, in document order. */
  function ServicesOf(links: seq<string>): seq<string>
  {
    if |links| == 0 then []
    else
      var before := links[..|links| - 1];
      var name := links[|links| - 1];
      if name == "all" || name in before then ServicesOf(before) else ServicesOf(before) + [name]
  }

  function DepartureOf(row: Row): Departure
  {
    Departure(row.serviceText, row.destinationText, row.timeText, row.departureTime)
  }

  /** The timetable a page yields. */
  function TimetableOf(w: Widget): Timetable
  {
    Timetable(
      w.stopName,
      StopCodeOf(w.codeHeader),
      w.lastUpdate,
      ServicesOf(w.serviceLinks),
      seq(|w.rows|, i requires 0 <= i < |w.rows| => DepartureOf(w.rows[i])))
  }

  /** parseStop: unescapes the page, selects from it, then collects the
      services and the departures in two loops. */
  method ParseStop(html: string, select: string -> Widget) returns (t: Timetable)
    ensures t == TimetableOf(select(Unescape(html)))
  {
    var cleaned := Unescape(html);
    var w := select(cleaned);
    var stopCode := ReplaceFirst(ReplaceFirst(w.codeHeader, CodePrefix, ""), LiveTimesSuffix, "");

    var services: seq<string> := [];
    var i := 0;
    while i < |w.serviceLinks|
      invariant 0 <= i <= |w.serviceLinks|
      invariant services == ServicesOf(w.serviceLinks[..i])
    {
      var name := w.serviceLinks[i];
      assert w.serviceLinks[..i + 1][..i] == w.serviceLinks[..i];
      ServicesMembership(w.serviceLinks[..i], name);
      if name != "all" {
        if name !in services {
          services := services + [name];
        }
      }
      i := i + 1;
    }
    assert w.serviceLinks[..i] == w.serviceLinks;

    var times: seq<Departure> := [];
    var j := 0;
    while j < |w.rows|
      invariant 0 <= j <= |w.rows|
      invariant |times| == j
      invariant forall k :: 0 <= k < j ==> times[k] == DepartureOf(w.rows[k])
    {
      var row := w.rows[j];
      times := times + [Departure(row.serviceText, row.destinationText, row.timeText, row.departureTime)];
      j := j + 1;
    }

    t := Timetable(w.stopName, stopCode, w.lastUpdate, services, times);
  }

  /** getData: the fetch, then the parse of the page it resolves with. */
  function DataOf(outcome: HttpOutcome, select: string -> Widget): Result<Timetable, FetchError>
  {
    match FetchOutcome(outcome)
    case Err(e) => Err(e)
    case Ok(body) => Ok(TimetableOf(select(Unescape(body))))
  }

  /** getData: a failed fetch is passed on unchanged, a page is parsed. */
  method GetData(stop: string, service: string, outcome: HttpOutcome, select: string -> Widget)
    returns (qs: Query, r: Result<Timetable, FetchError>)
    ensures IsStopQuery(qs, stop, service)
    ensures r == DataOf(outcome, select)
  {
    var page;
    qs, page := GetStop(stop, service, outcome);
    match page
    case Err(e) =>
      r := Err(e);
    case Ok(body) =>
      var t := ParseStop(body, select);
      r := Ok(t);
  }

  // ---------------------------------------------------------------------------
  // What the parse promises

  /** A service is listed exactly when some link names it and it is not "all". */
  lemma {:induction false} ServicesMembership(links: seq<string>, name: string)
    ensures name in ServicesOf(links) <==> name in links && name != "all"
  {
    if |links| > 0 {
      var before := links[..|links| - 1];
      ServicesMembership(before, name);
      assert links == before + [links[|links| - 1]];
    }
  }

  predicate Distinct(s: seq<string>)
  {
    forall i, j :: 0 <= i < j < |s| ==> s[i] != s[j]
  }

  /** The services list has no duplicates and never holds "all". */
  lemma {:induction false} ServicesDistinct(links: seq<string>)
    ensures Distinct(ServicesOf(links))
    ensures "all" !in ServicesOf(links)
  {
    if |links| > 0 {
      var before := links[..|links| - 1];
      ServicesDistinct(before);
      ServicesMembership(before, links[|links| - 1]);
      ServicesMembership(before, "all");
    }
  }

  /** The position at which `x` first occurs in `s`. */
  function FirstIndex(s: seq<string>, x: string): (k: nat)
    requires x in s
    ensures k < |s| && s[k] == x && x !in s[..k]
  {
    if s[0] == x then 0
    else
      var k := FirstIndex(s[1..], x);
      assert s[..k + 1] == [s[0]] + s[1..][..k];
      k + 1
  }

  lemma FirstIndexExtend(before: seq<string>, x: string, y: string)
    requires y in before
    ensures FirstIndex(before + [x], y) == FirstIndex(before, y)
  {
    var s := before + [x];
    var k1, k2 := FirstIndex(s, y), FirstIndex(before, y);
    assert s[k2] == y;
    assert before[k1] == y;
  }

  /** The services keep the order in which they first appear on the board. */
  lemma {:induction false} ServicesFirstSeenOrder(links: seq<string>)
    ensures forall i :: 0 <= i < |ServicesOf(links)| ==> ServicesOf(links)[i] in links
    ensures forall i, j :: 0 <= i < j < |ServicesOf(links)| ==>
              FirstIndex(links, ServicesOf(links)[i]) < FirstIndex(links, ServicesOf(links)[j])
  {
    var r := ServicesOf(links);
    forall i | 0 <= i < |r| ensures r[i] in links {
      ServicesMembership(links, r[i]);
    }
    if |links| > 0 {
      var before := links[..|links| - 1];
      var name := links[|links| - 1];
      var p := ServicesOf(before);
      ServicesFirstSeenOrder(before);
      assert links == before + [name];
      forall i | 0 <= i < |p| ensures p[i] in before && FirstIndex(links, p[i]) == FirstIndex(before, p[i]) {
        FirstIndexExtend(before, name, p[i]);
      }
      if r != p {
        assert r == p + [name] && name !in before;
        var k := FirstIndex(links, name);
        assert k == |before|;
      }
    }
  }

  /** One departure per table row, copied from its cells, in document order;
      no rows give no departures. */
  lemma DeparturesFollowRows(w: Widget)
    ensures |TimetableOf(w).times| == |w.rows|
    ensures forall i :: 0 <= i < |w.rows| ==>
              TimetableOf(w).times[i] == Departure(w.rows[i].serviceText, w.rows[i].destinationText,
                                                   w.rows[i].timeText, w.rows[i].departureTime)
  {
  }

  /** The suffix cannot overlap itself: no proper suffix of it is also a prefix. */
  lemma SuffixHasNoBorder()
    ensures forall d :: 0 < d < |LiveTimesSuffix| ==> LiveTimesSuffix[d..] != LiveTimesSuffix[..|LiveTimesSuffix| - d]
  {
    var s := LiveTimesSuffix;
    forall d | 0 < d < |s| ensures s[d..] != s[..|s| - d] {
      if s[d] == ' ' {
        assert d == 3 || d == 9 || d == 13 || d == 18;
        assert s[d..][1] != s[..|s| - d][1] || s[d..][2] != s[..|s| - d][2];
      } else {
        assert s[d..][0] != s[..|s| - d][0];
      }
    }
  }

  lemma StripCodePrefix(code: string)
    ensures ReplaceFirst(CodePrefix + code + LiveTimesSuffix, CodePrefix, "") == code + LiveTimesSuffix
  {
    var h := CodePrefix + code + LiveTimesSuffix;
    assert OccursAt(h, CodePrefix, 0) by { assert h[..|CodePrefix|] == CodePrefix; }
    assert IndexOf(h, CodePrefix) == 0;
    assert h[|CodePrefix|..] == code + LiveTimesSuffix;
  }

  /** In `code + LiveTimesSuffix`, the suffix starts nowhere inside `code`. */
  lemma SuffixNotEarlier(code: string, j: int)
    requires !Contains(code, LiveTimesSuffix)
    requires 0 <= j < |code|
    ensures !OccursAt(code + LiveTimesSuffix, LiveTimesSuffix, j)
  {
    var m := code + LiveTimesSuffix;
    var s := LiveTimesSuffix;
    if j + |s| <= |code| {
      assert m[j..j + |s|] == code[j..j + |s|];
      assert !OccursAt(code, s, j);
    } else {
      var d := |code| - j;
      SuffixHasNoBorder();
      assert m[j..j + |s|][d..] == s[..|s| - d];
      assert s[d..] != s[..|s| - d];
    }
  }

  lemma StripLiveTimesSuffix(code: string)
    requires !Contains(code, LiveTimesSuffix)
    ensures ReplaceFirst(code + LiveTimesSuffix, LiveTimesSuffix, "") == code
  {
    var m := code + LiveTimesSuffix;
    var s := LiveTimesSuffix;
    assert OccursAt(m, s, |code|) by { assert m[|code|..|code| + |s|] == s; }
    forall j | 0 <= j < |code| ensures !OccursAt(m, s, j) {
      SuffixNotEarlier(code, j);
    }
    var k := IndexOf(m, s);
    assert k == |code|;
    assert m[..k] + "" + m[k + |s|..] == code;
  }

  /** The stop code is recovered from a header "text <code> to 84268 for live
      times" whenever the code does not itself hold the suffix. */
  lemma StopCodeFromHeader(code: string)
    requires !Contains(code, LiveTimesSuffix)
    ensures StopCodeOf(CodePrefix + code + LiveTimesSuffix) == code
  {
    StripCodePrefix(code);
    StripLiveTimesSuffix(code);
  }

  const SevenDialsCode := "briapaw"

  /** The header "text briapaw to 84268 for live times" gives stop code briapaw. */
  lemma StopCodeOfSevenDials()
    ensures StopCodeOf(CodePrefix + SevenDialsCode + LiveTimesSuffix) == "briapaw"
  {
    assert |SevenDialsCode| < |LiveTimesSuffix|;
    StopCodeFromHeader(SevenDialsCode);
  }

  /** One more link, checked the way the loop checks it: "all" is skipped,
      and a name is pushed only when the services so far do not include it. */
  lemma ServicesStep(before: seq<string>, name: string)
    ensures ServicesOf(before + [name])
            == if name == "all" || name in ServicesOf(before) then ServicesOf(before) else ServicesOf(before) + [name]
  {
    assert (before + [name])[..|before|] == before;
    ServicesMembership(before, name);
  }

  /** Links "all" followed by distinct services list exactly those services. */
  lemma {:induction false} ServicesOfAllThenDistinct(distinct: seq<string>)
    requires Distinct(distinct) && "all" !in distinct
    ensures ServicesOf(["all"] + distinct) == distinct
  {
    if |distinct| > 0 {
      var before := distinct[..|distinct| - 1];
      var name := distinct[|distinct| - 1];
      assert distinct == before + [name];
      ServicesOfAllThenDistinct(before);
      assert ["all"] + distinct == (["all"] + before) + [name];
      ServicesStep(["all"] + before, name);
    }
  }

  /** The service links of the board of stop briapaw: "all" first and
      service 7 twice. */
  const SevenDialsLinks: seq<string> :=
    ["all", "7", "14", "14C", "27", "55", "59", "77", "N7", "27C", "48E", "37A", "37B", "57", "7"]

  const SevenDialsServices: seq<string> :=
    ["7", "14", "14C", "27", "55", "59", "77", "N7", "27C", "48E", "37A", "37B", "57"]

  lemma SevenDialsServicesDistinct()
    ensures Distinct(SevenDialsServices) && "all" !in SevenDialsServices
  {
  }

  /** The briapaw board lists thirteen services: the repeated 7 is dropped. */
  lemma ServicesOfSevenDials()
    ensures ServicesOf(SevenDialsLinks) == SevenDialsServices
    ensures |ServicesOf(SevenDialsLinks)| == 13
  {
    var distinct := SevenDialsServices;
    SevenDialsServicesDistinct();
    ServicesOfAllThenDistinct(distinct);
    assert distinct[0] == "7";
    ServicesStep(["all"] + distinct, "7");
    assert SevenDialsLinks == ["all"] + distinct + ["7"];
  }
}
