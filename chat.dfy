/** The chat side of lib/telegram.js: recognising a "stop [service]" command,
    the "Looking for ..." status text, and the replies built from a timetable
    or from a list of nearby stops, with their inline keyboards.

    Sending messages is not modelled: each operation returns the texts and
    keyboards it would send. Keyboards are structured values rather than their
    JSON serialisation. */
module Chat {
  import opened Results
  import opened JsText
  import opened Departures

  // ---------------------------------------------------------------------------
  // Recognising a command: ^([a-zA-Z]+)([ ]+[a-zA-Z0-9]*)?$

  predicate AllLetters(s: string) { forall i :: 0 <= i < |s| ==> IsLetter(s[i]) }

  predicate AllBlanks(s: string) { forall i :: 0 <= i < |s| ==> s[i] == ' ' }

  predicate AllAlnum(s: string) { forall i :: 0 <= i < |s| ==> IsAlnum(s[i]) }

  /** The two capture groups of a successful match; the second group is
      undefined when the command has no suffix. */
  datatype CommandMatch = CommandMatch(stop: string, rest: Option<string>)

  /** The second group as text, `""` when it is undefined. */
  function RestText(m: CommandMatch): string
  {
    if m.rest.Some? then m.rest.value else ""
  }

  /** The length of the leading run of letters. */
  function LetterRun(s: string): (n: nat)
    ensures n <= |s| && AllLetters(s[..n])
    ensures n < |s| ==> !IsLetter(s[n])
  {
    if |s| > 0 && IsLetter(s[0]) then
      var n := LetterRun(s[1..]);
      assert s[..n + 1] == [s[0]] + s[1..][..n];
      n + 1
    else 0
  }

  /** The length of the leading run of blanks. */
  function BlankRun(s: string): (n: nat)
    ensures n <= |s| && AllBlanks(s[..n])
    ensures n < |s| ==> s[n] != ' '
  {
    if |s| > 0 && s[0] == ' ' then
      var n := BlankRun(s[1..]);
      assert s[..n + 1] == [s[0]] + s[1..][..n];
      n + 1
    else 0
  }

  /** `str.match(busStopRegEx)`: the leading letters form the stop; whatever
      follows must be blanks and then letters and digits. */
  function FindMatches(s: string): (m: Option<CommandMatch>)
    ensures m.Some? ==> |m.value.stop| > 0 && AllLetters(m.value.stop)
    ensures m.Some? ==> m.value.stop + RestText(m.value) == s
    ensures m.Some? ==> (m.value.rest.None? <==> m.value.stop == s)
    ensures m.Some? && m.value.rest.Some? ==> |m.value.rest.value| > 0 && m.value.rest.value[0] == ' '
  {
    var n := LetterRun(s);
    if n == 0 then None
    else if n == |s| then
      assert s[..n] == s;
      Some(CommandMatch(s, None))
    else
      var rest := s[n..];
      var k := BlankRun(rest);
      if k > 0 && AllAlnum(rest[k..]) then
        assert s[..n] + rest == s;
        Some(CommandMatch(s[..n], Some(rest)))
      else None
  }

  /** `s` splits as letters `s[..n]`, blanks `s[n..k]` and alphanumerics
      `s[k..]`, with at least one blank unless the letters are all of `s`. */
  predicate CommandAt(s: string, n: int, k: int)
  {
    && 0 < n <= k <= |s|
    && AllLetters(s[..n]) && AllBlanks(s[n..k]) && AllAlnum(s[k..])
    && (n < k || n == |s|)
  }

  /** The strings the regular expression accepts. */
  ghost predicate IsCommand(s: string)
  {
    exists n, k :: CommandAt(s, n, k)
  }

  lemma LetterRunIs(s: string, n: nat)
    requires n <= |s| && AllLetters(s[..n]) && (n < |s| ==> !IsLetter(s[n]))
    ensures LetterRun(s) == n
  {
    var m := LetterRun(s);
    forall i | 0 <= i < n ensures IsLetter(s[i]) { assert s[..n][i] == s[i]; }
    forall i | 0 <= i < m ensures IsLetter(s[i]) { assert s[..m][i] == s[i]; }
  }

  lemma BlankRunIs(s: string, n: nat)
    requires n <= |s| && AllBlanks(s[..n]) && (n < |s| ==> s[n] != ' ')
    ensures BlankRun(s) == n
  {
    var m := BlankRun(s);
    forall i | 0 <= i < n ensures s[i] == ' ' { assert s[..n][i] == s[i]; }
    forall i | 0 <= i < m ensures s[i] == ' ' { assert s[..m][i] == s[i]; }
  }

  lemma MatchIsCommand(s: string)
    requires FindMatches(s).Some?
    ensures IsCommand(s)
  {
    var n := LetterRun(s);
    if n == |s| {
      assert CommandAt(s, n, n);
    } else {
      var rest := s[n..];
      var k := BlankRun(rest);
      assert rest[..k] == s[n..n + k] && rest[k..] == s[n + k..];
      assert CommandAt(s, n, n + k);
    }
  }

  lemma CommandIsMatched(s: string, n: int, k: int)
    requires CommandAt(s, n, k)
    ensures FindMatches(s).Some?
  {
    if n < |s| {
      assert s[n..k][0] == s[n];
    }
    LetterRunIs(s, n);
    if n < |s| {
      var rest := s[n..];
      assert rest[..k - n] == s[n..k] && rest[k - n..] == s[k..];
      if k < |s| {
        assert s[k..][0] == s[k];
      }
      BlankRunIs(rest, k - n);
    }
  }

  /** The matcher accepts exactly the strings of the regular expression. */
  lemma FindMatchesAcceptsCommands(s: string)
    ensures FindMatches(s).Some? <==> IsCommand(s)
  {
    if FindMatches(s).Some? {
      MatchIsCommand(s);
    }
    if IsCommand(s) {
      var n, k :| CommandAt(s, n, k);
      CommandIsMatched(s, n, k);
    }
  }

  /** Matching a stop followed by blanks and a service recovers both parts. */
  lemma FindMatchesCommand(stop: string, blanks: string, service: string)
    requires |stop| > 0 && AllLetters(stop)
    requires |blanks| > 0 && AllBlanks(blanks)
    requires AllAlnum(service)
    ensures FindMatches(stop + blanks + service) == Some(CommandMatch(stop, Some(blanks + service)))
  {
    var s := stop + blanks + service;
    assert s[..|stop|] == stop;
    assert s[|stop|] == blanks[0];
    LetterRunIs(s, |stop|);
    var rest := s[|stop|..];
    assert rest == blanks + service;
    assert rest[..|blanks|] == blanks && rest[|blanks|..] == service;
    if |service| > 0 {
      assert rest[|blanks|] == service[0];
    }
    BlankRunIs(rest, |blanks|);
  }

  /** A bare stop matches with no second group. */
  lemma FindMatchesStop(stop: string)
    requires |stop| > 0 && AllLetters(stop)
    ensures FindMatches(stop) == Some(CommandMatch(stop, None))
  {
    assert stop[..|stop|] == stop;
    LetterRunIs(stop, |stop|);
  }

  // ---------------------------------------------------------------------------
  // Answering a command

  /** `match[2] ? match[2].trim() : ''` */
  function ServiceOf(m: CommandMatch): string
  {
    if m.rest.Some? then Trim(m.rest.value) else ""
  }

  /** The service of a matched command is the text after its blanks. */
  lemma ServiceOfCommand(stop: string, blanks: string, service: string)
    requires |stop| > 0 && AllLetters(stop)
    requires |blanks| > 0 && AllBlanks(blanks)
    requires AllAlnum(service)
    ensures FindMatches(stop + blanks + service).Some?
    ensures ServiceOf(FindMatches(stop + blanks + service).value) == service
  {
    FindMatchesCommand(stop, blanks, service);
    assert AllSpace(blanks) by {
      forall i | 0 <= i < |blanks| ensures IsSpace(blanks[i]) { assert blanks[i] == ' '; }
    }
    if |service| > 0 {
      assert IsAlnum(service[0]) && IsAlnum(service[|service| - 1]);
    }
    assert blanks + service + [] == blanks + service;
    TrimPadded(blanks, service, []);
  }

  /** The status text sent while the timetable is fetched. */
  function LookingForText(stop: string, service: string): string
  {
    "Looking for " + stop + (if service != "" then " " + service else "") + "..."
  }

  /** The status text tells apart every stop and service a command can name. */
  lemma LookingForTextInjective(stop1: string, service1: string, stop2: string, service2: string)
    requires AllLetters(stop1) && AllAlnum(service1)
    requires AllLetters(stop2) && AllAlnum(service2)
    requires LookingForText(stop1, service1) == LookingForText(stop2, service2)
    ensures stop1 == stop2 && service1 == service2
  {
    var x1 := if service1 != "" then " " + service1 else "";
    var x2 := if service2 != "" then " " + service2 else "";
    var t1 := LookingForText(stop1, service1);
    var t2 := LookingForText(stop2, service2);
    var mid1 := stop1 + x1;
    var mid2 := stop2 + x2;
    assert t1 == "Looking for " + mid1 + "...";
    assert t2 == "Looking for " + mid2 + "...";
    assert mid1 == t1[12..|t1| - 3];
    assert mid2 == t2[12..|t2| - 3];
    assert mid1 == mid2;
    assert mid1[..|stop1|] == stop1;
    if |stop1| < |mid1| { assert mid1[|stop1|] == ' '; }
    LetterRunIs(mid1, |stop1|);
    assert mid2[..|stop2|] == stop2;
    if |stop2| < |mid2| { assert mid2[|stop2|] == ' '; }
    LetterRunIs(mid2, |stop2|);
    assert stop1 == stop2;
    assert x1 == mid1[|stop1|..] && x2 == mid2[|stop2|..];
    if service1 != "" && service2 != "" {
      assert service1 == x1[1..] && service2 == x2[1..];
    }
  }

  datatype Button = Button(text: string, callbackData: string)

  /** The options of a reply: the message it answers and its inline
      keyboard, each absent from `{}`. */
  datatype Opts = Opts(replyTo: Option<string>, keyboard: Option<seq<seq<Button>>>)

  datatype Reply = Reply(message: string, opts: Opts)

  const NoOpts := Opts(None, None)
  const StopNotFound := "Bus stop not found"
  const ServerProblem := "There was a problem contacting the server"

  /** How an absent field reads inside a template string. The timetable
      carries no bearing, so its header always shows this text there. */
  const Undefined := "undefined"

  function HeaderLine(t: Timetable): string
  {
    t.stopCode + " - " + t.stopName + " (" + Undefined + ") @ " + t.lastUpdate
  }

  function DepartureLine(d: Departure): string
  {
    d.service + " to " + d.destination + " - " + d.timeLabel
  }

  /** Each departure line followed by a newline, in order. */
  function Lines(ds: seq<Departure>): string
  {
    if |ds| == 0 then "" else DepartureLine(ds[0]) + "\n" + Lines(ds[1..])
  }

  function TimetableMessage(t: Timetable): string
  {
    HeaderLine(t) + "\n" + Lines(t.times)
  }

  /** The single keyboard row: "all" for the whole stop, then one button per
      service whose callback is the command for that stop and service. */
  function TimetableKeyboard(stop: string, services: seq<string>): seq<Button>
  {
    [Button("all", stop)] + seq(|services|, i requires 0 <= i < |services| => Button(services[i], stop + " " + services[i]))
  }

  /** The reply to a failed fetch: no options, and a message that only
      tells a missing stop (404) from any other failure. */
  function FailureReply(e: FetchError): Reply
  {
    Reply(if e.statusCode == 404 then StopNotFound else ServerProblem, NoOpts)
  }

  /** createResponseBusstop: the reply to the outcome of getData. */
  function BusstopReply(stop: string, data: Result<Timetable, FetchError>): Reply
  {
    match data
    case Ok(t) => Reply(TimetableMessage(t), Opts(None, Some([TimetableKeyboard(stop, t.services)])))
    case Err(e) => FailureReply(e)
  }

  lemma {:induction false} LinesAppend(ds: seq<Departure>, d: Departure)
    ensures Lines(ds + [d]) == Lines(ds) + DepartureLine(d) + "\n"
  {
    if |ds| > 0 {
      assert (ds + [d])[1..] == ds[1..] + [d];
      LinesAppend(ds[1..], d);
    }
  }

  /** The message of a timetable reply, built line by line. */
  method BuildTimetableMessage(t: Timetable) returns (message: string)
    ensures message == TimetableMessage(t)
  {
    message := t.stopCode + " - " + t.stopName + " (" + Undefined + ") @ " + t.lastUpdate + "\n";
    var i := 0;
    while i < |t.times|
      invariant 0 <= i <= |t.times|
      invariant message == HeaderLine(t) + "\n" + Lines(t.times[..i])
    {
      var item := t.times[i];
      var line := item.service + " to " + item.destination + " - " + item.timeLabel;
      LinesAppend(t.times[..i], item);
      assert t.times[..i + 1] == t.times[..i] + [item];
      assert message + line + "\n" == HeaderLine(t) + "\n" + (Lines(t.times[..i]) + line + "\n");
      message := message + line + "\n";
      i := i + 1;
    }
    assert t.times[..i] == t.times;
  }

  /** The keyboard row of a timetable reply, built button by button. */
  method BuildTimetableKeyboard(stop: string, services: seq<string>) returns (keyboard: seq<Button>)
    ensures |keyboard| == |services| + 1 && keyboard[0] == Button("all", stop)
    ensures forall k :: 0 <= k < |services| ==> keyboard[k + 1] == Button(services[k], stop + " " + services[k])
    ensures keyboard == TimetableKeyboard(stop, services)
  {
    keyboard := [Button("all", stop)];
    var j := 0;
    while j < |services|
      invariant 0 <= j <= |services|
      invariant |keyboard| == j + 1 && keyboard[0] == Button("all", stop)
      invariant forall k :: 0 <= k < j ==> keyboard[k + 1] == Button(services[k], stop + " " + services[k])
    {
      var item := services[j];
      keyboard := keyboard + [Button(item, stop + " " + item)];
      j := j + 1;
    }
  }

  /** createResponseBusstop: fetches and parses the timetable, then builds
      the message and the keyboard; a failure becomes a message without
      options. The message id is not used: the reply does not quote the
      command. */
  method CreateResponseBusstop(messageId: string, stop: string, service: string,
                               outcome: HttpOutcome, select: string -> Widget)
    returns (qs: Query, reply: Reply)
    ensures IsStopQuery(qs, stop, service)
    ensures reply == BusstopReply(stop, DataOf(outcome, select))
  {
    var data;
    qs, data := GetData(stop, service, outcome, select);
    if data.Ok? {
      var message := BuildTimetableMessage(data.value);
      var keyboard := BuildTimetableKeyboard(stop, data.value.services);
      reply := Reply(message, Opts(None, Some([keyboard])));
    } else {
      var message := "";
      if data.error.statusCode == 404 {
        message := StopNotFound;
      } else {
        message := ServerProblem;
      }
      reply := Reply(message, NoOpts);
    }
  }

  /** sendResponseBusstop: the status text, then the reply for the stop and
      the trimmed service of the matched command. */
  method SendResponseBusstop(messageId: string, m: CommandMatch, outcome: HttpOutcome, select: string -> Widget)
    returns (status: string, qs: Query, reply: Reply)
    ensures status == LookingForText(m.stop, ServiceOf(m))
    ensures IsStopQuery(qs, m.stop, ServiceOf(m))
    ensures reply == BusstopReply(m.stop, DataOf(outcome, select))
  {
    var stop := m.stop;
    var service := if m.rest.Some? then Trim(m.rest.value) else "";
    status := "Looking for " + stop + (if service != "" then " " + service else "") + "...";
    qs, reply := CreateResponseBusstop(messageId, stop, service, outcome, select);
  }

  // ---------------------------------------------------------------------------
  // What the timetable reply promises

  predicate NoNewline(s: string) { '\n' !in s }

  /** No field shown in the message holds a line break. */
  predicate SingleLineFields(t: Timetable)
  {
    && NoNewline(t.stopCode) && NoNewline(t.stopName) && NoNewline(t.lastUpdate)
    && forall i :: 0 <= i < |t.times| ==>
         NoNewline(t.times[i].service) && NoNewline(t.times[i].destination) && NoNewline(t.times[i].timeLabel)
  }

  function DepartureLines(ds: seq<Departure>): seq<string>
  {
    seq(|ds|, i requires 0 <= i < |ds| => DepartureLine(ds[i]))
  }

  lemma {:induction false} LinesAsJoin(ds: seq<Departure>)
    ensures Lines(ds) == Join(DepartureLines(ds) + [""], '\n')
  {
    if |ds| > 0 {
      LinesAsJoin(ds[1..]);
      assert DepartureLines(ds) + [""] == [DepartureLine(ds[0])] + (DepartureLines(ds[1..]) + [""]);
    }
  }

  /** Split into lines, the timetable message is its header, one line per
      departure in order, and nothing after the final line break. */
  lemma TimetableMessageLines(t: Timetable)
    requires SingleLineFields(t)
    ensures Split(TimetableMessage(t), '\n') == [HeaderLine(t)] + DepartureLines(t.times) + [""]
  {
    var pieces := [HeaderLine(t)] + DepartureLines(t.times) + [""];
    LinesAsJoin(t.times);
    assert pieces == [HeaderLine(t)] + (DepartureLines(t.times) + [""]);
    assert Join(pieces, '\n') == TimetableMessage(t);
    forall i | 0 <= i < |pieces| ensures '\n' !in pieces[i] {
      if 0 < i < |pieces| - 1 {
        var d := t.times[i - 1];
        assert pieces[i] == d.service + " to " + d.destination + " - " + d.timeLabel;
      }
    }
    SplitJoin(pieces, '\n');
  }

  /** Every button of the timetable keyboard, sent back as a command, asks
      for the same stop and for its own service ("all": no service), as long
      as the stop is letters and the service letters and digits. */
  lemma TimetableKeyboardRoundTrip(stop: string, services: seq<string>, i: nat)
    requires |stop| > 0 && AllLetters(stop)
    requires forall k :: 0 <= k < |services| ==> |services[k]| > 0 && AllAlnum(services[k])
    requires i < |TimetableKeyboard(stop, services)|
    ensures FindMatches(TimetableKeyboard(stop, services)[i].callbackData).Some?
    ensures var m := FindMatches(TimetableKeyboard(stop, services)[i].callbackData).value;
            m.stop == stop && ServiceOf(m) == (if i == 0 then "" else services[i - 1])
  {
    var kb := TimetableKeyboard(stop, services);
    if i == 0 {
      assert kb[i].callbackData == stop;
      FindMatchesStop(stop);
    } else {
      var service := services[i - 1];
      assert kb[i].callbackData == stop + " " + service;
      ServiceOfCommand(stop, " ", service);
    }
  }

  /** The server says the stop does not exist (a 200 page with the not-found
      text): the user reads "Bus stop not found" and gets no keyboard. */
  lemma UnknownStopReply(stop: string, body: string, select: string -> Widget)
    requires Contains(body, "no matching stop found")
    ensures BusstopReply(stop, DataOf(Response(200, body), select)) == Reply("Bus stop not found", NoOpts)
  {
    NotFoundPageRejected(body);
  }

  /** A transport failure or any status other than 200 and 404 reads as a
      problem contacting the server, with no keyboard. */
  lemma ServerFailureReply(stop: string, outcome: HttpOutcome, select: string -> Widget)
    requires outcome.TransportError? || (outcome.statusCode != 200 && outcome.statusCode != 404)
    ensures BusstopReply(stop, DataOf(outcome, select)) == Reply("There was a problem contacting the server", NoOpts)
  {
  }

  // ---------------------------------------------------------------------------
  // Nearby stops

  /** The fields of a stop-directory record the reply shows. */
  datatype NearbyStop = NearbyStop(longName: string, bearing: string)

  function NearbyLabel(key: string, s: NearbyStop): string
  {
    s.longName + " " + s.bearing + " (" + key + ")"
  }

  const NearbyHeading := "Bus stops found:\n"

  /** createResponseLocation: one row of a single button per nearby stop, in
      the order of the keys, quoting the asking message; any failure reads as a
      problem contacting the server, with no options. The nearby stops are
      given as (code, record) pairs in key order. */
  method CreateResponseLocation(messageId: string, nearby: Result<seq<(string, NearbyStop)>, FetchError>)
    returns (reply: Reply)
    ensures nearby.Err? ==> reply == Reply(ServerProblem, NoOpts)
    ensures nearby.Ok? ==> reply.message == NearbyHeading && reply.opts.replyTo == Some(messageId)
    ensures nearby.Ok? ==> reply.opts.keyboard.Some? && |reply.opts.keyboard.value| == |nearby.value|
    ensures nearby.Ok? ==> forall i :: 0 <= i < |nearby.value| ==>
              reply.opts.keyboard.value[i] == [Button(NearbyLabel(nearby.value[i].0, nearby.value[i].1), nearby.value[i].0)]
  {
    match nearby
    case Err(_) =>
      reply := Reply(ServerProblem, NoOpts);
    case Ok(entries) =>
      var keyboard: seq<seq<Button>> := [];
      var i := 0;
      while i < |entries|
        invariant 0 <= i <= |entries|
        invariant |keyboard| == i
        invariant forall k :: 0 <= k < i ==>
                    keyboard[k] == [Button(NearbyLabel(entries[k].0, entries[k].1), entries[k].0)]
      {
        var (key, item) := entries[i];
        keyboard := keyboard + [[Button(item.longName + " " + item.bearing + " (" + key + ")", key)]];
        i := i + 1;
      }
      reply := Reply(NearbyHeading, Opts(Some(messageId), Some(keyboard)));
  }

  /** The button of a nearby stop whose code is letters, sent back as a
      command, asks for the whole timetable of that stop. */
  lemma NearbyButtonRoundTrip(key: string, s: NearbyStop)
    requires |key| > 0 && AllLetters(key)
    ensures FindMatches(Button(NearbyLabel(key, s), key).callbackData) == Some(CommandMatch(key, None))
  {
    FindMatchesStop(key);
  }

  // ---------------------------------------------------------------------------
  // Examples from the behaviour the bot is written against

  // The example strings are named constants, not literals, so that the
  // verifier does not unfold the matcher over each literal character by
  // character; the `ensures` spell the literal commands out.
  const Briapaw := "briapaw"
  const BriapawUpper := "BRIAPAW"
  const Blank := " "
  const Blanks := "  "
  const Seven := "7"
  const SeventySevenN := "77n"

  lemma BareStopExample()
    ensures FindMatches(Briapaw) == Some(CommandMatch(Briapaw, None))
  {
    FindMatchesStop(Briapaw);
  }

  lemma StopAndServiceExample()
    ensures Briapaw + Blank + Seven == "briapaw 7"
    ensures FindMatches(Briapaw + Blank + Seven) == Some(CommandMatch(Briapaw, Some(" 7")))
  {
    FindMatchesCommand(Briapaw, Blank, Seven);
  }

  lemma UpperCaseExample()
    ensures BriapawUpper + Blank + SeventySevenN == "BRIAPAW 77n"
    ensures FindMatches(BriapawUpper + Blank + SeventySevenN) == Some(CommandMatch(BriapawUpper, Some(" 77n")))
  {
    FindMatchesCommand(BriapawUpper, Blank, SeventySevenN);
  }

  /** Trailing blanks alone still match, and name no service. */
  lemma TrailingBlanksExample()
    ensures Briapaw + Blanks == "briapaw  "
    ensures FindMatches(Briapaw + Blanks) == Some(CommandMatch(Briapaw, Some(Blanks)))
    ensures ServiceOf(FindMatches(Briapaw + Blanks).value) == ""
  {
    assert Briapaw + Blanks + "" == Briapaw + Blanks;
    FindMatchesCommand(Briapaw, Blanks, "");
    ServiceOfCommand(Briapaw, Blanks, "");
  }
}
