/** The helpers of lib/utils.js: the error record the service reports, and the
    list of allowed origins read from configuration. */
module Utils {
  import opened Results
  import opened JsText

  // ---------------------------------------------------------------------------
  // formatError

  /** The fields of an error object the record reads. An absent or empty
      `message` is the empty string: both are falsy and neither is shown. An
      absent status code or status message is `None`. */
  datatype ErrorValue = ErrorValue(message: string, statusCode: Option<int>, statusMessage: Option<string>)

  /** `{status, error, details}`; `details` is `None` when the key is absent. */
  datatype ErrorRecord = ErrorRecord(status: int, error: string, details: Option<string>)

  predicate CodeTruthy(code: Option<int>) { code.Some? && code.value != 0 }

  predicate TextTruthy(text: Option<string>) { text.Some? && text.value != "" }

  /** An optional field inside a string concatenation. */
  function RenderCode(code: Option<int>): string
  {
    if code.Some? then IntToString(code.value) else "undefined"
  }

  function RenderText(text: Option<string>): string
  {
    if text.Some? then text.value else "undefined"
  }

  /** What `details` ends up holding: the status line when the code or the
      status message is truthy, else the message, else the empty string. */
  function DetailsOf(err: ErrorValue): string
  {
    if CodeTruthy(err.statusCode) || TextTruthy(err.statusMessage) then
      RenderCode(err.statusCode) + " " + RenderText(err.statusMessage)
    else err.message
  }

  /** formatError: `details` is assigned in three steps, each later step
      overriding the earlier ones. */
  method FormatError(msg: string, err: Option<ErrorValue>) returns (r: ErrorRecord)
    ensures r.status == 0 && r.error == msg
    ensures r.details.Some? <==> err.Some?
    ensures err.Some? ==> r.details.value == DetailsOf(err.value)
  {
    r := ErrorRecord(0, msg, None);
    if err.Some? {
      var e := err.value;
      r := r.(details := Some(""));
      if e.message != "" {
        r := r.(details := Some(e.message));
      }
      if CodeTruthy(e.statusCode) || TextTruthy(e.statusMessage) {
        r := r.(details := Some(RenderCode(e.statusCode) + " " + RenderText(e.statusMessage)));
      }
    }
  }

  /** A status line splits back, at its first blank, into the decimal status
      code and the status message. */
  lemma {:induction false} StatusLineRoundTrip(err: ErrorValue)
    requires err.statusCode.Some? && err.statusCode.value >= 0
    requires err.statusMessage.Some?
    requires CodeTruthy(err.statusCode) || TextTruthy(err.statusMessage)
    ensures var d := DetailsOf(err);
            var k := IndexOf(d, " ");
            0 <= k && AllDigits(d[..k]) && DigitsValue(d[..k]) == err.statusCode.value
            && d[k + 1..] == err.statusMessage.value
  {
    var c := NatToString(err.statusCode.value);
    var d := DetailsOf(err);
    assert d == c + " " + err.statusMessage.value;
    assert OccursAt(d, " ", |c|) by { assert d[|c|..|c| + 1] == " "; }
    forall j | 0 <= j < |c| ensures !OccursAt(d, " ", j) {
      assert d[j..j + 1] == [c[j]];
    }
    var k := IndexOf(d, " ");
    assert k == |c|;
    assert d[..k] == c;
    NatToStringRoundTrip(err.statusCode.value);
  }

  /** Once the status code or the status message is truthy, the error's own
      message no longer matters: the last assignment overrides it. */
  lemma StatusOverridesMessage(err: ErrorValue, other: string)
    requires CodeTruthy(err.statusCode) || TextTruthy(err.statusMessage)
    ensures DetailsOf(err.(message := other)) == DetailsOf(err)
  {
  }

  /** With neither status field truthy, the details are the error's message,
      the empty string when it has none. */
  lemma MessageWithoutStatus(err: ErrorValue)
    requires !CodeTruthy(err.statusCode) && !TextTruthy(err.statusMessage)
    ensures DetailsOf(err) == err.message
  {
  }

  /** Without a status code, the line shows the word "undefined" in its place. */
  lemma MissingCodeShowsUndefined(message: string, statusMessage: string)
    requires statusMessage != ""
    ensures DetailsOf(ErrorValue(message, None, Some(statusMessage))) == "undefined " + statusMessage
  {
  }

  // ---------------------------------------------------------------------------
  // formatOrigins

  /** The configuration value: a string, an array, or anything else. */
  datatype JsValue = JsString(s: string) | JsArray(items: seq<JsValue>) | JsOther

  function Strings(ss: seq<string>): (vs: seq<JsValue>)
    ensures |vs| == |ss|
  {
    seq(|ss|, i requires 0 <= i < |ss| => JsString(ss[i]))
  }

  /** What one item contributes: a non-empty string, trimmed. */
  function Kept(item: JsValue): (os: seq<string>)
    ensures |os| <= 1
    ensures os != [] <==> item.JsString? && item.s != ""
    ensures os != [] ==> os[0] == Trim(item.s)
  {
    if item.JsString? && item.s != "" then [Trim(item.s)] else []
  }

  /** The origin a kept item contributes is the item with the white space at
      both ends removed: a middle part of it, with clean ends. */
  lemma KeptItem(item: JsValue)
    requires Kept(item) != []
    ensures var o := Kept(item)[0];
            exists i :: 0 <= i <= |item.s| - |o| && o == item.s[i..i + |o|]
                        && AllSpace(item.s[..i]) && AllSpace(item.s[i + |o|..])
    ensures var o := Kept(item)[0]; o == [] || (!IsSpace(o[0]) && !IsSpace(o[|o| - 1]))
  {
    TrimShape(item.s);
  }

  /** The non-empty strings of `items`, each trimmed, in order. */
  function Origins(items: seq<JsValue>): (os: seq<string>)
    ensures |os| <= |items|
  {
    if |items| == 0 then [] else Origins(items[..|items| - 1]) + Kept(items[|items| - 1])
  }

  /** What formatOrigins returns: a non-empty string is first split on commas;
      an empty string and any other value give the empty list. */
  function OriginsOf(input: JsValue): seq<string>
  {
    match input
    case JsString(s) => if s != "" then Origins(Strings(Split(s, ','))) else []
    case JsArray(items) => Origins(items)
    case JsOther => []
  }

  /** The `forEach` of formatOrigins: every non-empty string item is pushed
      trimmed. */
  method KeepOrigins(items: seq<JsValue>) returns (output: seq<string>)
    ensures output == Origins(items)
  {
    output := [];
    var i := 0;
    while i < |items|
      invariant 0 <= i <= |items|
      invariant output == Origins(items[..i])
    {
      var item := items[i];
      assert Origins(items[..i + 1]) == Origins(items[..i]) + Kept(item) by {
        assert items[..i + 1][..i] == items[..i];
      }
      if item.JsString? && item.s != "" {
        output := output + [Trim(item.s)];
      }
      i := i + 1;
    }
    assert items[..i] == items;
  }

  /** formatOrigins: a non-empty string is split on commas, then the items
      are filtered; anything else that is not an array gives the empty list. */
  method FormatOrigins(input: JsValue) returns (output: seq<string>)
    ensures input == JsString("") || input.JsOther? ==> output == []
    ensures output == OriginsOf(input)
  {
    if input.JsString? && input.s != "" {
      var pieces := Split(input.s, ',');
      output := KeepOrigins(Strings(pieces));
    } else if input.JsArray? {
      output := KeepOrigins(input.items);
    } else {
      output := [];
    }
  }

  lemma {:induction false} OriginsAppend(a: seq<JsValue>, b: seq<JsValue>)
    ensures Origins(a + b) == Origins(a) + Origins(b)
    decreases |b|
  {
    if |b| > 0 {
      var b' := b[..|b| - 1];
      assert (a + b)[..|a + b| - 1] == a + b';
      OriginsAppend(a, b');
    } else {
      assert a + b == a;
    }
  }

  /** An origin is in the list exactly when some item is a non-empty string
      that trims to it. */
  lemma {:induction false} OriginsMembership(items: seq<JsValue>, o: string)
    ensures o in Origins(items) <==>
              exists i :: 0 <= i < |items| && items[i].JsString? && items[i].s != "" && Trim(items[i].s) == o
  {
    if |items| > 0 {
      var init := items[..|items| - 1];
      OriginsMembership(init, o);
      forall i | 0 <= i < |init| ensures init[i] == items[i] { }
    }
  }

  /** Trimming happens after the emptiness test: a blank item becomes an
      empty origin rather than being dropped. */
  lemma BlankItemKept(items: seq<JsValue>, blank: string)
    requires blank != "" && AllSpace(blank)
    ensures Origins(items + [JsString(blank)]) == Origins(items) + [""]
  {
    assert (items + [JsString(blank)])[..|items|] == items;
    assert blank + [] + [] == blank;
    TrimPadded(blank, [], []);
  }

  /** A text that is non-empty, holds no comma, and neither starts nor ends
      with white space: the shape of a single allowed origin. */
  predicate IsOrigin(o: string)
  {
    o != "" && ',' !in o && !IsSpace(o[0]) && !IsSpace(o[|o| - 1])
  }

  lemma {:induction false} OriginsOfClean(os: seq<string>)
    requires forall i :: 0 <= i < |os| ==> IsOrigin(os[i])
    ensures Origins(Strings(os)) == os
    decreases |os|
  {
    if |os| > 0 {
      var init := os[..|os| - 1];
      OriginsOfClean(init);
      assert Strings(os)[..|os| - 1] == Strings(init);
      var o := os[|os| - 1];
      assert [] + o + [] == o;
      TrimPadded([], o, []);
      assert os == init + [o];
    }
  }

  /** A comma-separated list of origins reads back as the same list. */
  lemma CommaListRoundTrip(os: seq<string>)
    requires |os| >= 1
    requires forall i :: 0 <= i < |os| ==> IsOrigin(os[i])
    ensures OriginsOf(JsString(Join(os, ','))) == os
  {
    SplitJoin(os, ',');
    JoinNonEmpty(os, ',');
    OriginsOfClean(os);
  }

  lemma JoinNonEmpty(pieces: seq<string>, sep: char)
    requires |pieces| >= 1 && pieces[0] != ""
    ensures Join(pieces, sep) != ""
  {
  }

  /** An array of origins is returned as it is. */
  lemma ArrayRoundTrip(os: seq<string>)
    requires forall i :: 0 <= i < |os| ==> IsOrigin(os[i])
    ensures OriginsOf(JsArray(Strings(os))) == os
  {
    OriginsOfClean(os);
  }

  // "a.com, b.com,," assembled piece by piece around its commas, so that
  // its split follows from `SplitPrefix` instead of the verifier unfolding
  // `Split` over a literal; `SplitPaddedList` spells the literal out.
  const OriginA := "a.com"
  const OriginB := "b.com"
  const PaddedB := " " + OriginB
  const ListTail := "" + [','] + ""
  const ListMid := PaddedB + [','] + ListTail
  const PaddedList := OriginA + [','] + ListMid

  lemma SplitPaddedList()
    ensures PaddedList == "a.com, b.com,,"
    ensures Split(PaddedList, ',') == [OriginA, PaddedB, "", ""]
  {
    SplitPrefix("", "", ',');
    SplitPrefix(PaddedB, ListTail, ',');
    SplitPrefix(OriginA, ListMid, ',');
  }

  lemma OriginsOfPaddedPieces()
    ensures Origins([JsString(OriginA), JsString(PaddedB)]) == [OriginA, OriginB]
  {
    var a, b := JsString(OriginA), JsString(PaddedB);
    assert Kept(a) == [OriginA] by {
      assert [] + OriginA + [] == OriginA;
      TrimPadded([], OriginA, []);
    }
    assert Kept(b) == [OriginB] by {
      assert " " + OriginB + [] == PaddedB;
      TrimPadded(" ", OriginB, []);
    }
    assert [a, b][..1] == [a];
    assert [a][..0] == [];
  }

  /** Blank-padded, comma-separated origins are split and trimmed, and empty
      pieces between commas are dropped. */
  lemma PaddedListExample()
    ensures PaddedList == "a.com, b.com,,"
    ensures OriginsOf(JsString(PaddedList)) == [OriginA, OriginB]
  {
    SplitPaddedList();
    var items := Strings([OriginA, PaddedB, "", ""]);
    var front := [JsString(OriginA), JsString(PaddedB)];
    assert items == front + [JsString(""), JsString("")];
    OriginsOfPaddedPieces();
    OriginsAppend(front, [JsString(""), JsString("")]);
    assert [JsString(""), JsString("")][..1] == [JsString("")];
  }
}
