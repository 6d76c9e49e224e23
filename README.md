# Brighton & Hove buses Telegram bot — verified model

This project models the core of a Telegram bot. The bot answers a chat
command such as `briapaw 7` with the live departures at a Brighton & Hove bus
stop. The model covers three parts:

- **Departure-board client** (`lib/bh.js`, module `Departures` in
  `departures.dfy`). It builds the query for one stop and optional service.
  It classifies the server's answer: a transport error becomes 503, a 200 page
  holding a not-found text becomes 404, anything else passes through. It also
  turns the departure-board markup into a timetable: it unescapes quotes,
  extracts the stop code from its header, lists the services without "all"
  and without repeats, and maps each table row to a departure.
- **Chat replies** (`lib/telegram.js`, module `Chat` in `chat.dfy`):
  - the command matcher `^([a-zA-Z]+)([ ]+[a-zA-Z0-9]*)?$`, written as a
    hand-made matcher returning its two groups;
  - the trimmed service and the "Looking for …" status text;
  - the timetable message and its one-row inline keyboard;
  - the nearby-stops keyboard;
  - the mapping from a failure to a message.
- **Helpers** (`lib/utils.js`, module `Utils` in `utils.dfy`): the error record
  of `formatError` and the allowed-origins list of `formatOrigins`.

Supporting modules:

- `results.dfy` (`Results`): `Option` and `Result`. They stand for JavaScript's
  `undefined` and for a settled promise.
- `text.dfy` (`JsText`): the JavaScript string operations the code relies on.
  These are `indexOf`, `replace` with a string pattern, `trim` (ECMAScript
  white space and line terminators), `split` on one character, and `String()`
  of an integer.

The network and the HTML library are parameters:

- The server's answer to the HTTP request is a value
  `HttpOutcome = TransportError(message) | Response(statusCode, body)`.
- What the CSS selectors pick out of a page is a function
  `select: string -> Widget`. It maps the unescaped page text to the selected
  texts: stop name, code header, last update, service link texts, and table
  rows.

The methods return what the code would send: the query `qs` and the reply
record. Promises become `Result` values, and a rejection is `Err`.

The model follows the code where the description of the system differs from
it. `parseStop` returns no bearing and no location. So the header line of a
timetable reply always shows the literal text `undefined` where the bearing
would go (`lib/telegram.js:17`). Likewise, the tests expect the timetable reply
to quote the user's message, but `reply_to_message_id` is commented out at
`lib/telegram.js:38`. The model therefore sends that reply without a quoted
message, while the nearby-stops reply does quote it.

## Model

| member | source | states |
|---|---|---|
| JsText.IndexOf | lib/bh.js:54 | `indexOf`: the result is -1 exactly when the pattern does not occur. Otherwise it is a position where the pattern occurs, and no earlier position holds one. |
| JsText.ReplaceFirst | lib/bh.js:85 | `replace` with a string pattern. What it does is stated by `JsText.ReplaceFirstOccurrence`. |
| JsText.ReplaceFirstOccurrence | lib/bh.js:85 | Without an occurrence of the pattern the text is returned unchanged. Otherwise only the first occurrence is replaced, and the text around it is kept. |
| JsText.TrimShape | lib/telegram.js:126 | `trim` keeps a contiguous part of the text and removes only white space before and after it. The result neither starts nor ends with white space. |
| JsText.TrimPadded | lib/utils.js:41 | Trimming a text padded with white space on both sides gives back exactly the text, provided the text has no white space at either end. |
| JsText.TrimIdempotent | lib/utils.js:41 | Trimming twice gives the same result as trimming once. |
| JsText.Split | lib/utils.js:35 | `split(',')` always gives at least one piece, and no piece contains the separator. |
| JsText.JoinSplit | lib/utils.js:35 | Joining the pieces of a split with the separator gives back the original string. |
| JsText.SplitJoin | lib/utils.js:35 | Splitting a joined list of separator-free pieces gives back the same list, with empty pieces kept. |
| JsText.NatToString | lib/utils.js:19 | The decimal text of a number is non-empty, is all digits, and has no leading zero. |
| JsText.NatToStringRoundTrip | lib/utils.js:19 | Reading the decimal text back gives the number. |
| Departures.StopQueryUnique | lib/bh.js:16-33 | The query's description leaves no freedom: one stop and one service determine exactly one query. |
| Departures.GetStop | lib/bh.js:14-73 | The five fixed parameters always carry their literal values. `stopid` is set exactly when the stop is all digits, and `stopcode` exactly when it is not. `servicenamefilter` is set exactly when a service is given, and no other key appears. The result is the classification of the server's answer, found by scanning the not-found texts in order with an early exit. |
| Departures.FetchOutcome | lib/bh.js:43-71 | How the fetch settles: 503 for a transport error, the server's own status and body for a non-200 answer, 404 for a not-found page, the body otherwise. Its properties are stated by `Departures.FetchClassification` and `Departures.NotFoundPageRejected`. |
| Departures.FetchClassification | lib/bh.js:43-71 | Only a status-200 page without a not-found text resolves, and it resolves with its body unchanged. A rejection reads 404 exactly when the server said 404 or sent a not-found page. |
| Departures.NotFoundPageRejected | lib/bh.js:52-61 | A status-200 page that says "no matching stop found" is rejected as 404 with that text. |
| Departures.Unescape | lib/bh.js:77 | Replacing every `\"` with `"` never makes the text longer. |
| Departures.UnescapeEscapeQuotes | lib/bh.js:77 | Unescaping recovers any markup whose quotes were escaped with a backslash. The escaping (`EscapeQuotes`) is not part of the bot: it is the reference inverse this lemma is stated against. |
| Departures.ParseStop | lib/bh.js:76-126 | The two loops (services with the `includes` guard, and rows pushed one by one) yield the timetable of the unescaped page. |
| Departures.GetData | lib/bh.js:129-139 | The query is the one `getStop` builds. A failed fetch is passed on unchanged, and a resolved page is parsed. |
| Departures.ServicesMembership | lib/bh.js:90-100 | A name is in the services list exactly when some link has that text and the text is not "all". |
| Departures.ServicesDistinct | lib/bh.js:90-100 | The services list has no repeats and never contains "all". |
| Departures.ServicesFirstSeenOrder | lib/bh.js:90-100 | Every listed service is a link text. Services appear in the order in which their texts first appear among the links. |
| Departures.ServicesStep | lib/bh.js:93-99 | One more link adds its text at the end of the services found so far, unless the text is "all" or the services so far already include it. This is the loop's `includes` guard. |
| Departures.ServicesOfAllThenDistinct | lib/bh.js:90-100 | The links "all" followed by distinct service names yield exactly those names. |
| Departures.ServicesOfSevenDials | test/lib/bh.test.js:70-91 | For the links of stop briapaw, the repeated 7 is dropped, which leaves the 13 expected services in page order. |
| Departures.DeparturesFollowRows | lib/bh.js:102-117 | There is one departure per table row, in document order, with its cells copied unchanged. No rows give no departures. |
| Departures.StopCodeOf | lib/bh.js:85 | The stop code is the header with its first "text " and then its first " to 84268 for live times" removed. What comes out is stated by `Departures.StopCodeFromHeader` and `Departures.StopCodeOfSevenDials`. |
| Departures.StopCodeFromHeader | lib/bh.js:85 | Removing the first "text " and then the first " to 84268 for live times" from "text c to 84268 for live times" gives back c, whenever c does not itself contain the suffix. |
| Departures.StopCodeOfSevenDials | test/lib/bh.test.js:70-76 | The header "text briapaw to 84268 for live times" gives stop code briapaw. |
| Chat.LetterRun | lib/telegram.js:4 | The length of the leading run of letters: the letters it covers, and the non-letter that ends it. |
| Chat.BlankRun | lib/telegram.js:4 | The length of the leading run of spaces: the spaces it covers, and the non-space that ends it. |
| Chat.FindMatches | lib/telegram.js:144-146 | On a match, group 1 is a non-empty run of letters and group 1 followed by group 2 is the input. Group 2 is absent exactly when group 1 is the whole input; otherwise it starts with a space. |
| Chat.MatchIsCommand | lib/telegram.js:4 | Every string the matcher accepts has the shape letters, spaces, alphanumerics. |
| Chat.CommandIsMatched | lib/telegram.js:4 | Every string of that shape is accepted. |
| Chat.FindMatchesAcceptsCommands | lib/telegram.js:4 | The matcher accepts a string if and only if the regular expression does. |
| Chat.FindMatchesCommand | lib/telegram.js:4 | A stop, then spaces, then a service of letters and digits match as the stop and the suffix. |
| Chat.FindMatchesStop | lib/telegram.js:4 | A bare stop matches with group 2 absent. |
| Chat.ServiceOf | lib/telegram.js:126 | The service is group 2 trimmed, or empty when group 2 is absent. What comes out for a command is stated by `Chat.ServiceOfCommand`. |
| Chat.ServiceOfCommand | lib/telegram.js:125-126 | The trimmed group 2 of such a command is exactly the service, and it is empty for spaces alone. |
| Chat.LookingForText | lib/telegram.js:128 | The status text names the stop, then the service after a space when there is one. `Chat.LookingForTextInjective` states that it tells commands apart. |
| Chat.LookingForTextInjective | lib/telegram.js:128 | The "Looking for …" text determines the stop and the service, for any stop and service a command can name. |
| Chat.BuildTimetableMessage | lib/telegram.js:17-21 | The `+=` loop yields the header line followed by one line per departure. |
| Chat.BuildTimetableKeyboard | lib/telegram.js:23-35 | The keyboard row has length \|services\| + 1. Its first button is "all" with the stop as callback. Then comes one button per service, in order, with callback "stop service". |
| Chat.CreateResponseBusstop | lib/telegram.js:14-65 | The query is the one `getStop` builds. A timetable gives the message and a one-row keyboard, and the reply quotes nothing. A failure gives no options: 404 becomes "Bus stop not found", and anything else becomes the server-problem message. |
| Chat.SendResponseBusstop | lib/telegram.js:120-136 | The status text uses group 1 and trimmed group 2 (empty when group 2 is absent). The reply is the one for that stop and service. |
| Chat.TimetableMessageLines | lib/telegram.js:17-21 | Split on line breaks, the message is the header line, then each departure's line in order, then nothing after the final line break. This holds whenever no field holds a line break. |
| Chat.TimetableKeyboardRoundTrip | lib/telegram.js:23-35 | For every keyboard button, the command matcher applied to the button's callback data gives back the stop, with no service for "all" and the button's own service for every other button. |
| Chat.FailureReply | lib/telegram.js:49-63 | A failed fetch gives a reply without options: "Bus stop not found" for 404, the server-problem message for anything else. `Chat.UnknownStopReply` and `Chat.ServerFailureReply` state which answers lead to each. |
| Chat.UnknownStopReply | lib/telegram.js:49-58 | A 200 not-found page reads "Bus stop not found", with no options. |
| Chat.ServerFailureReply | lib/telegram.js:56-63 | A transport error or any status other than 200 and 404 reads "There was a problem contacting the server", with no options. |
| Chat.CreateResponseLocation | lib/telegram.js:75-111 | The reply has the heading "Bus stops found:\n" and quotes the asking message. There is one single-button row per stop, in key order, labelled `LongName Bearing (key)` with the key as callback. A failure gives the server-problem message with no options. |
| Chat.NearbyButtonRoundTrip | lib/telegram.js:85-88 | For a nearby-stop button whose code is letters, the command matcher applied to the button's callback data gives back that stop with no service. |
| Chat.BareStopExample | test/lib/telegram.test.js:307-311 | 'briapaw' matches with group 2 absent. |
| Chat.StopAndServiceExample | test/lib/telegram.test.js:312-316 | 'briapaw 7' matches with group 2 ' 7'. |
| Chat.UpperCaseExample | test/lib/telegram.test.js:317-321 | 'BRIAPAW 77n' matches with group 2 ' 77n'. |
| Chat.TrailingBlanksExample | test/lib/telegram.test.js:322-326 | 'briapaw  ' matches with group 2 '  ', which names no service. |
| Utils.FormatError | lib/utils.js:7-24 | `status` is 0 and `error` is the message. `details` is present exactly when an error is given. It is the status line when the status code or status message is truthy, else the error's message, else empty. |
| Utils.DetailsOf | lib/utils.js:13-20 | The final value of `details`. Its properties are stated by `Utils.StatusOverridesMessage`, `Utils.MessageWithoutStatus`, `Utils.StatusLineRoundTrip` and `Utils.MissingCodeShowsUndefined`. |
| Utils.StatusOverridesMessage | lib/utils.js:15-20 | Once the status code or the status message is truthy, the error's message has no effect on `details`: the later assignment overrides it. |
| Utils.MessageWithoutStatus | lib/utils.js:14-17 | With neither status field truthy, `details` is the error's message. |
| Utils.StatusLineRoundTrip | lib/utils.js:18-20 | A status line splits at its first space into the decimal status code and the status message. |
| Utils.MissingCodeShowsUndefined | lib/utils.js:19 | Without a status code, the status line shows "undefined" in its place. |
| Utils.Kept | lib/utils.js:40-42 | An item contributes an origin exactly when it is a non-empty string, and then exactly one: the item trimmed. |
| Utils.KeptItem | lib/utils.js:41 | The origin a kept item gives is a contiguous part of the item with only white space removed around it, and it neither starts nor ends with white space. |
| Utils.Origins | lib/utils.js:38-44 | The output is never longer than the input. |
| Utils.KeepOrigins | lib/utils.js:38-44 | The `forEach` loop pushes exactly the non-empty string items, each trimmed, in order. |
| Utils.FormatOrigins | lib/utils.js:32-47 | A non-empty string is split on commas before filtering, and an array is filtered as it is. The empty string and any other value give the empty list. |
| Utils.OriginsAppend | lib/utils.js:39-43 | Filtering a concatenation gives the concatenation of the filtered parts, so order is kept. |
| Utils.OriginsMembership | lib/utils.js:39-43 | An origin is in the output exactly when some item is a non-empty string that trims to it. |
| Utils.BlankItemKept | lib/utils.js:40-41 | The emptiness test comes before trimming, so an all-blank item becomes an empty origin instead of being dropped. |
| Utils.CommaListRoundTrip | lib/utils.js:34-44 | A comma-separated list of clean origins reads back as the same list. |
| Utils.ArrayRoundTrip | lib/utils.js:37-44 | An array of clean origins is returned as it is. |
| Utils.PaddedListExample | lib/utils.js:34-44 | "a.com, b.com,," gives ["a.com", "b.com"]: pieces are trimmed, and empty pieces are dropped. |

## Left out

- The HTTP request (`request`, the base URL and `/departureboard.aspx`) is not modelled. The server's answer is the parameter `outcome`.
- cheerio's parsing and CSS selection are not modelled. What the selectors return is the parameter `select`.
- `.data('departuretime')` numeric coercion is not modelled. The departure time is kept as the attribute text.
- Promise sequencing, `console.log`, and `bot.sendMessage` are not modelled. The operations return the message and options that would be sent.
- `askLocation`, `sendLocation`, and the unused `giulia` are user-interface plumbing around `bot.sendMessage`, and they are left out.
- `JSON.stringify` of `reply_markup` is not modelled. Keyboards are structured values.
- The nearby-stops search is not modelled. `lib/telegram.js:76` calls `bh.getNearbyStops`, which `lib/bh.js` does not define. `Chat.CreateResponseLocation` therefore takes the search result as (code, record) pairs in `Object.keys` order.
- The process of `lib/config.js`, `src/config.js` and `index.js` (configuration and bot start-up) is not part of this model. Neither is `src/yvr/api.js`.
- An exception thrown by `parseStop` inside the `then` of `getData` (`lib/bh.js:132`) is not modelled. `Departures.ParseStop` is total over the selected texts, so the model has no such rejection.
- `Chat.SendResponseBusstop` takes a successful match. With a failed match, the source would throw when it reads `match[1]`.
- `Utils.FormatError` models `statusCode` as an optional integer and `statusMessage` and `message` as strings. Other JavaScript values in those fields (objects, `null`, fractions) are not modelled.
- `Departures.Unescape` is stated against quote escaping only. Other backslash sequences in the page are kept as they are, which matches the source.
- `Chat.TimetableKeyboardRoundTrip` is stated for services made of letters and digits. A service name with other characters would not match the command pattern when sent back. The services of the example board are all of this form.
- The dispatch in `index.js:33` and `index.js:37` calls `telegram.sendResponse`, which `lib/telegram.js:216-224` does not export. The path from a pressed button back to a reply is therefore not modelled. `Chat.TimetableKeyboardRoundTrip` and `Chat.NearbyButtonRoundTrip` state only what the command matcher makes of a button's callback data.
- Strings are sequences of Unicode characters, not of UTF-16 code units. A lone surrogate cannot be represented, and lengths count characters.
