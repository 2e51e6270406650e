# Norwegian stairs map — a Dafny model

The project collects every OpenStreetMap way tagged `highway=steps` in Norway
from the Overpass API and shows the ways on a map, graded by their number of
steps. This Dafny project models its core:

- **fetchData.js** fetches the data with up to three retries. A retry happens
  on 429 and 5xx responses, after sleeps of 4, 6 and 10 seconds. It builds
  the node-id dictionary and turns each way into a GeoJSON Feature (a
  LineString of `[lon, lat]` positions, with properties `{id, name,
  step_count}`). It writes the FeatureCollection only when everything
  succeeded. See `FetchData`, which builds on `Overpass`.
- **build.js** is the older pipeline. It makes one request with no retry and
  swallows every error. Its normaliser copies all tags into the properties and
  forces `id` to the way's first node id. See `Build`. Lemmas there relate its
  output to the newer normaliser's.
- **devServer.js** is the development server. It parses the `_headers` file,
  serves `index.html` for `/` and picks the Content-Type by file extension.
  A missing file gets 404 and any other read error gets 500. See `DevServer`.
- **src/index.js** is the OpenLayers front end. It has the circle colour,
  the circle and cluster style caches, the cluster total, the split of
  features into known and unknown step counts with its count, and the
  markers at `[lon, lat]`. See `OlFrontEnd`.
- **public/index.js** is the Leaflet front end. It has the icon class
  grading, the marker title, the `[lat, lon]` swap and the line colour. See
  `LeafletFrontEnd`.

Two modules supply the JavaScript semantics the code relies on:
- `JsText` covers `trim`, `indexOf`, `slice`, `split`, `Number()` on digit
  strings and `String()` of an integer.
- `StairsJson` covers what `JSON.stringify` followed by `JSON.parse` leaves of
  a feature, the loose `>` comparison and string conversion of the
  `step_count` value.

The GeoJSON shapes follow RFC 7946:
- positions are `[longitude, latitude]` (section 3.1.1);
- LineString is defined in section 3.1.4;
- Feature is defined in section 3.2;
- FeatureCollection is defined in section 3.3.

I/O is replaced by parameters:
- the Overpass endpoint is a function from attempt number to response;
- the file system seen by the server is a function from path to read
  outcome;
- the file already on disk is the `previous` artifact.

## Model

| member | source | states |
|---|---|---|
| FetchData.FetchWithRetry | fetchData.js:33-50 | the loop of attempts yields the same error or elements and the same sleeps as the recursive `fetchData(retryNumber)` |
| FetchData.FetchFrom | fetchData.js:33-50 | the recursive `fetchData(retryNumber)`: below the limit the sleeps never take the retry counter past 3, from the limit on there are none, and a run with no sleep settles its first response |
| FetchData.IsOk | fetchData.js:33 | `response.ok`: a status from 200 to 299; pinned through `Settle` and `RetryNotTaken` |
| FetchData.IsRetryable | fetchData.js:34 | 429 or 500 and above; `RetriesIffRetryable` and `NotRetryableFailsAtOnce` tie it to whether a run sleeps |
| FetchData.RetryableFailure | fetchData.js:33-36 | a non-OK response with a retryable status; `RetryDelays` shows every sleep follows one |
| FetchData.Backoff | fetchData.js:37-38 | `2 + 2^retry` seconds; `BackoffsFromFirst` gives 4, 6 and 10 for retries 1 to 3 |
| FetchData.Settle | fetchData.js:33-58 | an attempt's outcome is the elements exactly for an OK response with a JSON body, the status as an HTTP error for a non-OK response, and otherwise a network or body error |
| FetchData.RetryDelays | fetchData.js:34-46 | the i-th sleep of a run that starts at retry counter r is the backoff 2 + 2^(r+i+1), and it follows a 429/5xx response to attempt r+i |
| FetchData.DelaysStep | fetchData.js:36-46 | one retry, with its backoff put before the later sleeps, keeps that numbering of sleeps and responses |
| FetchData.RetryStops | fetchData.js:34-36 | a run that stops below the limit stops at a response that is not 429/5xx |
| FetchData.RetryTaken | fetchData.js:34-45 | a retry after a 429/5xx response below the limit appends its backoff to the sleeps so far and continues with the next attempt |
| FetchData.RetryNotTaken | fetchData.js:34-49 | an attempt that is not retried ends the run with its own settled result and the sleeps so far |
| FetchData.RetrySchedule | fetchData.js:34-46 | from any retry counter on, the delays are the backoffs 2 + 2^r of consecutive retries, each one follows a 429/5xx response, there are never more than 3 retries, and the final result settles the last response |
| FetchData.RetriesIffRetryable | fetchData.js:34-36 | a run sleeps at least once exactly when its first response is 429 or 500 and above |
| FetchData.AlwaysUnavailable | fetchData.js:36-49 | an endpoint that always answers 429/5xx is tried four times, with sleeps of 4, 6 and 10 seconds, and the fourth status is thrown |
| FetchData.NotRetryableFailsAtOnce | fetchData.js:33-49 | any other failure status is thrown at once, with no sleep |
| FetchData.TotalBackoffAtMost20 | fetchData.js:36-38 | the sleeps of one run add up to at most 20 seconds |
| FetchData.ScheduleIsPrefix | fetchData.js:36-38 | the sleeps of a run from the first attempt are a prefix of 4, 6, 10 |
| FetchData.BackoffsFromFirst | fetchData.js:37-38 | at most three backoffs numbered from retry 1 are 4, 6 and 10 seconds in turn |
| FetchData.SumOfSchedulePrefix | fetchData.js:36-38 | any prefix of 4, 6, 10 adds up to at most 20 |
| FetchData.ToFeature | fetchData.js:69-86 | a way becomes a feature exactly when all of its node ids resolve and it has tags. The feature has the way's id, its `[lon, lat]` positions in node order and the `{id, name, step_count}` properties, where `step_count` is undefined for a missing or empty tag. Otherwise the error is the unknown node or the missing tags |
| FetchData.ToFeaturesPointwise | fetchData.js:67-86 | the mapping succeeds exactly when every way converts, and then has one feature per way, each way's feature at the way's position |
| FetchData.ToFeatures | fetchData.js:67-86 | `ways.map(...)` of the conversion; pinned by `ToFeaturesPointwise` and `MapWaysFirstError` |
| FetchData.Normalize | fetchData.js:60-93 | a successful normalisation has one feature per way element; a failed one fails with the error of some way element's conversion |
| FetchData.NormalizeShape | fetchData.js:60-93 | a successful normalisation has one feature per way element, in response order, and every position comes from a node element of the response |
| FetchData.NormalizeWithoutWays | fetchData.js:67-93 | a response without ways gives the empty FeatureCollection |
| FetchData.UnknownNodeAborts | fetchData.js:74-77 | a way that references a node id no node element carries makes the whole normalisation fail |
| FetchData.NumberOf42 | fetchData.js:82-83 | `Number("42")` is 42 |
| FetchData.ScenarioFeature | fetchData.js:67-86 | two nodes and one way give exactly one feature: the way id, both positions as `[lon, lat]`, `id` set to the first node id, the name tag if any, and the number of a non-empty `step_count` tag |
| FetchData.ScenarioNamedWay | fetchData.js:79-85 | a way named "Test Stairs" with `step_count` "42" gives exactly those name and step-count properties (the count as the number 42) |
| FetchData.ScenarioWithoutStepCount | fetchData.js:82-84 | without a `step_count` tag the property is absent |
| FetchData.Run | fetchData.js:90-100 | the run's outcome and sleeps are those of the pipeline; the file is replaced by the collection only on success, and left as it was otherwise |
| FetchData.Pipeline | fetchData.js:33-100 | fetch with retries, then normalise; the error of the fetch when it fails. `Run` states that the file is replaced by its collection exactly on success |
| FetchData.UnavailableUpstreamWritesNothing | fetchData.js:36-49 | against an always-unavailable endpoint the run throws after sleeping 4, 6 and 10 seconds, so nothing is written |
| Overpass.LonLat | fetchData.js:74-77 | a node's position is longitude first, then latitude |
| Overpass.Ways | fetchData.js:67-68 | the way filter never produces more entries than there are elements |
| Overpass.WaysMembers | fetchData.js:67-68 | the filter keeps exactly the way elements, and gives `[]` when there are none |
| Overpass.WaysAppend | fetchData.js:67-68 | the filter keeps response order |
| Overpass.CollectNodes | fetchData.js:60-65 | building the dictionary in place, element by element, yields the dictionary of the node elements |
| Overpass.NodeIndex | fetchData.js:60-65 | the dictionary maps each key to a node carrying that id |
| Overpass.NodeIndexKeys | fetchData.js:60-65 | the dictionary's keys are exactly the ids of the node elements; each key maps to a node element of the response that carries that id |
| Overpass.NodeIndexLastWins | fetchData.js:62-64 | of two node elements with one id, the later one is kept |
| Overpass.ResolveCoordinates | fetchData.js:74-77 | the positions resolve exactly when every node id is in the dictionary. They are then the nodes' `[lon, lat]`, pointwise and in order. Otherwise the error is a missing id of the way |
| Overpass.AllResolved | fetchData.js:74-77 | every node id of a way is in the dictionary; `ResolveCoordinates` succeeds exactly then |
| Overpass.MapWays | fetchData.js:67-86 | the `ways.map(...)` of both normalisers, which stops at the first throw: a successful mapping has one feature per way |
| Overpass.MapWaysPointwise | fetchData.js:67-86 | the mapping succeeds exactly when every way converts, and then holds each way's feature at the way's position |
| Overpass.MapWaysFirstError | fetchData.js:67-86 | a failed mapping fails with the error of the first way that fails: every earlier way converts |
| Build.SpreadProperties | build.js:59-62 | every tag is copied as text; `id` is overridden by the first node id, and is dropped when the way has no nodes; no other key appears |
| Build.ToFeature | build.js:49-62 | a way becomes a feature exactly when its node ids resolve, with the resolved positions and the spread properties; tags may be missing; otherwise the error is an unknown node of the way |
| Build.ToFeaturesPointwise | build.js:47-63 | the mapping succeeds exactly when every way's node ids resolve, and then has one feature per way, each way's feature at the way's position |
| Build.ToFeaturesError | build.js:47-63 | a failed mapping names an id that some way references and the dictionary lacks, and every earlier way's ids all resolve |
| Build.ToFeatures | build.js:47-63 | `ways.map(...)` of build.js's conversion; pinned by `Build.ToFeaturesPointwise` and `Build.ToFeaturesError` |
| Build.Written | build.js:32-78 | the collection a run writes, or none for a failed status (429 and 5xx included), a network failure, a malformed body or an unknown node; `Build.Run` and `RetryableFailureNotRetried` state its use |
| Build.Normalize | build.js:40-66 | a successful normalisation has one feature per way element; a failed one names a node id that some way references and no node element carries |
| Build.Run | build.js:32-78 | a response that is not OK, or a failing normalisation, is caught: nothing is written and nothing is thrown. Otherwise the collection is written |
| Build.RetryableFailureNotRetried | build.js:32-34 | on a 429/5xx response build.js writes nothing, while fetchData.js sleeps and retries |
| Build.FeatureCorrespondence | build.js:47-63 | for a way with tags the two normalisers succeed together, agree on id and geometry, and their properties carry the same name, step count and id |
| Build.NormalizersAgree | build.js:40-66 | wherever fetchData.js's normaliser succeeds, build.js's does too. When every way has tags they succeed together. Their features then agree pairwise |
| DevServer.ContentType | devServer.js:11-17 | the table's type for a known extension, `application/octet-stream` for any other, never empty |
| DevServer.HeaderEntry | devServer.js:25-31 | the key of a line's entry holds no colon, and key and value each have no white space at either end |
| DevServer.HeaderKey | devServer.js:26-27 | the key, the text before the first colon trimmed, holds no colon and has no white space at either end |
| DevServer.HeaderValue | devServer.js:26-28 | the value, the text after the first colon trimmed, has no white space at either end |
| DevServer.KeyBeforeColon | devServer.js:26-27 | the trimmed text before the first colon holds no colon |
| DevServer.SplitAtFirstColon | devServer.js:25-28 | a line is split at its first colon into the trimmed key and the trimmed rest, which may hold colons |
| DevServer.LineWithoutColon | devServer.js:26-28 | with no colon, `indexOf` is -1, so the key is the line minus its last character (a character being a Unicode scalar value) and the value is the whole line, each trimmed |
| DevServer.FromEntriesKeys | devServer.js:33 | the object's keys are exactly the entries' keys |
| DevServer.FromEntriesLastWins | devServer.js:33 | the value under a key is the last entry's value for it |
| DevServer.FromEntriesPairs | devServer.js:33 | every key of the object is held with its value by one of the entries |
| DevServer.FromEntries | devServer.js:33 | `Object.fromEntries` entry by entry; `FromEntriesKeys`, `FromEntriesLastWins` and `FromEntriesPairs` give its keys and values |
| DevServer.Entries | devServer.js:25-31 | one entry per line, pointwise the split of that line |
| DevServer.ParsedLines | devServer.js:25-33 | the object built from the lines' entries has exactly the lines' keys, each with the value of one of the lines with that key |
| DevServer.ParseHeaders | devServer.js:19-34 | `parseHeaders` yields exactly the keys of the header lines, and under each key the value of one header line with that key |
| DevServer.TrimEndAppend | devServer.js:23 | trailing white space after a non-blank part is cut from that part only |
| DevServer.TrimEndBlankTail | devServer.js:23 | a blank tail vanishes under end trimming |
| DevServer.BlankAfterFirstLine | devServer.js:23 | a file holding one line followed by blank text has no header lines |
| DevServer.TrimAfterFirstLine | devServer.js:23 | trimming a file whose first line starts visibly cuts only the end of the rest |
| DevServer.FirstLineDiscarded | devServer.js:23 | the first line of `_headers` is dropped; the header lines are the rest, end-trimmed and split at line feeds |
| DevServer.HeaderLines | devServer.js:23 | the trimmed file split at line feeds, without its first line; pinned by `FirstLineDiscarded` and `EmptySecondHeaderLine` |
| DevServer.LaterDuplicateWins | devServer.js:23-33 | when a key repeats, the later line's value wins |
| DevServer.RequestFile | devServer.js:37 | `/` names `index.html`; any other URL names itself without its leading slash |
| DevServer.ErrorReply | devServer.js:49-57 | 404 with "404 Not Found" exactly for `ENOENT`, 500 with "500 Internal Server Error" otherwise, always as `text/plain` |
| DevServer.ServedHeaders | devServer.js:44-47 | the headers handed to `writeHead` are every parsed header, with the extension's Content-Type replacing any Content-Type of the file |
| DevServer.IsTokenChar | devServer.js:44-47 | a character allowed in a header name by `writeHead` is visible ASCII and none of the RFC 7230 separators |
| DevServer.IsHttpToken | devServer.js:44-47 | a header name that `writeHead` accepts is non-empty visible ASCII without a colon |
| DevServer.IsHeaderValue | devServer.js:44-47 | a header value that `writeHead` accepts holds no line feed, carriage return or NUL, and no character above U+00FF |
| DevServer.ValidHeaders | devServer.js:44-47 | headers that `writeHead` accepts have no empty name, no name with a colon and no value with a line break |
| DevServer.HeaderErrorCode | devServer.js:44-57 | the code of `writeHead`'s error is never `ENOENT`, so the catch answers 500; an invalid name gives `ERR_INVALID_HTTP_TOKEN` |
| DevServer.Serve | devServer.js:37-57 | the reply is 200 exactly when `_headers` and the requested file can both be read and every served header has an HTTP token as its name and only tab, visible ASCII or Latin-1 characters in its value. It then carries the file and the served headers. Otherwise it is the error reply of whichever read failed first, and else of `writeHead`'s error, which is 500 |
| DevServer.InvalidHeaderIs500 | devServer.js:40-57 | a parsed header (other than Content-Type) whose name is not an HTTP token or whose value holds a character `writeHead` refuses makes every readable request answer 500 |
| DevServer.InvalidEntryInvalidates | devServer.js:44-47 | a parsed header other than Content-Type with a refused name or value is still refused after the spread and the Content-Type override |
| DevServer.HeaderErrorIs500 | devServer.js:40-57 | when both files read but `writeHead` refuses the headers, the reply is 500 |
| DevServer.BlankHeaderLineIs500 | devServer.js:23-57 | a blank line among the header lines becomes the empty name, which `writeHead` refuses, so every readable request answers 500 |
| DevServer.BlankLineEntry | devServer.js:25-31 | a blank line becomes the entry with empty key and empty value |
| DevServer.BlankLineParsed | devServer.js:25-33 | a blank line among the header lines puts the empty name into the parsed headers |
| DevServer.SplitEmptySecond | devServer.js:23 | a piece followed by two line feeds splits into the piece, the empty line, and the rest's lines |
| DevServer.EmptySecondHeaderLine | devServer.js:23 | in a file whose first line and end are visible, an empty line after the first header line is the second header line |
| DevServer.EmptyLineBetweenHeadersIs500 | devServer.js:23-57 | a `_headers` file such as a path line, `X-A: b`, an empty line and `X-C: d` makes every readable request answer 500 |
| DevServer.RootIsIndex | devServer.js:37 | `/` and `/index.html` get the same reply |
| DevServer.MissingHeadersFileIs404 | devServer.js:41-52 | without a `_headers` file every request gets 404, whatever file it names |
| JsText.TrimStart | devServer.js:23 | the result is a suffix that does not start with white space, and what was cut is white space (ECMAScript white space: tab, vertical tab, form feed, BOM, every space separator of category Zs, and the line terminators) |
| JsText.IsWhitespace | devServer.js:23-28 | ECMAScript's white space and line terminators, including every space separator; pinned by `TrimLeadingSpaceSeparator` and `TrimTrailingSpaceSeparator` |
| JsText.IsSpaceSeparator | devServer.js:27-28 | the code points of Unicode category Zs, each of which `trim` cuts |
| JsText.TrimStartThenEnd | devServer.js:23-28 | cutting white space in front and then behind leaves an infix amid white space whose ends are visible |
| JsText.TrimEnd | devServer.js:23 | the result is a prefix that does not end with white space, and what was cut is white space |
| JsText.Trim | devServer.js:23-28 | the result is a slice with no white space at either end, and only white space was cut on each side |
| JsText.TrimUntrimmed | devServer.js:27-28 | a string with visible ends is its own trim |
| JsText.TrimLeadingSpaceSeparator | devServer.js:27-28 | a leading space separator of any kind (no-break space, ogham space mark, en quad … hair space, narrow no-break space, medium mathematical space, ideographic space) is trimmed |
| JsText.TrimTrailingSpaceSeparator | devServer.js:27-28 | a trailing space separator of any kind is trimmed |
| JsText.TrimIdempotent | devServer.js:23-28 | trimming twice is trimming once |
| JsText.TrimWithin | devServer.js:27-28 | every character of the trimmed string is a character of the string |
| JsText.TrimKeepsVisible | devServer.js:27-28 | every character of the string that is not white space survives trimming |
| JsText.VisibleInInfix | devServer.js:27-28 | a visible character of a string lies inside any slice whose surroundings are only white space |
| JsText.TrimBlank | fetchData.js:82-83 | a string of white space only trims to the empty string |
| JsText.IndexOf | devServer.js:26 | -1 exactly when the character is absent; otherwise the position of its first occurrence |
| JsText.SliceTo | devServer.js:27 | `slice(0, end)`: a prefix, of length `end` when in range, counting from the end when negative, the whole string past the end and empty before the start |
| JsText.SliceFrom | devServer.js:28 | `slice(start)`: a suffix, of the length minus `start` when in range, the last `-start` characters when negative, empty past the end and the whole string before the start |
| JsText.SliceSplit | devServer.js:27-28 | the part before an index and the part from it make up the string again |
| JsText.Split | devServer.js:23 | at least one piece, and no piece contains the separator |
| JsText.Join | devServer.js:23 | the inverse of `split`, by `JoinSplit` and `SplitJoin` |
| JsText.JoinSplit | devServer.js:23 | joining the pieces with the separator gives back the string |
| JsText.SplitJoin | devServer.js:23 | splitting a join of separator-free pieces gives back the pieces |
| JsText.IndexOfAfterPiece | devServer.js:26 | the first separator after a separator-free piece is at the piece's length |
| JsText.SplitLeadingSeparator | devServer.js:23 | a leading separator gives an empty first piece |
| JsText.SplitAfterPiece | devServer.js:23 | splitting a piece, separator and rest gives the piece followed by the rest's pieces |
| JsText.NatToString | src/index.js:120 | a non-empty string of digits, with a leading `0` only for zero |
| JsText.IntToString | src/index.js:120 | a non-empty string, with a leading `-` exactly for negative numbers |
| JsText.DigitsValueOfNatToString | fetchData.js:83 | the digits of a number read back as that number |
| JsText.ToNumberOfNatToString | fetchData.js:83 | `Number(String(n))` is `n` for every natural `n` |
| JsText.ToNumber | fetchData.js:82-83 | `Number(s)` is never negative, is 0 for a blank string and NaN when a visible character is not a digit |
| JsText.ToNumberValue | fetchData.js:82-83 | `Number(s)` is the value of the digits when the trimmed string is all decimal digits (0 when it is blank), and NaN otherwise |
| JsText.ToNumberAfterSpace | fetchData.js:82-83 | a space separator before a string of digits does not change the number read |
| JsText.LeadingZero | fetchData.js:82-83 | a leading zero does not change the value of a string of digits, so `042` reads as 42 |
| JsText.DigitsValue | fetchData.js:83 | the decimal value of a string of digits; `DigitsValueOfNatToString` reads the printed number back |
| JsText.IntToStringInjective | src/index.js:146 | different totals have different cache keys |
| JsText.NatToStringInjective | src/index.js:146 | different natural numbers print differently |
| StairsJson.ExceedsMonotone | src/index.js:104-105 | a count above a higher bound is above a lower one |
| StairsJson.NumericValue | src/index.js:104-105 | the number JavaScript compares in `steps > bound`: NaN for undefined, 0 for `null`, the number itself, and `Number` of a text |
| StairsJson.Exceeds | src/index.js:104-105 | JavaScript's loose `>`, false whenever the count converts to NaN; `ExceedsMonotone`, `CircleColorThresholds` and `IconClassThresholds` pin it |
| StairsJson.Display | public/index.js:38 | `String(v)` and template printing: `undefined`, `null`, the decimal of a number, a text as itself |
| StairsJson.DisplayReadsBack | public/index.js:27-34 | a non-negative count written as text, as build.js writes it, compares under `>` as the number itself |
| StairsJson.FromStairFeature | fetchData.js:79-100 | a `step_count` that was undefined is absent after the JSON round trip, NaN arrives as `null`, and a number arrives as itself; id, positions and name are kept |
| StairsJson.FromBuildFeature | build.js:59-75 | build.js's `step_count` arrives as the tag's text, and is absent exactly when the tag was |
| StairsJson.StepCountOfNormalizedWay | fetchData.js:82-84 | read back, `step_count` is absent exactly when the tag is missing or empty; a non-empty tag that is decimal digits amid white space arrives as the digits' value, and the canonical decimal of n arrives as n |
| OlFrontEnd.CircleColorThresholds | src/index.js:102-107 | a count is drawn tomato above 100, orange above 50 up to 100, white up to 50, and blue when unknown |
| OlFrontEnd.CircleColor | src/index.js:102-107 | the colour is blue exactly for an unknown count, and otherwise one of tomato, orange or white |
| OlFrontEnd.CircleStyleFor | src/index.js:114-127 | radius 15, the count's circle colour, `?` for an absent or `null` count, the decimal of a number, and white text exactly for an unknown count |
| OlFrontEnd.ClusterStyleFor | src/index.js:147-158 | radius 15, never the unknown blue, the total's circle colour and its decimal in black |
| OlFrontEnd.ClusterStylesDistinct | src/index.js:146-161 | different totals get different styles, so the cache keyed by the total's string never mixes them up |
| OlFrontEnd.CircleKey | src/index.js:113 | the cache key is the count converted to a string; `CircleKeyCollision` shows two counts sharing one |
| OlFrontEnd.CircleKeyCollision | src/index.js:111-130 | an unknown count and the text "undefined" share a cache key although their styles differ; a property of the key alone, since `circleStyle` only styles the unknown-count layer (src/index.js:169-173), where every count is undefined |
| OlFrontEnd.ClusterTotalAppend | src/index.js:137-140 | the total of two groups of members is the sum of their totals |
| OlFrontEnd.ClusterTotalOfNumbers | src/index.js:137-140 | members whose count is not a number do not change the total |
| OlFrontEnd.ClusterTotal | src/index.js:137-140 | one member adds its count when that is a number and 0 otherwise (with `ClusterTotalAppend` this fixes the whole sum); no numeric count totals 0, and non-negative counts total at least 0 |
| OlFrontEnd.StyleCaches.constructor | src/index.js:109-132 | both caches start empty |
| OlFrontEnd.StyleCaches.CircleStyle | src/index.js:111-130 | a key seen before returns the cached style, unchanged; a new key stores and returns the count's style (radius 15, its colour, "?" or the count, white or black text) |
| OlFrontEnd.StyleCaches.ClusterStyle | src/index.js:134-162 | no style exactly when the total is 0 or the cluster is hidden. Otherwise the total's style, which is the same for equal totals because every cache entry matches its key. Only a new total adds an entry |
| OlFrontEnd.CreateMarker | src/index.js:33-49 | a marker exactly when the line has a first position. It sits at that position, kept as `[lon, lat]`. It carries the feature's id, step count and title |
| OlFrontEnd.Title | src/index.js:35-36 | the name when it is a non-empty string; otherwise `Trapp med ` + the printed count + ` trinn`, with `ukjent antal` for an absent or `null` count; never empty |
| OlFrontEnd.Placeable | src/index.js:179-186 | the features before the first one without coordinates all have coordinates |
| OlFrontEnd.LoadStop | src/index.js:179-186 | the loop stops at the first feature without coordinates |
| OlFrontEnd.MarkersWhere | src/index.js:179-186 | the markers made for one side are only of features whose count is (or is not) undefined, never more than there are features |
| OlFrontEnd.MarkersWhereAppend | src/index.js:179-186 | the markers of two runs of features are those of the first run followed by those of the second, so they keep the features' order |
| OlFrontEnd.MarkersWhereSnoc | src/index.js:179-186 | one more feature adds its own marker, if any, at the end |
| OlFrontEnd.MarkersWhereMembers | src/index.js:179-186 | a marker is made for a side exactly when it is the marker of a feature on that side |
| OlFrontEnd.PartitionSizes | src/index.js:177-186 | one marker is made per feature, on exactly one side, and the unknown count is the number made for the unknown side |
| OlFrontEnd.CountUnknown | src/index.js:177-181 | the counter never exceeds the number of features and stays 0 when no count is undefined; `PartitionSizes` equates it with the markers made for the unknown side |
| OlFrontEnd.AddFeature | src/index.js:49-50 | after `addFeature` the source holds a marker with the new id. It is unchanged exactly when it already held that id, and otherwise the marker is appended |
| OlFrontEnd.AddNewId | src/index.js:49-50 | a marker with a new id is appended |
| OlFrontEnd.SourceOf | src/index.js:49-50 | a vector source after `addFeature` of each marker in turn; pinned by `SourceKeepsFirstPerId` and `SourceOfDistinct` |
| OlFrontEnd.AddedLast | src/index.js:49-50 | one more marker is one more `addFeature` |
| OlFrontEnd.SourceIdsDistinct | src/index.js:49-50 | after `addFeature` of each marker in turn, the vector source never holds two markers with one id, nor more markers than were added |
| OlFrontEnd.SourceCoversIds | src/index.js:49-50 | every id added is held by the source |
| OlFrontEnd.SourceHoldsFirstPerId | src/index.js:49-50 | each marker in the source is the first one added with its id |
| OlFrontEnd.FirstStaysFirst | src/index.js:49-50 | a marker that is the first with its id stays so when another is added after it |
| OlFrontEnd.NewIdIsFirst | src/index.js:49-50 | a marker whose id the source lacks is the first added with that id |
| OlFrontEnd.SourceKeepsFirstPerId | src/index.js:49-50 | the source holds one marker per id added: the first with that id, and nothing else |
| OlFrontEnd.SourceOfDistinct | src/index.js:49-50 | markers with distinct ids are all held, in the order added |
| OlFrontEnd.MarkersWhereDistinct | src/index.js:43-49 | features with distinct ids give markers with distinct ids |
| OlFrontEnd.DistinctSnoc | src/index.js:49-50 | appending a marker with a new id keeps the ids distinct |
| OlFrontEnd.UnknownSourceSize | src/index.js:179-186 | the unknown source holds at most as many markers as the label counts, and exactly as many when the features' ids are distinct; features sharing an id are counted twice but placed once |
| OlFrontEnd.LoadStairs | src/index.js:177-186 | features are placed up to the first without coordinates. Each source is what `addFeature` of that side's markers, in order, leaves, so a repeated id is dropped. The count includes the failing feature when its count is unknown |
| OlFrontEnd.LoadTurn | src/index.js:179-186 | one turn of the `forEach` over a placeable feature moves the counter and adds the marker to its side's source only |
| OlFrontEnd.LoadStep | src/index.js:179-186 | one turn adds the feature's marker to a side's source exactly when the feature belongs to that side |
| OlFrontEnd.MarkerAtFirstNode | src/index.js:37-38 | a normalised way's marker sits at the `[lon, lat]` of its first node |
| LeafletFrontEnd.IconClassThresholds | public/index.js:27-34 | "extreme" above 100, "many" above 50 up to 100, "few" otherwise, including for an absent or `null` count |
| LeafletFrontEnd.IconClass | public/index.js:27-34 | the grade is one of "extreme", "many" and "few", and "few" for an absent or `null` count |
| LeafletFrontEnd.Title | public/index.js:38 | the name when it is a non-empty string; otherwise `Trapp med ` + the count as JavaScript prints it (`undefined`, `null`, the number or the text) + ` trinn`; never empty |
| LeafletFrontEnd.LayerStyle | public/index.js:75-77 | the line colour is one of the three grades, "few" for an absent or `null` count |
| LeafletFrontEnd.CreateMarker | public/index.js:36-49 | a marker exactly when the line has a first position; its position swaps `[lon, lat]` to `[lat, lon]`; its class is `div-icon` plus the grade, its text the count as printed, its title the name or "Trapp med … trinn" |
| LeafletFrontEnd.LineMatchesMarker | public/index.js:75-77 | a way's line colour is the grade its marker's class carries |
| LeafletFrontEnd.MarkerAtFirstNode | public/index.js:47-49 | a normalised way's marker sits at the `[lat, lon]` of its first node |
| LeafletFrontEnd.SamePlace | public/index.js:47-49 | both front ends place a stair at the same point, with the pair swapped |
| LeafletFrontEnd.GradesAgree | public/index.js:27-34 | apart from an unknown count (blue in one front end, "few" in the other), the colour and the grade agree for every count |
| LeafletFrontEnd.GradeColor | src/index.js:102-107 | the OpenLayers colour matching each Leaflet grade; `GradesAgree` shows it agrees with `CircleColor` for every known count |
| LeafletFrontEnd.TitlesAgree | public/index.js:38 | the two titles differ exactly for an unnamed stair whose count is absent or `null` |

## Left out

- Network, timers and logging: the Overpass request is a function from attempt number to response; the sleeps are recorded as delays and not waited for; `console` output is not modelled.
- The Overpass query text, `encodeURIComponent` and the HTTP server's listening are not modelled.
- `mkdir` and the `copyFile` steps of `main()`, and write failures of `writeFile`, are not modelled; a write is the replacement of the previous artifact.
- JSON text itself: a response body is already parsed elements (`None` for a body that is not valid JSON), and the written file is the feature values; key order is not modelled.
- DevServer.LineWithoutColon: strings are sequences of Unicode scalar values, not UTF-16 code units. For a colon-less line ending in a character above U+FFFF, `slice(0, -1)` cuts only the low surrogate and leaves a lone high surrogate in the key, while the model drops the whole character.
- DevServer.Serve: for the same reason, a `_headers` file with a path line, a line `abc😀` and a line `abc: x` gets 500 from the server, whose key `abc\uD83D` is not an HTTP token. The model answers 200, since its key is `abc`.
- DevServer.HeaderErrorCode: Node checks headers in insertion order, which a map does not keep, so when both an invalid name and an invalid value occur the model reports the name error; the reply is 500 either way.
- `String.prototype.normalize()` in `parseHeaders`: Unicode normalisation is taken as the identity.
- `path.join` normalisation of `..` segments and `extname`: the request extension is a parameter of `DevServer.Serve`.
- JsText.ToNumber: after trimming, only a blank string (0) and a string of decimal digits (its value) convert to a number. Any other string, including signs, decimals, exponents and hexadecimal, is taken as NaN.
- Coordinates and step counts are not floating point: latitudes and longitudes are reals that are only copied, and step counts are integers.
- OlFrontEnd.StyleCaches.ClusterStyle: `hiddenByUnknownFilter` is a parameter, since nothing in the core sets it.
- OlFrontEnd.LoadStairs: a throw in `createMarker` ends the loop early. The model returns what was placed until then. The later label update and the rejected promise are left out.
- Leaflet's `L.geoJSON` feature loop, the popup HTML, the map controls and dialogs, click handlers, cluster layout and src/geolocation.js and src/map.js are rendering and library code outside this model.
