# MapTiler geocoder input widget: a Dafny model of its parameter logic

The `Geocoder` class of `src/geocoder.js` turns a text field into an
autocomplete control backed by the MapTiler geocoding API. Most of the class is
browser glue. This project models the pure part of it:

- **the constructor** `new Geocoder(options)`: the key check, the
  `autocompleteWaitMs || 500` default, and the three setters run in order;
- **the three setters** `setLanguage`, `setBounds` and `setProximity`: each
  checks its argument, throws or stores a normalised value, and leaves every
  other field alone;
- **`getQueryUrl(query)`**: the request URL, with the query passed through
  `encodeURIComponent` (section 19.2.6 of ECMA-262, percent-encoding as in
  section 2.1 of RFC 3986, UTF-8 as in RFC 3629);
- **the text shown for a suggestion** inside `render`: the display name and the
  context line.

The geocoder object is an immutable record `Geocoding.Geocoder`. Each setter
is a pure function returning `Result<Geocoder, Error>`. `Failure` stands for a
thrown `Error`, and the caller then keeps its old record. `Geocoding.Apply` and
`Geocoding.Run` replay a client's sequence of setter calls over the object's
lifetime, whether each call throws or not.

Most operations are paired with a partner definition and a lemma that connects
the two:

- `encodeURIComponent` with a `decodeURIComponent`-style decoder
  (`UriEncoding.Decode`, connected by `UriEncoding.DecodeEncode`);
- `getQueryUrl` with a reader of URLs of the endpoint's shape
  (`QueryUrl.ParseQueryUrl`, connected by `QueryUrl.GetQueryUrlRoundTrip`);
- `join` with `split` (`Strings.Split`, connected by `Strings.SplitJoin` and
  `Strings.JoinSplit`);
- the setters with the invariant `Geocoding.Valid`: longitudes in [-180, 180],
  latitudes in [-90, 90], min ≤ max, and only allow-listed language codes
  (connected by `Geocoding.RunPreservesValid`);
- the `filter` of rejected language codes with concatenation
  (`Geocoding.InvalidCodesAppend`);
- the context line of `render` with its one-entry case and concatenation
  (`Suggestions.ContextLineSingle` and `Suggestions.ContextLineAppend`).

Two operations have no partner: the display name of `render`
(`Suggestions.DisplayName`) and the `autocompleteWaitMs || 500` default
(`Geocoding.WaitMs`). Each is specified only by its case split.

JavaScript values are modelled explicitly:

- `JsValues.Num` is NaN, ±Infinity or a finite real.
- `JsValues.Less` and `JsValues.Greater` are JavaScript's `<` and `>`, NaN
  included.
- `parseFloat` is exact for numbers, `null`, `undefined` and booleans. For
  strings it is the parameter `parseText`.
- The conversion of a number to text inside `join(',')` is the parameter
  `numToString`.

Modules, one file each:

- `Wrappers` (wrappers.dfy): `Option` and `Result`.
- `Strings` (strings.dfy): `Join`, `Split`, `SplitFirst`, `IndexOf` and the inverse
  lemmas.
- `JsValues` (jsvalues.dfy): numbers, truthiness, `parseFloat`, comparisons.
- `UriEncoding` (uri.dfy): `encodeURIComponent` and its decoder.
- `Languages` (languages.dfy): the 184-entry `VALID_LANGUAGES` table.
- `Geocoding` (geocoder.dfy): the record, the setters, the constructor and the
  lifetime.
- `QueryUrl` (queryurl.dfy): `getQueryUrl` and the URL reader.
- `Suggestions` (suggestions.dfy): the name and context text of `render`.
- `Scenarios` (scenarios.dfy): concrete cases, such as the "Berlin" URL, the
  example boxes and points, and the three-parameter URL.

Observable differences from the source, by design:

- A falsy argument to `setLanguage` (`null`, `undefined` or `""`) is stored as
  `None`. The source stores the falsy value itself. Every later reader, the
  `if (this.language_)` of `getQueryUrl`, treats all of them alike.

Behaviour kept from the source that is easy to miss:

- A non-null empty list `[]` is truthy in JavaScript:
  - `setLanguage([])` stores the empty list;
  - the URL then ends in `&language=` with an empty value.

## Model

| member | source | states |
|---|---|---|
| Geocoding.New | src/geocoder.js:30-57 | A missing or empty key fails with "No key provided." whatever else is passed. Construction succeeds exactly when the key is present and the language, bounds and proximity options are each acceptable to their setter. The object built is valid, keeps the key, and has a truthy wait. It stores what the setters store: the language as a list when truthy, else nothing; the four parsed box numbers and the two parsed point numbers when given, else nothing. With a key, the first setter to reject decides the error, in the order language, bounds, proximity, with that setter's message. |
| Geocoding.WaitMs | src/geocoder.js:39 | The wait is the option when that is a truthy number. Otherwise (missing, 0 or NaN) it is 500. It is never falsy. |
| Geocoding.LanguageTruthiness | src/geocoder.js:122 | `if (language)`: every array is truthy, the empty one included; a code is truthy unless it is the empty string; a missing language is falsy. |
| Geocoding.AsList | src/geocoder.js:123-125 | A lone code becomes a one-element list. A list is taken as it is. |
| Geocoding.InvalidCodes | src/geocoder.js:127 | A code is reported exactly when it is in the input and not on the allow-list. The report is never longer than the input. |
| Geocoding.InvalidCodesAppend | src/geocoder.js:127 | Filtering keeps input order: the report for a concatenation is the concatenation of the reports. |
| Geocoding.InvalidCodesCons | src/geocoder.js:127 | The report for a code in front of a list is that code, if it is off the allow-list, in front of the report for the rest. |
| Geocoding.InvalidCodesEmpty | src/geocoder.js:127-131 | The report is empty if and only if every code is on the allow-list. |
| Geocoding.SetLanguage | src/geocoder.js:121-135 | Throws if and only if the argument is truthy and some code is off the allow-list. The message is "Invalid language codes: " and the offending codes joined by ", ". A falsy argument clears the language, a lone code is stored as a one-element list, and a list is stored unchanged. No other field changes, and validity is preserved. |
| Geocoding.ParseAll | src/geocoder.js:146 | `map(n => parseFloat(n))`: one parsed number per value, in order. |
| Geocoding.AsBBox | src/geocoder.js:146-149 | Four parsed numbers give a box exactly when all four are finite. The box holds them in order. |
| Geocoding.BoundsRejected | src/geocoder.js:147-157 | The source's rejection test on four parsed numbers holds exactly when they do not form a box of finite, in-range, ordered coordinates. |
| Geocoding.SetBounds | src/geocoder.js:140-161 | Null clears the bounds. Otherwise the call succeeds if and only if there are four values whose parsed numbers are finite, in range and ordered min ≤ max; any other input throws "Invalid bounds". On success the parsed numbers are stored and no other field changes. |
| Geocoding.AsPoint | src/geocoder.js:172-174 | Two parsed numbers give a point exactly when both are finite. |
| Geocoding.ProximityRejected | src/geocoder.js:173-179 | The source's rejection test on two parsed numbers holds exactly when they do not form a finite in-range point. |
| Geocoding.SetProximity | src/geocoder.js:166-183 | Null clears the point. Any length other than 2 throws "Invalid proximity syntax". Two values that are not a finite in-range longitude/latitude throw "Invalid proximity value". Otherwise the parsed pair is stored and nothing else changes. |
| Geocoding.KeyProvidedMeansNonEmpty | src/geocoder.js:34-35 | `if (!this.key_)` passes exactly when a key is given and is not the empty string. |
| Geocoding.LanguageOrNull | src/geocoder.js:54 | `options_.language || null` keeps a truthy language as it is and is truthy exactly when the option is. |
| Geocoding.OrNullIsInvisible | src/geocoder.js:54 | Calling `setLanguage` with `options_.language || null` has the same outcome as calling it with the option itself. |
| Geocoding.Apply | src/geocoder.js:121-183 | A setter call, returning or throwing, can change only its own field. |
| Geocoding.Run | src/geocoder.js:121-183 | No sequence of setter calls changes the key or the wait. |
| Geocoding.RunAppend | src/geocoder.js:121-183 | Running two sequences of calls one after the other is running their concatenation. |
| Geocoding.ThrowLeavesStateUnchanged | src/geocoder.js:129-131 | A setter whose argument is rejected leaves the whole geocoder as it was. |
| Geocoding.RunPreservesValid | src/geocoder.js:140-183 | Any sequence of setter calls, in any order, throwing or not, keeps a valid geocoder valid. |
| JsValues.ParseFloat | src/geocoder.js:146 | A number parses to itself. `null`, `undefined` and booleans parse to NaN. |
| JsValues.Less | src/geocoder.js:150-153 | JavaScript's `<`: false when either side is NaN, the order of reals on finite numbers, true from -Infinity to anything larger, false from +Infinity. |
| JsValues.Greater | src/geocoder.js:150-154 | JavaScript's `>`: false when either side is NaN, the order of reals on finite numbers. |
| JsValues.LessTotal | src/geocoder.js:150-154 | Without NaN, `<` is asymmetric and any two different numbers are ordered one way or the other. |
| Languages.IsValidLanguage | src/geocoder.js:127 | `VALID_LANGUAGES.indexOf(l) != -1` holds exactly when the code is an entry of the table. |
| Languages.ValidLanguageShape | src/geocoder.js:5 | Every allow-listed code is two lower-case letters. So it contains neither the comma that joins codes nor the `&` that separates parameters, nor `#` or `%`. |
| UriEncoding.Unreserved | src/geocoder.js:191 | The characters `encodeURIComponent` leaves alone are ASCII and never `%`. |
| UriEncoding.UnreservedIsUriUnreserved | src/geocoder.js:191 | The unreserved set is exactly the union of ECMA-262's lists uriAlpha, DecimalDigit and uriMark. |
| UriEncoding.HexDigit | src/geocoder.js:191 | Escapes use upper-case hex digits, and each digit reads back as its value. |
| UriEncoding.Utf8 | src/geocoder.js:191 | A character is one to four octets; exactly ASCII takes one, and every octet after the first is a continuation octet. |
| UriEncoding.EncodeChar | src/geocoder.js:191 | An unreserved character passes unchanged. Any other becomes three characters per UTF-8 octet, only `%` and upper-case hex digits, starting with `%`, and reading the escapes back gives exactly its UTF-8 octets: one `%XX` escape per octet. |
| UriEncoding.EncodeUriComponent | src/geocoder.js:191 | The encoded query consists only of unreserved characters and escapes: every `%` is followed by two upper-case hex digits. A query of unreserved characters only is sent unchanged. The result is at least as long as the query. |
| UriEncoding.EncodeAppend | src/geocoder.js:191 | Encoding works character by character: the encoding of a concatenation is the concatenation of the encodings. |
| UriEncoding.Utf8RoundTrip | src/geocoder.js:191 | UTF-8 decoding gives back every scalar value that was encoded. |
| UriEncoding.DecodeEncodeChar | src/geocoder.js:191 | Decoding one encoded character in front of more text gives back that character. |
| UriEncoding.DecodeEncode | src/geocoder.js:191 | Decoding the encoded query gives back the original query, for every string. |
| QueryUrl.Format | src/geocoder.js:197-202 | One text per number, in order, each as the number conversion writes it. |
| QueryUrl.LanguageParam | src/geocoder.js:194-196 | No text without a language. Otherwise `&language=` followed by a value that, for a non-empty list of codes without commas, splits back at commas into the codes: the array converts to its comma join. |
| QueryUrl.BoundsParam | src/geocoder.js:197-199 | No text without bounds. Otherwise `&bbox=` followed by a value that splits back at commas into the four numbers as written, min longitude, min latitude, max longitude, max latitude. |
| QueryUrl.ProximityParam | src/geocoder.js:200-202 | No text without a point. Otherwise `&proximity=` followed by a value that splits back at commas into the longitude and the latitude as written. |
| QueryUrl.GetQueryUrl | src/geocoder.js:189-205 | The URL always starts with the base, the encoded query, `.json?key=` and the key. With no optional setting it is exactly that. |
| QueryUrl.EncodedQueryIsOneSegment | src/geocoder.js:191-193 | The encoded query contains no `/`, `?`, `#` or `&`, so it stays one path segment. |
| QueryUrl.ValidCodeReachesUrl | src/geocoder.js:194-196 | Setting any allow-listed code (any entry of the table) succeeds. The URL then carries `&language=` and that code, between the key and the other parameters. |
| QueryUrl.UrlIgnoresWait | src/geocoder.js:189-205 | The URL depends only on the query, the key and the three optional settings. |
| QueryUrl.UrlShape | src/geocoder.js:191-202 | For every geocoder and query, the URL starts with the base, and its first `?` comes right after the encoded query and `.json`. What follows it is the `&`-joined key and settings. |
| QueryUrl.SearchIsJoinedParams | src/geocoder.js:193-202 | The query string is `key`, then `language`, `bbox` and `proximity` in that order, each present exactly when set, joined by `&`. |
| QueryUrl.SettingsParamsPlain | src/geocoder.js:193-202 | For a valid geocoder, no parameter name or value contains `&`, `#` or `%`, and no name contains `=`, given a key and number texts without `&`, `#` and `%`. |
| QueryUrl.QueryString | src/geocoder.js:193-202 | The reader's query string is the text before the first `#`, and all of it when there is none. |
| QueryUrl.DecodeParams | src/geocoder.js:191-202 | The reader's decoding succeeds exactly when every name and value decodes, and then gives each one decoded, in order. |
| QueryUrl.DecodeParamsPlain | src/geocoder.js:193-202 | Names and values without `%` read back unchanged. |
| QueryUrl.ParamsRoundTrip | src/geocoder.js:193-202 | A query string built from `name=value` pairs reads back as those pairs in order. |
| QueryUrl.GetQueryUrlRoundTrip | src/geocoder.js:189-205 | Reading back the URL of a valid geocoder, with a reader that stops at `#` and percent-decodes every name and value, gives the original query, then the key, then exactly the optional parameters that are set, in the order language, bbox, proximity. |
| QueryUrl.ParameterValuesRoundTrip | src/geocoder.js:194-202 | Each comma-joined value splits back into what is stored, in stored order: the language codes, the four box coordinates and the two point coordinates. |
| Strings.Join | src/geocoder.js:198 | `Array.prototype.join`: no parts give the empty string (the other properties are the lemmas below). |
| Strings.IndexOf | src/geocoder.js:127 | `indexOf`: -1 exactly when the value is absent; otherwise the position of its first occurrence. |
| Strings.JoinAppend | src/geocoder.js:130 | Joining a concatenation is joining each part, with the separator once between. |
| Strings.SplitJoin | src/geocoder.js:198 | Splitting at a one-character separator undoes `join` when no part contains that character. |
| Strings.JoinSplit | src/geocoder.js:198 | Joining the pieces of a split with the separator restores the text. |
| Strings.JoinLength | src/geocoder.js:93 | A join is as long as its parts plus one separator between each two neighbours. |
| Suggestions.DisplayName | src/geocoder.js:92 | The name is `text` when that is non-empty, else `place_name`. It is non-empty exactly when one of the two is. |
| Suggestions.EntryText | src/geocoder.js:93 | `c.text`: the entry's text, or the empty string for a missing text, as `join` writes `undefined`. |
| Suggestions.Texts | src/geocoder.js:93 | `map(c => c.text)`: one text per entry, in order. |
| Suggestions.ContextLine | src/geocoder.js:93 | With no `context`, or an empty one, the line is empty. |
| Suggestions.ContextLineSingle | src/geocoder.js:93 | A single context entry shows as its text alone. |
| Suggestions.ContextLineAppend | src/geocoder.js:93 | The line for two runs of entries is the two lines joined by ", ". Every entry's text appears once, in entry order. |
| Suggestions.ContextLineLength | src/geocoder.js:93 | The line is as long as the texts plus two characters between each two neighbours. |
| Scenarios.BerlinUrl | src/geocoder.js:189-205 | With key "abc" and nothing else set, the URL for "Berlin" is `https://api.maptiler.com/geocoding/Berlin.json?key=abc`. |
| Scenarios.SpaceIsPercentTwenty | src/geocoder.js:191 | A space in the query is sent as `%20`. |
| Scenarios.MissingKeyThrows | src/geocoder.js:32-37 | No options, or an empty key, throws "No key provided.", even when an invalid language is also given. |
| Scenarios.ZeroWaitBecomesDefault | src/geocoder.js:39 | A wait of 0 becomes 500. |
| Scenarios.SingleLanguageStored | src/geocoder.js:121-135 | `setLanguage("en")` stores `["en"]`. |
| Scenarios.SingleLanguage | src/geocoder.js:194-196 | The language `["en"]` is sent as `&language=en`. |
| Scenarios.InvalidLanguagesNamed | src/geocoder.js:127-131 | `["en", "english", "de", "EN"]` throws "Invalid language codes: english, EN". |
| Scenarios.EmptyLanguageListStored | src/geocoder.js:121-135 | `setLanguage([])` succeeds and stores the empty list. |
| Scenarios.EmptyLanguageList | src/geocoder.js:122-134 | An empty list is accepted and stored, and the URL then ends in `&language=`. |
| Scenarios.EmptyStringClearsLanguage | src/geocoder.js:122-134 | `setLanguage("")` does no validation and leaves no language set. |
| Scenarios.BoundsExamples | src/geocoder.js:140-161 | `[-10, -5, 10, 5]` is stored. `[-200, 0, 10, 10]`, `[10, 0, -10, 10]`, a three-element list and a list with `-Infinity` and `null` all throw. |
| Scenarios.ProximityExamples | src/geocoder.js:166-183 | `[13.4, 52.5]` is stored. `[200, 0]` is an invalid value, and `[0]` is invalid syntax. |
| Scenarios.AllParameters | src/geocoder.js:193-202 | With language `["en","de"]`, bounds `[-1,-1,1,1]` and proximity `[0,0]`, the URL appends `&language=en,de`, the four bbox numbers and the two proximity numbers, in that order. |

## Left out

- The input binding: `setInput_`, the `autocompleter` configuration, DOM classes, `maxLength`, element creation and the `render` elements (src/geocoder.js:41-49, 63-116). This is UI glue over a third-party library whose code is not part of this model. Only the name and context text of `render` are modelled.
- `item.place_type` in `render`: it is copied into the DOM without any computation.
- `geocode` and the fetch callback's `then`/`catch`/`console.error` path. This is network I/O and promise plumbing.
- `EventEmitter` (`select`, `hover`) and `document.getElementById`. These are calls into the runtime.
- The text grammar of `parseFloat` for strings. It is the parameter `parseText`, so every contract holds for any grammar.
- Number-to-string conversion in `join(',')`. It is the parameter `numToString`. The URL round trip assumes only that it writes no `&`, `,`, `#` or `%`, which JavaScript's conversion never does.
- IEEE-754 doubles. Finite numbers are exact reals, so rounding and negative zero are not modelled. Comparisons with -0 behave like comparisons with 0 in JavaScript too.
- Option values of other JavaScript types: a non-string key, a non-number `autocompleteWaitMs`, and a language that is neither a string nor an array. Bounds and proximity arguments are arrays or absent.
- Lone surrogates in the query, which make `encodeURIComponent` throw a URIError. Dafny characters are Unicode scalar values, so such a query cannot be written.
- QueryUrl.GetQueryUrlRoundTrip requires that the key contains no `&`, `#` or `%`. The source does not encode the key, so a key containing `&` would split into extra parameters, one containing `#` would cut the query string short, and one containing `%` could decode to a different key or fail to decode.
- Geocoding.SetLanguage stores a list as a value, so it does not model that the source keeps a reference to the caller's array: a later mutation of that array changes the URL and bypasses the allow-list. It also does not model non-string codes in a list (`['en', null]` throws "Invalid language codes: " with an empty name, because `join` writes `null` as nothing). Nor does it model non-primitive coordinate elements in bounds or proximity (`parseFloat([5])` is 5, through the array's string form).
- QueryUrl.ParameterValuesRoundTrip excludes the empty language list. `[]` joins to the empty string, which splits back into one empty code.
- `webpack.config.js`: build configuration with no behaviour.
