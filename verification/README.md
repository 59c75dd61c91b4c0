# fasthttp-routing content negotiation, slash remover and client IP, in Dafny

This project models four small pieces of the fasthttp-routing Go package and
proves properties about them:

- **Accept-header parsing and media-type negotiation** (`content/negotiator.go`),
  module `Negotiator`. It is a simplified reading of the Accept grammar in
  section 5.3.2 of RFC 7231. An Accept header is split on `,` into media
  ranges, and each range on `;` into `type/subtype` and parameters. The
  `q` parameter becomes the weight. A nested best-so-far loop then picks
  an offer: at equal weight, exact `type/subtype` beats `type/*`, which
  beats `*/*`, and among exact matches at an equal score the offer sharing
  more parameters with the range wins. The shared-parameter count is never
  reset, so it can also outweigh a higher score (see Findings).
- **The content-type negotiator handler** (`content/type.go`), module
  `ContentType`. `TypeNegotiator` defaults the format list to HTML and
  refuses formats without a data writer. The handler it returns negotiates
  a format for each request, installs that format's writer and sets the
  Content-Type response header that writer announces.
- **The trailing-slash remover** (`slash/remover.go`), module `Slash`.
  A request path that is not `/` and ends in `/` is redirected to the path
  without its trailing slashes. As documented, GET requests get the
  configured status and other requests get 307; as written, the first
  non-GET redirect makes 307 stick for every later request (see Findings).
- **The access logger's client IP** (`access/logger.go`, `GetClientIP`),
  module `Access`.

Supporting modules:

- `Wrappers` holds `Option` and `Result`.
- `Text` holds the Go `strings` functions the core uses (`TrimSpace`,
  `LastIndex` and `TrimRight` with one cut character), and `IndexOf`, the
  first-index search that `extractField`'s range loop makes.
- `Routing` holds the request context the handlers touch: the request
  method, path and headers, and the response headers, status, data writer
  and abort flag.

The loops of the source are methods proved against specification functions:

| loop | specification function | reference definition |
|---|---|---|
| `ParseAcceptRanges` | `RangesFrom` (accumulator form) | `ParseAll(Fields(..., ','))` |
| `extractParams` | `ParamsFrom` | `ParamsOf(ParamPairs(Fields(..., ';')))` |
| `compareParams` | — | `SharedKeys`, with `count == |SharedKeys|` |
| `negotiateContentType` | `ScanOffers` / `ScanAccepts` / `Step` | — |
| `TypeNegotiator` validation | — | stated directly |

Lemmas connect each specification function to its reference definition.

Modelling choices:

- Strings are sequences of characters, where Go indexes bytes. The
  offsets differ once a multi-byte character comes before a separator, but
  the pieces cut out are the same, since every separator is ASCII.
- `strconv.ParseFloat` is a parameter `parse: string -> Option<real>`.
  Weights are `real`.
- The mutable `DataWriters` global is an explicit `writers` map.
- The connection's remote address is an input string.
- The panic in `TypeNegotiator` is a `Failure` carrying the panic message.
- A missing writer at request time is a nil writer, `None`.

## Model

| member | source | states |
|---|---|---|
| Text.TrimSpace | content/negotiator.go:111-112 | the result is no longer than the input and has no white space at either end |
| Text.TrimSpaceIsLeftThenRight | content/negotiator.go:111-112 | trimming both ends equals trimming the left end and then the right end |
| Text.TrimLeftRemovesSpaces | content/negotiator.go:111-112 | everything the left trim removes is white space |
| Text.TrimRightRemovesSpaces | content/negotiator.go:111-112 | everything the right trim removes is white space |
| Text.IndexOf | content/negotiator.go:109-110 | -1 exactly when the character is absent; otherwise the index of its first occurrence |
| Text.LastIndexOf | access/logger.go:91 | -1 exactly when the character is absent; otherwise an occurrence with none after it |
| Text.TrimRightChar | slash/remover.go:41 | the result is a prefix of the input, everything cut off is the cut character, and the result does not end with it |
| Negotiator.ExtractField | content/negotiator.go:107-117 | without the separator the input comes back whole and untrimmed with an empty rest; the field never holds the separator; the rest is no longer than the input |
| Negotiator.ScanField | content/negotiator.go:108-116 | a scan from any index that meets no separator keeps the whole text and leaves an empty rest |
| Negotiator.ExtractFieldAt | content/negotiator.go:109-113 | at the first separator, the field is the trimmed text before it and the rest is the trimmed text from it on |
| Negotiator.ExtractFieldTrims | content/negotiator.go:110-113 | when the separator occurs, both parts are trimmed and the rest starts with the separator |
| Negotiator.ExtractFieldAvoids | content/negotiator.go:107-117 | neither part holds a character the input lacks |
| Negotiator.ExtractFieldAndSkipToken | content/negotiator.go:99-105 | the field never holds the separator; "" splits into two empty parts; the rest is strictly shorter than a non-empty input, which is what makes the splitting loops terminate |
| Negotiator.SkipTokenAtFirst | content/negotiator.go:99-105 | at the first separator, the field is the trimmed text before it and the rest is the text after it, trimmed on the right |
| Negotiator.SkipTokenClean | content/negotiator.go:99-105 | splitting `a<sep>b`, with no separator in `a` and no white space in either part, gives back `a` and `b` |
| Negotiator.Fields | content/negotiator.go:49-56 | a splitting loop always yields at least one field |
| Negotiator.FieldsAvoid | content/negotiator.go:49-56 | no field holds the separator |
| Negotiator.KeyValue | content/negotiator.go:88 | the key never holds `=`; a parameter without `=` is a key with the value "" |
| Negotiator.ParamPairsMembers | content/negotiator.go:84-90 | every non-empty segment contributes its key/value pair and nothing else contributes one, so empty segments are skipped |
| Negotiator.ParamsOfKeys | content/negotiator.go:87-90 | a key is in the parameter map exactly when some pair names it |
| Negotiator.ParamsOfLastWins | content/negotiator.go:89 | a key's value is that of the last pair naming it, so a later duplicate overrides an earlier one |
| Negotiator.ParamsFromFold | content/negotiator.go:84-94 | the loop's map, started from the pairs already visited, is the map of the pairs of all the segments |
| Negotiator.ParamsAreFold | content/negotiator.go:81-97 | the parameters of a text are the map of the key/value pairs of its `;`-separated non-empty segments |
| Negotiator.ExtractParams | content/negotiator.go:81-97 | the loop computes exactly that map |
| Negotiator.ParamsEmpty | content/negotiator.go:81-97 | an empty parameter text has no parameters |
| Negotiator.ParamsSingle | content/negotiator.go:81-97 | `key=value` without white space holds exactly that parameter |
| Negotiator.ExtractWeight | content/negotiator.go:71-79 | the `q` parameter's value when it parses as a number, and 1 otherwise |
| Negotiator.ParseAcceptRange | content/negotiator.go:61-69 | the input is kept verbatim as the raw string |
| Negotiator.ParseAcceptRangeShape | content/negotiator.go:61-68 | the type holds neither `/` nor `;` and the subtype holds no `;`; the weight is the one the parameters give; without `;` there are no parameters and the weight is 1; without `/` and `;` the whole text is the type |
| Negotiator.ParseTypeSubtype | content/negotiator.go:61-68 | `type/subtype` without white space parses to exactly those parts, no parameters and weight 1 |
| Negotiator.ParseTypeSubtypeParam | content/negotiator.go:61-68 | `type/subtype;key=value` parses to those parts, that one parameter and the weight it implies |
| Negotiator.ParseAll | content/negotiator.go:131-134 | one range per offer, in order, each keeping its offer as the raw string |
| Negotiator.ParseAllSnoc | content/negotiator.go:132-133 | parsing one more offer appends its range |
| Negotiator.RangesFromFold | content/negotiator.go:49-56 | the loop's ranges, started from those already visited, are the parsed fields of the whole header |
| Negotiator.AcceptRangesAreParsedFields | content/negotiator.go:46-58 | the ranges of a header are its `,`-separated fields, each parsed; there is always at least one, and no raw string holds `,` |
| Negotiator.ParseAcceptRanges | content/negotiator.go:46-58 | the loop returns those ranges: at least one, even for an empty header, and none whose raw string holds `,` |
| Negotiator.AcceptRangesSingle | content/negotiator.go:46-58 | a header without `,` is a single range |
| Negotiator.AcceptRangesPair | content/negotiator.go:46-58 | a header `a,b` without white space is the two ranges, in order |
| Negotiator.SharedKeysBound | content/negotiator.go:119-126 | no more keys are shared than either map has |
| Negotiator.CompareParams | content/negotiator.go:119-126 | the count is the number of keys of the first map that the second holds with an equal value, and is at most the size of either map |
| Negotiator.Booster | content/negotiator.go:146-154 | the bonus is 0 for `*`, 1 for `type/*` and 2 for an exact type and subtype |
| Negotiator.Matches | content/negotiator.go:158-164 | `*/*` covers every offer; a range naming a type covers only offers of that type; a range naming a subtype covers only offers with that type and subtype |
| Negotiator.Step | content/negotiator.go:156-171 | a comparison either keeps the best so far or takes an offer the range covers; it takes a covered offer whenever the range's score (weight plus bonus) reaches the best weight and, for an exact match, the range shares at least the recorded number of parameters with it; an exact range sharing fewer than that leaves the best unchanged; a `*/*` or `type/*` range keeps the recorded parameter count, and an exact take records the shared count; the best weight and parameter count never decrease, and a change only happens at a score no lower than the best weight |
| Negotiator.ScanAccepts | content/negotiator.go:145-172 | the inner loop ends with the starting text or the offer's, and never lowers the best weight or parameter count |
| Negotiator.ScanAcceptsNoMatch | content/negotiator.go:156-171 | if no range covers the offer, the inner loop changes nothing |
| Negotiator.ScanAcceptsTakesMatch | content/negotiator.go:145-172 | from a score of 0, an offer that some non-negatively weighted range covers is taken |
| Negotiator.ScanOffers | content/negotiator.go:144-173 | the outer loop never lowers the best weight or parameter count |
| Negotiator.ScanOffersPicksOffer | content/negotiator.go:139-176 | the outer loop ends with the default's raw string or one of the offers' |
| Negotiator.ScanOffersNoMatch | content/negotiator.go:139-176 | if no range covers any offer, the default is returned |
| Negotiator.NegotiatedIsMatchingOffer | content/negotiator.go:139-176 | if some non-negatively weighted range covers some offer, one of the offers is returned, not the default |
| Negotiator.SharedParamsBreakTie | content/negotiator.go:164-170 | two offers of the type and subtype an exact range names: the one sharing more parameters with the range wins, and on equal counts the later one does |
| Negotiator.ExactBeatsWildcard | content/negotiator.go:146-163 | at equal weight, in either order of the ranges and of the offers, the offer an exact `type/subtype` range names is chosen over another subtype that only `type/*` covers |
| Negotiator.TypeBeatsAnyType | content/negotiator.go:146-161 | at equal weight, in either order of the ranges and of the offers, the offer whose type a `type/*` range names is chosen over an offer of another type that only `*/*` covers |
| Negotiator.StaleParamCountOverridesWeight | content/negotiator.go:139-171 | against `a/b;x=1;q=0.5,a/c`, offers `a/b;x=1` and `a/c` give `a/b;x=1` at score 2.5, though `a/c` matches at score 3; the corrected scoring gives `a/c` |
| Negotiator.CorrectedStep | content/negotiator.go:156-171 | the corrected comparison never lowers the best weight, leaves it at least at the score of a range that covers the offer, and takes a covered offer whose score is strictly higher; any change takes the offer at exactly the range's score; a `*/*` or `type/*` take records 0 shared parameters; an exact range at an equal score is taken exactly when it shares at least the recorded count, and at a higher score always, recording its shared count |
| Negotiator.CorrectedScanAcceptsIsMax | content/negotiator.go:145-172 | the corrected inner loop ends at a score no covering range exceeds, and either changes nothing or ends on the offer at the score of a range that covers it |
| Negotiator.CorrectedScanOffersIsMax | content/negotiator.go:139-176 | the corrected negotiation ends at a score no matching (offer, range) pair exceeds, and, unless it keeps the start, on an offer at the score of a range that covers it: the returned offer is one reaching the highest score |
| Negotiator.NegotiateRanges | content/negotiator.go:139-176 | the nested loop computes the scan; it returns the default or an offer, and the default when there are no offers or no ranges |
| Negotiator.NegotiatedIsOfferOrDefault | content/negotiator.go:128-137 | negotiation from header text returns the default text or one of the offered texts |
| Negotiator.NegotiateContentType | content/negotiator.go:128-137 | the exported negotiation parses the header and the offers and returns the negotiated text, which is the default or an offer |
| Routing.Peek | access/logger.go:84 | a present header's value, and "" for an absent one |
| Routing.Context.SetHeader | slash/remover.go:41 | sets one response header and changes nothing else |
| Routing.Context.SetStatusCode | slash/remover.go:42 | sets the status and changes nothing else |
| Routing.Context.Abort | slash/remover.go:43 | marks the chain aborted and changes nothing else |
| Routing.ContentTypeOf | content/type.go:62-100 | a writer announces its own media type, with `; charset=UTF-8` added for XML and HTML only |
| Routing.Context.SetDataWriter | content/type.go:41-42 | installs the writer and sets the Content-Type response header to the one it announces; a nil writer sets no header; status and abort flag are unchanged |
| ContentType.WriterContentTypes | content/type.go:64-100 | JSON sets `application/json`; XML sets `application/xml; charset=UTF-8`; HTML sets `text/html; charset=UTF-8` |
| ContentType.DefaultWriterTable | content/type.go:28-33 | the built-in table has JSON, XML, `text/xml` and HTML; `text/xml` is answered as `application/xml` |
| ContentType.TypeNegotiator | content/type.go:45-53 | construction succeeds exactly when every format has a writer; no formats means `[text/html]`; otherwise it fails with `<format> is not supported` for the first format without a writer |
| ContentType.UnknownFormatRefused | content/type_test.go:75-77 | the format "unknown" is refused with "unknown is not supported" |
| ContentType.HandlerFormat | content/type.go:55-57 | the negotiated format is always one of the handler's formats |
| ContentType.Handle | content/type.go:41-59 | the handler installs the writer of the negotiated format and sets the Content-Type that writer announces; when every format has a writer both are always set; it returns nil and leaves the status and abort flag alone |
| ContentType.ServedContentType | content/type.go:41-59 | a GET request served by the handler TypeNegotiator builds leaves the Content-Type of the negotiated format's writer on the response |
| ContentType.SingleFormatAlwaysChosen | content/type.go:55-57 | a handler with one format always chooses it |
| ContentType.NoFormatsMeansHTML | content/type.go:46-48 | without formats, the handler chooses `text/html` whatever the Accept header says |
| ContentType.ExactRangePicksIt | content/type.go:55-57 | against `t/a` and `t/b`, a header asking exactly for `t/b` gets `t/b` |
| ContentType.AcceptXMLPicksXML | content/type_test.go:60-65 | `application/xml` against JSON and XML chooses XML |
| ContentType.UnmatchedRangePicksFirst | content/type.go:39-56 | any Accept header none of whose ranges covers any of the handler's formats gets the first format |
| ContentType.OtherSubtypeFallsBack | content/type.go:39-56 | against `t/a` and `t/b`, a header asking for another subtype `t/c` gets `t/a` |
| ContentType.AcceptPDFPicksJSON | content/type_test.go:67-73 | `application/pdf` against JSON and XML falls back to JSON |
| ContentType.MatchingParameterWins | content/negotiator.go:164-170 | in the versioned scenario (offers `t/j;k=v2`, `t/j;k=v1`, `t/x`; ranges `t/x` and `t/j;k=v1`, all weight 1), the offer sharing `k=v1` is chosen; the general tie-break is SharedParamsBreakTie |
| ContentType.VersionedAcceptIsPair | content/negotiator.go:46-58 | the header `t/x,t/j;k=v1` splits into its two ranges |
| ContentType.MatchingParameterPicksVersion | content/type_test.go:120-124 | formats `t/j;k=v2`, `t/j;k=v1` and `t/x` against `t/x,t/j;k=v1` choose `t/j;k=v1` |
| ContentType.AcceptVersionPicksV1 | content/type_test.go:103-124 | `application/xml,application/json;v=1` against the v=2 JSON, v=1 JSON and XML formats chooses v=1 JSON |
| ContentType.VersionedOtherFallsBack | content/type_test.go:126-131 | formats `t/j;k=v2`, `t/j;k=v1` and `t/x` against another subtype `t/c` choose `t/j;k=v2` |
| ContentType.AcceptPDFPicksV2 | content/type_test.go:126-131 | `application/pdf` against the v=2 JSON, v=1 JSON and XML formats chooses v=2 JSON |
| ContentType.DefaultContentType | content/type_test.go:52-57 | a handler built without formats sets `text/html; charset=UTF-8`, whatever the Accept header |
| ContentType.AcceptedContentType | content/type_test.go:60-64 | JSON and XML offered, `application/xml` asked for: the response's Content-Type is `application/xml; charset=UTF-8` |
| ContentType.FallbackContentType | content/type_test.go:68-72 | JSON and XML offered, `application/pdf` asked for: the response's Content-Type is `application/json` |
| ContentType.VersionedWriters | content/type_test.go:115-116 | the built-in writers plus one writer for each JSON version |
| ContentType.VersionedWriterTable | content/type_test.go:85-116 | each versioned JSON format is written by a writer announcing that format, and every versioned format has a writer |
| ContentType.VersionedContentType | content/type_test.go:118-123 | the versioned formats against `application/xml,application/json;v=1` leave the Content-Type `application/json;v=1` |
| ContentType.VersionedFallbackContentType | content/type_test.go:126-131 | the versioned formats against `application/pdf` leave the Content-Type `application/json;v=2` |
| Slash.NeedsRedirect | slash/remover.go:35 | a path is redirected exactly when it has at least two characters and ends in `/` |
| Slash.RedirectLocation | slash/remover.go:41 | the path is the Location followed by the slashes removed; the Location does not end with `/` |
| Slash.RedirectTargetIsFinal | slash/remover.go:35-41 | a redirected path loses at least one slash, and the Location needs no further redirect |
| Slash.RedirectLocationEmpty | slash/remover.go:41 | the Location is empty exactly when the path is all slashes, such as `//` |
| Slash.RedirectExamples | slash/remover_test.go:16-37 | `/users/` redirects to `/users`; `/` and `/users` are not redirected |
| Slash.Remover.constructor | slash/remover.go:33 | the handler starts with the configured status |
| Slash.Remover.Handle | slash/remover.go:33-47 | a path that is not `/` and ends in `/` gets Location without trailing slashes, the held status, and an abort; a non-GET request first overwrites the held status with 307; any other path leaves the response and the held status alone; it always returns nil |
| Slash.StickyRedirect | slash/remover.go:36-38 | after a POST redirect, a GET redirect from the same handler configured with 301 is answered with 307 |
| Slash.FixedRemover.Handle | slash/remover.go:17-19 | GET redirects use the configured status and other redirects use 307, whatever came before |
| Slash.FixedRedirect | slash/remover.go:17-19 | the same POST-then-GET sequence gets 307 and then 301 |
| Access.GetClientIP | access/logger.go:82-95 | the result is a prefix of the chosen address; it is the whole address when there is no `:`; otherwise it stops at the last `:` |
| Access.ClaimedAddress | access/logger.go:84-90 | the address is X-Real-IP, X-Forwarded-For or the remote address, and it is empty only when all three are |
| Access.ClaimedAddressPrecedence | access/logger.go:84-90 | a non-empty X-Real-IP wins, then a non-empty X-Forwarded-For, then the remote address |
| Access.HostPortDropsPort | access/logger.go:91-93 | `host:port`, with no `:` in the host, gives the host |
| Access.ClientIPExamples | access/logger_test.go:53-71 | the header and remote-address cases give `192.168.100.1`, `192.168.100.2`, `192.168.100.3` and, for `192.168.100.3:8080`, `192.168.100.3` |
| Access.IPv6LiteralIsCut | access/logger.go:91-93 | an IPv6 literal loses its last group: `::1` gives `:` |

## Left out

- The `Write` methods of the JSON, XML and HTML writers, and `writer.go`, are encoder and I/O calls. A writer is known here only by the Content-Type its `SetHeader` sets.
- `reader.go` is reflection-driven form filling plus the JSON and XML decoders. Only its four MIME constants are used.
- `content/language.go` delegates its matching to `golang.org/x/text/language`, a foreign library.
- `CustomLogger` and `Logger` in `access/logger.go` measure wall-clock time and format log lines.
- The real number parsing of `strconv.ParseFloat` (NaN, infinities, rounding) is left out; the parser is a parameter.
- `context.go` and fasthttp are not part of this model. `SetDataWriter` is modelled as the handler's documentation describes it: it stores the writer and the writer's `SetHeader` sets the Content-Type. Other headers a custom writer might set are not modelled.
- Routing.Context.SetDataWriter: a nil writer (a format dropped from the writer table after the handler was built) sets no header here; calling `SetHeader` on it in Go would panic, and that panic is not modelled.
- Header names are looked up exactly as given. fasthttp's case-insensitive header matching is not modelled.
- `AcceptMediaTypes` is the Accept header's text passed straight to `ParseAcceptRanges`.
- `NegotiateContentType` takes the Accept header's text rather than a request context.
- MatchingParameterWins: proved for the one versioned scenario only. The general shared-parameter tie-break is stated by `SharedParamsBreakTie`, exact-over-`type/*` by `ExactBeatsWildcard` and `type/*`-over-`*/*` by `TypeBeatsAnyType`, each for two offers and at most two ranges rather than any number.
- Slash.Remover.Handle and ContentType.TypeHandler: handlers are modelled as called one request at a time. Concurrent requests writing the remover's captured `status` without synchronisation (a data race in the source) are not modelled, so "later" in the Findings means later in a sequential order. The handler built by `TypeNegotiator` keeps the caller's `formats` slice when it is passed as `fs...`, so a later change by the caller reaches the handler; the model copies the formats into `TypeHandler` and does not capture that aliasing.
- Negotiator.ScanField: its contract states only the no-separator case. The split at the first separator is stated by `ExtractFieldAt`.
- Negotiator.ParseAcceptRange: its own contract states only that the raw string is kept. The shape of the parts and the weight are stated by `ParseAcceptRangeShape`, `ParseTypeSubtype` and `ParseTypeSubtypeParam`.
- Go byte offsets versus character offsets: strings are sequences of characters. The offsets themselves differ after a multi-byte character, but the pieces cut out are the same, since every separator is ASCII.
- Header text that is not valid UTF-8 is outside the model. Go decodes each invalid byte as U+FFFD, which `unicode.IsSpace` does not trim, and lone bytes such as 0x85 or 0xA0 have no counterpart in a sequence of characters.

## Findings

| source | as written | input that shows it | evidently intended | confidence | as-written member | corrected member |
|---|---|---|---|---|---|---|
| slash/remover.go:36-38 | the handler overwrites its captured `status` with 307 on the first non-GET redirect, so every later redirect (in a sequential order of requests) uses 307 | `Remover(301)`, then a POST to `/users/`, then a GET to `/users/`: the GET gets 307 | GET redirects always use the configured status (the doc comment at lines 17-19) | not executed; high | Slash.StickyRedirect | Slash.FixedRemover.Handle |
| content/negotiator.go:142-169 | `bestParams` is set by an exact match and never reset, and an exact match is taken only if it shares at least `bestParams` parameters, even when its score is higher | Accept `a/b;x=1;q=0.5,a/c`, offers `a/b;x=1` then `a/c`: `a/b;x=1` (score 2.5) is returned though `a/c` matches at score 3 | a strictly higher score always wins and the parameter count only breaks ties at an equal score (the comment at line 166) | not executed; medium | Negotiator.StaleParamCountOverridesWeight | Negotiator.CorrectedScanOffersIsMax |
