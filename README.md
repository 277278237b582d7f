# Deep-link resolver: a Dafny model of `DeeplinkController`

The AppIndexing web service takes a batch of page URLs and returns, for each
URL, the native `android-app://` deep links that the page declares. It finds
them in two places in the markup:

- the `href` of `<link rel="alternate">` elements;
- the `target` of a `ViewAction` in `application/ld+json` script blocks.

The controller fetches each page with the caller's HTTP headers forwarded onto
the outbound request. Header assignments that throw are recorded as error
messages. The links of all URLs come back in request order.

This project models that controller in three parts and proves what each part
promises.

- **Extraction** (`text.dfy`, `enumerable.dfy`, `html.dfy`, `extraction.dfy`)
  models the per-page pipeline of `GetAlternateLinksForUrlAsync` as pure
  functions.
  - The page is the parsed document as a sequence of elements in document
    order. Each script element carries the result of its JSON decoding.
  - `String.Trim()` follows .NET's `char.IsWhiteSpace`. `OrdinalIgnoreCase` is
    comparison after ASCII lower-casing.
  - The LINQ operators are modelled as generic `Where`, `Select`, `Distinct`,
    and `SelectOrFail`. `SelectOrFail` is a `ToArray` over a selector that may
    throw.
  - The two exceptions the pipeline can raise are `Fault` values:
    - a script that does not decode (`ScriptNotDecoded`);
    - a null view-action target that reaches `StartsWith` (`NullCandidate`).
- **Header forwarding** (`forwarding.dfy`, plus `ApplyCurrentRequest` in
  `controller.dfy`).
  - The `requestParameterAssignments` table is a case-folded map from header
    name to action.
  - The outbound `HttpWebRequest` is a class whose fields the actions update in
    place.
  - `ApplyCurrentRequest` keeps the source's nested loops over headers and their
    values. It is proved against `Forward`, a function over the name/value
    pairs. The lemmas about `Forward` state what forwarding does.
  - Which assignments throw is a parameter (`Thrower`). It stands for the
    validation inside the `UserAgent`/`Accept` setters and
    `WebHeaderCollection.Add`.
- **Batch assembly** (`controller.dfy`). `DeeplinkController` is a class with
  the shared `errors` list.
  - `GetDeeplinks` fetches every URL and then takes the outcomes as
    `await Task.WhenAll` does: the results in order, or the first fault.
  - It is proved equal to the specification function `Deeplinks`.
  - The network is a parameter (`Fetcher`): it maps a configured request to the
    parsed page, or to none when no response came back.

## Behaviour of the code a reader may not expect

The model follows the code in each case below.

- **Scripts without a ViewAction target.** A qualifying script block with no
  ViewAction target does not yield nothing. This covers a block that decodes to
  another action type, has no `potentialAction`, or has a null `target`.
  - `GetViewActionTargetFromScript` returns `null` for it
    (`DeeplinkController.cs:108`).
  - That `null` reaches `x.StartsWith(...)` at line 60, which throws.
  - The URL's task faults, and so does the whole batch, because `Task.WhenAll`
    rethrows it.
- **Scripts that do not decode.** A blank or malformed script block is not
  skipped either. Deserialisation at line 100 is unguarded, and a `null` model
  faults at line 102. `ExtractDeepLinksFaults` states both cases.
- **Untrimmed targets.** View-action targets are not trimmed (line 105). Only
  hrefs are (line 71). An emitted link may therefore end in white space.
- **No error when there is no response.** No error message is recorded when a
  fetch gets no response (lines 129-136). The only messages come from header
  assignments (lines 177-180). `DeeplinksErrors` states this.
- **Null request.** A null request returns `new DeeplinkResult()`, whose links
  and errors are both null. It does not return an empty links array.
- **Request echo.** The `Request = request` assignment (line 37) has no
  matching property in `DeeplinkResult.cs`. The result type models only
  `links` and `errors`.

## Model

Source paths are relative to the repository root. `DC` below stands for
`AppIndexing/AppIndexing/Controllers/DeeplinkController.cs`. The table cells
spell the path out.

| member | source | states |
|---|---|---|
| Text.TrimStart | AppIndexing/AppIndexing/Controllers/DeeplinkController.cs:71 | the result is a suffix of the input; every character removed is white space; the result does not start with white space |
| Text.TrimEnd | AppIndexing/AppIndexing/Controllers/DeeplinkController.cs:71 | the result is a prefix of the input; every character removed is white space; the result does not end with white space |
| Text.Trim | AppIndexing/AppIndexing/Controllers/DeeplinkController.cs:71 | `String.Trim()`: the result is the input's middle part `s[i..j]`, everything before `i` and from `j` on is white space, and neither end of the result is white space |
| Text.TrimIsMiddle | AppIndexing/AppIndexing/Controllers/DeeplinkController.cs:71 | `Trim` is `s[i..j]`, where `i` is the length of the leading white space and `j - i` the length of the trimmed string, and everything outside `[i, j)` is white space |
| Text.EqualsIgnoreCaseFolds | AppIndexing/AppIndexing/Controllers/DeeplinkController.cs:78 | two strings are equal under ordinal ignore-case comparison exactly when their ASCII case foldings are equal |
| Text.EqualsFolded | AppIndexing/AppIndexing/Controllers/DeeplinkController.cs:78 | comparing ignoring case with an already lower-case literal is the same as comparing the input's case folding with it |
| Enumerable.Where | AppIndexing/AppIndexing/Controllers/DeeplinkController.cs:70 | `Enumerable.Where`: a value is in the result exactly when it is in the input and satisfies the predicate; the result is no longer than the input |
| Enumerable.WhereAppend | AppIndexing/AppIndexing/Controllers/DeeplinkController.cs:58-60 | filtering a concatenation is concatenating the filtered parts, so `Where` keeps input order |
| Enumerable.Select | AppIndexing/AppIndexing/Controllers/DeeplinkController.cs:71 | `Enumerable.Select`: same length, the i-th output is the selector applied to the i-th input |
| Enumerable.SelectWhereMembership | AppIndexing/AppIndexing/Controllers/DeeplinkController.cs:70-71 | a value is selected from the filtered input exactly when some input element passes the filter and maps to it |
| Enumerable.SelectOrFail | AppIndexing/AppIndexing/Controllers/DeeplinkController.cs:87-88 | `Select(...).ToArray()` with a throwing selector: it succeeds exactly when every element's selector succeeds, with the values in order; otherwise it fails with the exception of the first element whose selector throws |
| Enumerable.SelectOrFailMembership | AppIndexing/AppIndexing/Controllers/DeeplinkController.cs:87-88 | on success, a value is in the array exactly when some element's selector returns it |
| Enumerable.SelectOrFailFails | AppIndexing/AppIndexing/Controllers/DeeplinkController.cs:87-88 | the mapping fails exactly when some element's selector throws |
| Enumerable.Distinct | AppIndexing/AppIndexing/Controllers/DeeplinkController.cs:61 | `Enumerable.Distinct`: no duplicates under ordinal equality, the same set of values, no longer than the input |
| Enumerable.IndexOf | AppIndexing/AppIndexing/Controllers/DeeplinkController.cs:61 | the position of the first occurrence of a value |
| Enumerable.DistinctKeepsFirstOccurrenceOrder | AppIndexing/AppIndexing/Controllers/DeeplinkController.cs:61 | the values of `Distinct` appear in the order of their first occurrences in the input |
| Enumerable.DistinctOfAppend | AppIndexing/AppIndexing/Controllers/DeeplinkController.cs:58-61 | `Distinct(a + b)` starts with `Distinct(a)`, and everything after it comes from `b` and does not occur in `a` |
| Enumerable.WhereKeepsFirstOccurrenceOrder | AppIndexing/AppIndexing/Controllers/DeeplinkController.cs:60 | values whose first occurrences are in one order after filtering were in that order before filtering |
| Enumerable.DistinctWhereFirstOccurrenceOrder | AppIndexing/AppIndexing/Controllers/DeeplinkController.cs:60-61 | filtering then de-duplicating yields values of the input in the order of their first occurrences in the input |
| Html.Descendants | AppIndexing/AppIndexing/Controllers/DeeplinkController.cs:69 | `Descendants(name)`: exactly the elements of the page with that tag name |
| Html.DescendantsAppend | AppIndexing/AppIndexing/Controllers/DeeplinkController.cs:67-69 | the matching elements of a split document are those of the first part followed by those of the second (document order) |
| Extraction.IsAlternateLinkElement | AppIndexing/AppIndexing/Controllers/DeeplinkController.cs:76-79 | definition of `IsAlternateLinkElement`, with no contract of its own; `AlternateRelIgnoresCase` fixes its meaning |
| Extraction.AlternateRelIgnoresCase | AppIndexing/AppIndexing/Controllers/DeeplinkController.cs:76-79 | an element is an alternate link exactly when its trimmed `rel` (missing means "") equals "alternate" ignoring case |
| Extraction.GetAlternateLinksForHtmlDocument | AppIndexing/AppIndexing/Controllers/DeeplinkController.cs:65-74 | every collected href is non-empty and trimmed at both ends |
| Extraction.AlternateLinkCollected | AppIndexing/AppIndexing/Controllers/DeeplinkController.cs:67-73 | a string is collected exactly when it is non-empty and is the trimmed href of some `link` element that is an alternate link |
| Extraction.AlternateLinksInDocumentOrder | AppIndexing/AppIndexing/Controllers/DeeplinkController.cs:67-73 | the hrefs of a split document are those of the first part followed by those of the second |
| Extraction.IsViewActionScriptElement | AppIndexing/AppIndexing/Controllers/DeeplinkController.cs:91-94 | definition of `IsViewActionScriptElement`, with no contract of its own; `ScriptTypeIgnoresCase` fixes its meaning |
| Extraction.ScriptTypeIgnoresCase | AppIndexing/AppIndexing/Controllers/DeeplinkController.cs:91-94 | a script qualifies exactly when its trimmed `type` equals "application/ld+json" ignoring case |
| Extraction.ActionTypeIgnoresCase | AppIndexing/AppIndexing/Controllers/DeeplinkController.cs:102-103 | an action is a view action exactly when its `@type` is non-null and equals "ViewAction" ignoring case |
| Extraction.ViewActionScripts | AppIndexing/AppIndexing/Controllers/DeeplinkController.cs:83-86 | an element is selected exactly when it is a `script` of the page whose type qualifies |
| Extraction.ViewActionScriptsInDocumentOrder | AppIndexing/AppIndexing/Controllers/DeeplinkController.cs:83-86 | the qualifying scripts of a split document are those of the first part followed by those of the second (document order) |
| Extraction.GetViewActionsForHtmlDocument | AppIndexing/AppIndexing/Controllers/DeeplinkController.cs:81-89 | on success entry i is the outcome of the i-th qualifying script in document order, one entry per script; the only fault it raises is an undecodable script |
| Extraction.ViewActionsFailOnUndecodedScript | AppIndexing/AppIndexing/Controllers/DeeplinkController.cs:98-102 | the scripts fail to yield targets exactly when some qualifying script does not decode |
| Extraction.GetViewActionTargetFromScript | AppIndexing/AppIndexing/Controllers/DeeplinkController.cs:96-109 | a script faults exactly when it does not decode, and then with the decoding fault; `TargetFromScript` fixes the value of a decoded script |
| Extraction.TargetFromScript | AppIndexing/AppIndexing/Controllers/DeeplinkController.cs:102-108 | a decoded script yields a non-null value exactly when it declares a ViewAction with a target, and the value is that target, untrimmed |
| Extraction.ViewActionTargetCollected | AppIndexing/AppIndexing/Controllers/DeeplinkController.cs:96-109 | a string is among the targets exactly when a qualifying script declares a ViewAction with that target; a null is among them exactly when some qualifying script declares none |
| Extraction.DeepLinkIgnoresCase | AppIndexing/AppIndexing/Controllers/DeeplinkController.cs:60 | the filter keeps a string exactly when it starts with "android-app://" ignoring case |
| Extraction.Values | AppIndexing/AppIndexing/Controllers/DeeplinkController.cs:58-59 | a null-free candidate list read as strings: same length, same values in order |
| Extraction.ValuesMembership | AppIndexing/AppIndexing/Controllers/DeeplinkController.cs:58-59 | a string is among the values exactly when it is among the non-null candidates |
| Extraction.ExtractDeepLinks | AppIndexing/AppIndexing/Controllers/DeeplinkController.cs:51-62 | on success the links have no duplicates and every one starts with "android-app://" ignoring case |
| Extraction.LinksForFetchedPage | AppIndexing/AppIndexing/Controllers/DeeplinkController.cs:44-49 | no page gives the empty array, with no parsing |
| Extraction.ExtractDeepLinksFaults | AppIndexing/AppIndexing/Controllers/DeeplinkController.cs:55-62 | a page faults exactly when one of its qualifying scripts does not declare a ViewAction target; the fault is the decoding one exactly when some qualifying script does not decode |
| Extraction.ExtractDeepLinksMembership | AppIndexing/AppIndexing/Controllers/DeeplinkController.cs:58-62 | a string is returned exactly when it has the deep-link scheme and is a collected href or view-action target |
| Extraction.ExtractDeepLinksAlternatesFirst | AppIndexing/AppIndexing/Controllers/DeeplinkController.cs:58-61 | the surviving hrefs come first, de-duplicated in document order; everything after them is a surviving view-action target that is not also an href |
| Extraction.ExtractDeepLinksFirstOccurrenceOrder | AppIndexing/AppIndexing/Controllers/DeeplinkController.cs:58-62 | every link comes from the concatenated candidates, and the links keep the order of their first occurrences there |
| Forwarding.AssignmentFor | AppIndexing/AppIndexing/Controllers/DeeplinkController.cs:163-169 | definition of the `TryGetValue` lookup with the `DefaultAssignment` fallback, with no contract of its own; `AssignmentForNames` fixes its meaning |
| Forwarding.AssignmentForNames | AppIndexing/AppIndexing/Controllers/DeeplinkController.cs:153-169 | the table lookup ignores case: "user-agent" sets the user agent, "accept" sets Accept, "connection" and "host" do nothing, and any other name gets the generic `Headers.Add` |
| Forwarding.Pairs | AppIndexing/AppIndexing/Controllers/DeeplinkController.cs:163-171 | every value of every header, in order; there are as many pairs as header values |
| Forwarding.Forward | AppIndexing/AppIndexing/Controllers/DeeplinkController.cs:171-181 | forwarding never changes the URL or the redirect flag, and adds at most one error per header value |
| Forwarding.ForwardErrors | AppIndexing/AppIndexing/Controllers/DeeplinkController.cs:173-180 | the errors added are exactly the messages of the assignments that throw, in order, one each; processing continues after each |
| Forwarding.ForwardHeaders | AppIndexing/AppIndexing/Controllers/DeeplinkController.cs:152 | the generic headers added are exactly the non-throwing pairs whose names are not in the table, in order |
| Forwarding.ForwardIgnoresNoOps | AppIndexing/AppIndexing/Controllers/DeeplinkController.cs:151-158 | values of "connection" and "host" (any case) change nothing: forwarding without them gives the same request and errors |
| Forwarding.ForwardLastValueWins | AppIndexing/AppIndexing/Controllers/DeeplinkController.cs:155-156 | the user agent (or Accept) ends up as the last of its values whose assignment does not throw |
| Forwarding.ForwardFieldUntouched | AppIndexing/AppIndexing/Controllers/DeeplinkController.cs:155-156 | without a value for it that goes through, the user agent (or Accept) keeps its value, so each setter touches only its own field |
| Forwarding.OutboundRequest.constructor | AppIndexing/AppIndexing/Controllers/DeeplinkController.cs:117 | `WebRequest.Create(url)`: no user agent, no Accept, no extra headers, redirects followed |
| Forwarding.OutboundRequest.Assign | AppIndexing/AppIndexing/Controllers/DeeplinkController.cs:151-156 | one action of the table updates the request in place as `Assigned` describes |
| Controller.Prepared | AppIndexing/AppIndexing/Controllers/DeeplinkController.cs:117-121 | the request sent for a URL is for that URL and follows redirects |
| Controller.PreparedForwardsHeaders | AppIndexing/AppIndexing/Controllers/DeeplinkController.cs:117-121 | the request sent carries exactly the accepted generic headers, and its errors are exactly the failed assignments |
| Controller.UrlLinks | AppIndexing/AppIndexing/Controllers/DeeplinkController.cs:42-63 | definition of one URL's task, fetch then per-page step, with no contract of its own; `GetAlternateLinksForUrl` is proved equal to it and `DeeplinksArePageLinks` gives its value |
| Controller.Outcomes | AppIndexing/AppIndexing/Controllers/DeeplinkController.cs:31 | one task per URL; `OutcomesAt` fixes which task is where |
| Controller.OutcomesAt | AppIndexing/AppIndexing/Controllers/DeeplinkController.cs:31 | the i-th task is that of the i-th URL |
| Controller.WhenAll | AppIndexing/AppIndexing/Controllers/DeeplinkController.cs:32 | `await Task.WhenAll`: it succeeds exactly when every task does, with the results in task order; otherwise it rethrows the fault of the first faulted task |
| Controller.Deeplinks | AppIndexing/AppIndexing/Controllers/DeeplinkController.cs:24-39 | a null request gives a result with null links and null errors; otherwise links has one entry per URL; errors is never an empty list |
| Controller.BatchErrorsRepeat | AppIndexing/AppIndexing/Controllers/DeeplinkController.cs:119 | headers are forwarded once per URL, so the batch's header errors are the failed assignments repeated once per URL |
| Controller.DeeplinksAligned | AppIndexing/AppIndexing/Controllers/DeeplinkController.cs:31-38 | on success the i-th entry of links is the output of the i-th URL's task |
| Controller.DeeplinksArePageLinks | AppIndexing/AppIndexing/Controllers/DeeplinkController.cs:42-62 | with the controller's own per-page step, the i-th entry is empty when nothing was fetched, and otherwise is the page's deep links: distinct, all with the scheme |
| Controller.DeeplinksFault | AppIndexing/AppIndexing/Controllers/DeeplinkController.cs:31-32 | the batch faults exactly when the request is non-null and some URL's task faults |
| Controller.DeeplinksFirstFault | AppIndexing/AppIndexing/Controllers/DeeplinkController.cs:32 | the fault rethrown is that of the first faulting URL in request order |
| Controller.DeeplinksErrors | AppIndexing/AppIndexing/Controllers/DeeplinkController.cs:36 | on success errors is null exactly when there are no earlier errors and either no URLs or no failed assignments; otherwise it is the earlier errors followed by the failed assignments once per URL |
| Controller.DeeplinkController.constructor | AppIndexing/AppIndexing/Controllers/DeeplinkController.cs:21 | a fresh controller has an empty error list, has sent nothing, and uses the per-page pipeline `LinksForFetchedPage` |
| Controller.DeeplinkController.ApplyCurrentRequest | AppIndexing/AppIndexing/Controllers/DeeplinkController.cs:161-183 | the nested loops leave the request as `Forward` describes, and append to `errors` exactly the messages `Forward` collects |
| Controller.DeeplinkController.GetHtmlForUrl | AppIndexing/AppIndexing/Controllers/DeeplinkController.cs:111-149 | it sends the prepared request once, returns what the fetch returns for it, and appends that request's header errors |
| Controller.DeeplinkController.GetAlternateLinksForUrl | AppIndexing/AppIndexing/Controllers/DeeplinkController.cs:42-63 | the outcome is the URL's task as the specification defines it |
| Controller.DeeplinkController.GetDeeplinks | AppIndexing/AppIndexing/Controllers/DeeplinkController.cs:24-40 | the result is `Deeplinks` of the request; a null request sends nothing and adds no error; otherwise every URL is fetched once, in order, and the header errors of each are appended |

## Left out

- The semaphore throttle (lines 19-20, 113, 145-148) and the async scheduling are
  left out. They bound concurrency and do not change any result. Tasks are
  modelled as running one after another in URL order. So the model appends
  errors to the shared list in URL order, while the real order across
  concurrent tasks is unspecified and the list is unsynchronised.
- The fetch is treated as deterministic: the `Fetcher` is a function of the
  configured request. A URL listed twice is sent twice, but both sends get the
  same page, where the real network may answer them differently.
  `DeeplinksAligned` therefore gives equal entries for equal URLs.
- Real HTTP is left out (lines 117-143): `GetResponseAsync`, the `WebException`
  fallback to `e.Response`, and reading the stream. The `Fetcher` parameter
  returns the parsed page, or none when no response object exists.
  - Exceptions other than `WebException` are left out, as is a `UriFormatException`
    from `WebRequest.Create` on a malformed URL. Both would fault the URL's task.
    The model's fetch never throws.
- HtmlAgilityPack is left out. Parsing, tag-name normalisation, entity decoding
  and `InnerHtml` are replaced by the element sequence.
- Newtonsoft.Json is left out. The outcome of `DeserializeObject` is carried
  with each element: the decoded model, or none when it is null or throws.
- Which assignments throw is not modelled. The validation inside
  `HttpWebRequest.UserAgent`, `Accept` and `WebHeaderCollection.Add` (for
  example, restricted headers) is the `Thrower` parameter.
- Full Unicode case folding of `OrdinalIgnoreCase` is left out. Only ASCII
  letters are folded.
- A request body whose `Urls` is null is left out. `DeeplinkRequest` is not
  among the source files, and the model takes the URL list as always present.
- `AppIndexing/AppIndexing/App_Start/WebApiConfig.cs` is framework setup. Its
  only effect here is that null fields are left out of the JSON response.
- Controller.DeeplinkController.GetAlternateLinksForUrl: the per-page step goes
  through the controller's `extract` field. The constructor fixes that field to
  `LinksForFetchedPage`, which is what the method computes inline in the
  source. The batch lemmas are stated for any per-page step, and
  `DeeplinksArePageLinks` specialises them to this one.
