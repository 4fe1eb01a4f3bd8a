# clip-catcher: the download page's core, in Dafny

The page `src/pages/Index.tsx` lets a user paste a video URL, asks a backend
for the video's download formats, lists up to ten of them and opens a download
link for the one chosen. This project models what the page does underneath its
JSX:

- **Records** (`video_model.dfy`): `VideoFormat` and `VideoInfo` as the backend
  sends them; an optional field is an `Option`.
- **Submit workflow** (`workflow.dfy`): the page state `url`, `loading`,
  `videoInfo`, and `handleSubmit` cut at its first `await` (the `fetch`) into `StartSubmit`
  (validation, `loading := true`, the POST to `/api/formats`) and
  `CompleteSubmit` (replace `videoInfo` on an ok response, keep it on a bad
  status or an exception, always clear `loading`). How the request ends,
  including the second `await` (`response.json()`), is folded into an
  argument (`Fetched(data)`, `HttpNotOk`, `Thrown`); each toast is a
  `Notification` value with the page's own title, text and variant. The class
  `Page` holds the three hooks as fields and its handlers are proved against
  these functions. `Run` replays a sequence of edits, submissions and
  downloads.
- **Download link** (`download.dfy`): `backend + "/api/download?url=" +
  encodeURIComponent(url) + "&format_id=" + formatId`, built from the current,
  untrimmed `url`; the format id is not encoded. `ReadDownloadUrl` is one
  way to read the link back (the backend is not part of this model), and the
  round trip through it is proved.
- **encodeURIComponent** (`uri_component.dfy`): the algorithm of ECMA-262
  (UTF-8 octets, `%XY` in upper-case hexadecimal, `A-Z a-z 0-9 - _ . ! ~ * ' ( )`
  kept), with `decodeURIComponent` as its proved inverse.
- **Presentation** (`presentation.dfy`): `getFormatIcon`, the label line, the
  note prefix, `formatFileSize` (including `toFixed(1)` for integer sizes) and
  `slice(0, 10)`.
- **JavaScript built-ins** (`js_strings.dfy`): `trim` with ECMA-262's white
  space set, ASCII `toUpperCase`, `Array.prototype.slice`, decimal digits.

The model follows the page where a reader might expect something else:

- the request body carries `url` as typed, not the trimmed string
  (`Workflow.PaddedUrlSentAsTyped` shows `" x "` sent with its spaces);
- `format_id` is appended to the download link without encoding;
- a `filesize` of `0` also reads "Unknown size" (`!bytes`);
- an empty `resolution` counts as absent (JavaScript truthiness), both for the
  icon and for the label;
- there is no error state: a failure leaves `videoInfo` as it was and shows a
  toast.

Nothing here runs the page: the backend URL, the response and the user's
actions are all parameters.

## Model

| member | source | states |
|---|---|---|
| JsStrings.TrimStart | src/pages/Index.tsx:35 | the result is the longest suffix of the input that does not start with JavaScript white space, and everything cut off is white space |
| JsStrings.TrimEnd | src/pages/Index.tsx:35 | the result is the longest prefix that does not end with white space, and everything cut off is white space |
| JsStrings.Trim | src/pages/Index.tsx:35 | `url.trim()` is a contiguous part of `url` with only white space cut off on either side, and it neither starts nor ends with white space |
| JsStrings.TrimEmptyIffAllWhiteSpace | src/pages/Index.tsx:35 | `url.trim()` is empty exactly when every character of `url` is white space (or `url` is empty) |
| JsStrings.UpperChar | src/pages/Index.tsx:161 | a lower-case ASCII letter becomes its capital (32 code points lower), the result is never a lower-case ASCII letter, and every other character is kept |
| JsStrings.UpperCase | src/pages/Index.tsx:161 | `toUpperCase` keeps the length and upper-cases each character in place |
| JsStrings.RelativeIndex | src/pages/Index.tsx:152 | a `slice` index is clamped to the array, a negative one counted from the end |
| JsStrings.Slice | src/pages/Index.tsx:152 | `slice` never yields more elements than the array has |
| JsStrings.SlicePrefix | src/pages/Index.tsx:152 | `slice(0, n)` is the first `min(n, length)` elements, in order |
| JsStrings.Digit | src/pages/Index.tsx:84 | a decimal digit character stands for its value |
| JsStrings.NatToDecimal | src/pages/Index.tsx:84 | the integer part is written with decimal digits only and no leading zero |
| JsStrings.DecimalRoundTrip | src/pages/Index.tsx:84 | reading back the digits written for `n` gives `n` |
| UriComponent.HexDigit | src/pages/Index.tsx:77 | escapes use upper-case hexadecimal digits |
| UriComponent.HexValue | src/pages/Index.tsx:77 | a hexadecimal digit of either case has a value below 16 |
| UriComponent.HexRoundTrip | src/pages/Index.tsx:77 | reading a written hexadecimal digit gives its value back |
| UriComponent.Utf8 | src/pages/Index.tsx:77 | a code point is written as one to four UTF-8 octets, one exactly for ASCII |
| UriComponent.Utf8RoundTrip | src/pages/Index.tsx:77 | the octets written for a non-ASCII code point have a lead octet of the right length and continuation octets, and decode to that code point |
| UriComponent.Utf8DecodeCanonical | src/pages/Index.tsx:77 | octets that decode are exactly the ones the encoder writes for the decoded code point (no overlong forms) |
| UriComponent.Utf8DecodeCanonical3 | src/pages/Index.tsx:77 | the same for three-octet sequences |
| UriComponent.Utf8DecodeCanonical4 | src/pages/Index.tsx:77 | the same for four-octet sequences |
| UriComponent.PercentEncode | src/pages/Index.tsx:77 | each octet becomes three characters, all of them `%` or hexadecimal digits |
| UriComponent.EncodeChar | src/pages/Index.tsx:77 | a character is written as itself exactly when it is unreserved, otherwise as one `%XY` escape per UTF-8 octet; only unreserved characters, `%` and upper-case hexadecimal digits appear |
| UriComponent.EncodeURIComponent | src/pages/Index.tsx:77 | the encoded URL holds only unreserved characters, `%` and upper-case hexadecimal digits |
| UriComponent.ReadOctet | src/pages/Index.tsx:77 | an escape is read only from `%` followed by two characters |
| UriComponent.ReadOctets | src/pages/Index.tsx:77 | reading `n` escapes consumes `3n` characters and starts with the first escape |
| UriComponent.DecodeStep | src/pages/Index.tsx:77 | each decoding step consumes at least one and at most all remaining characters |
| UriComponent.ReadPercentOctet | src/pages/Index.tsx:77 | an escape written for an octet reads back as that octet |
| UriComponent.ReadPercentEncoded | src/pages/Index.tsx:77 | reading `k` escapes from written octets gives the first `k` octets |
| UriComponent.DecodeStepEncoded | src/pages/Index.tsx:77 | decoding starts by reading back exactly the character written first |
| UriComponent.DecodeEncode | src/pages/Index.tsx:77 | `decodeURIComponent(encodeURIComponent(s)) == s` for every string |
| UriComponent.EncodeConcat | src/pages/Index.tsx:77 | encoding works character by character, so it distributes over concatenation |
| UriComponent.EncodeUnreserved | src/pages/Index.tsx:77 | a string of unreserved characters is encoded as itself |
| UriComponent.EncodeAsciiReserved | src/pages/Index.tsx:77 | a reserved ASCII character such as `&`, `=`, `?`, `/` or `:` becomes one `%XY` escape |
| Download.DownloadUrl | src/pages/Index.tsx:77 | the link is the backend's `/api/download?url=`, the encoded `url`, `&format_id=` and the format id unencoded, in that order; the encoded part holds no `&` or `#` |
| Download.IndexOf | src/pages/Index.tsx:77 | the position found is the first occurrence, and `None` means there is none |
| Download.IndexOfAfter | src/pages/Index.tsx:77 | in `a + b` with no `c` in `a` and `b` starting with `c`, the first `c` is at `|a|` |
| Download.EncodedHasNoDelimiters | src/pages/Index.tsx:77 | the encoded URL holds no `&`, `=`, `?` or `#` |
| Download.FirstAmpersandStartsFormatId | src/pages/Index.tsx:77 | the only `&` before `format_id` is the one the page puts there, right after the encoded URL |
| Download.ReadQueryOf | src/pages/Index.tsx:77 | a query whose `url` value holds no `&` splits at `&format_id=` back into that value and the format id |
| Download.ReadBuiltQuery | src/pages/Index.tsx:77 | the query of a link splits back into its encoded URL and its format id |
| Download.ReadLinkOf | src/pages/Index.tsx:77 | a link whose `url` value holds no `&` starts with the download endpoint and its query splits back into that value and the format id |
| Download.DownloadUrlRoundTrip | src/pages/Index.tsx:76-79 | reading the link `handleDownload` opens gives back the page's `url` (untrimmed) and the format id verbatim |
| Presentation.ShownResolution | src/pages/Index.tsx:161 | `format.resolution || "Audio Only"`: the resolution when present and non-empty, otherwise "Audio Only"; never empty |
| Presentation.FormatIcon | src/pages/Index.tsx:87-92 | the audio icon exactly when `resolution` is absent, empty or `"audio only"`; otherwise the video icon |
| Presentation.Label | src/pages/Index.tsx:161 | the label is the shown resolution (or "Audio Only"), then " - ", then the extension with no lower-case ASCII letter left |
| Presentation.NotePrefix | src/pages/Index.tsx:164 | the note prefix is non-empty exactly when `format_note` is present and non-empty, and is then the note followed by a bullet |
| Presentation.Tenths | src/pages/Index.tsx:83-84 | the number of tenths `toFixed(1)` shows is the nearest to `|bytes| / 2^20`, a tie going up |
| Presentation.ToFixed1 | src/pages/Index.tsx:83-84 | `toFixed(1)` writes a minus sign exactly for a negative size, and ends with a point and one digit |
| Presentation.FormatFileSize | src/pages/Index.tsx:81-85 | the text is "Unknown size" exactly when `filesize` is absent or zero |
| Presentation.StripSuffix | src/pages/Index.tsx:84 | what is left after removing a suffix, with the suffix, is the text |
| Presentation.StripAppendedSuffix | src/pages/Index.tsx:84 | removing the " MB" just appended gives the number text back |
| Presentation.ReadTenthsShape | src/pages/Index.tsx:84 | `digits.digit` reads as that many tenths |
| Presentation.ReadSignedBody | src/pages/Index.tsx:84 | a leading minus sign is read as the sign |
| Presentation.ReadSizeShape | src/pages/Index.tsx:84 | the shape `[-]digits.digit MB` reads back as its sign and tenths |
| Presentation.ReadFormattedSize | src/pages/Index.tsx:81-85 | a non-zero size's text shows its sign and the nearest number of tenths of a megabyte |
| Presentation.TenthsOfWholeMegabytes | src/pages/Index.tsx:83 | `k` whole megabytes are `10k` tenths |
| Presentation.ToFixed1WholeTenths | src/pages/Index.tsx:84 | a whole number of megabytes is written with ".0" |
| Presentation.WholeMegabytes | src/pages/Index.tsx:81-85 | exactly `k` MiB reads `k.0 MB` |
| Presentation.VisibleFormats | src/pages/Index.tsx:152 | the rendered formats are the first `min(10, n)`, in the backend's order |
| Presentation.RowOf | src/pages/Index.tsx:158-171 | a row shows the format's own icon and label, its note prefix followed by its size, and its Download button sends that format's own id |
| Presentation.Rows | src/pages/Index.tsx:152-176 | one row per visible format, in order, each with that format's icon, label, note-and-size line and id |
| Presentation.NoResolutionIsAudio | src/pages/Index.tsx:88-91 | a format with no resolution is labelled "Audio Only" and gets the audio icon |
| Presentation.SentinelShownVerbatim | src/pages/Index.tsx:161 | the "audio only" sentinel appears as it is in the label while the icon is audio |
| Presentation.Example720p | src/pages/Index.tsx:158-165 | a 720p MP4 of 10485760 bytes renders "720p - MP4", "10.0 MB" with the video icon |
| Presentation.FifteenFormatsShowTen | src/pages/Index.tsx:152 | fifteen formats give exactly ten rows, the first ten in order |
| Workflow.StartSubmit | src/pages/Index.tsx:35-52 | a submission is refused, with the validation toast, exactly when `url` is blank; an accepted one changes only `loading`, to true, and sends the request for the untrimmed `url` |
| Workflow.FormatsRequestFor | src/pages/Index.tsx:46-51 | the request is a POST with a JSON content type to the backend's `/api/formats`, carrying `url` as given |
| Workflow.IsBlank | src/pages/Index.tsx:35 | `!url.trim()` holds exactly when `url` is empty or all white space |
| Workflow.CompleteSubmit | src/pages/Index.tsx:54-73 | after the response `loading` is false and `url` unchanged; an ok body replaces `videoInfo` with the success toast, a bad status or an exception keeps `videoInfo` with the retrieval toast |
| Workflow.Submit | src/pages/Index.tsx:33-74 | a blank `url` issues no request, keeps the state and shows the validation toast; any other issues exactly the request for `url` and ends not loading, with the response's body and the success toast on an ok response and the old `videoInfo` and the retrieval toast otherwise; `url` never changes |
| Workflow.BlankSubmitChangesNothing | src/pages/Index.tsx:35-42 | an empty or all-white-space `url` issues no request, changes no state and shows only the validation toast; any other `url` issues a request |
| Workflow.LoadingOnlyWhileRequestIsOut | src/pages/Index.tsx:44-73 | `loading` is true while the request is out and false after it ends, on success and failure alike |
| Workflow.SuccessReplacesWholesale | src/pages/Index.tsx:58-63 | on success `videoInfo` becomes exactly the response, with no merge, and the success toast shows |
| Workflow.FailureKeepsVideoInfo | src/pages/Index.tsx:54-56 | a bad status or a thrown error keeps `videoInfo` and shows the retrieval error toast |
| Workflow.RequestCarriesUntrimmedUrl | src/pages/Index.tsx:46-51 | the request is a JSON POST to `/api/formats` whose body carries `url` verbatim, and `url` never changes |
| Workflow.PaddedUrlSentAsTyped | src/pages/Index.tsx:51 | `" x "` trims to `"x"` yet is sent as `" x "` |
| Workflow.ResubmitIsIdempotent | src/pages/Index.tsx:59 | a second identical successful submission leaves the state as the first did |
| Workflow.Step | src/pages/Index.tsx:117-122 | one user action: on an idle page an edit sets `url` to the typed text and a submission has `handleSubmit`'s result (`Submit`); nothing changes while loading or on a download, a page that was not loading is not left loading, and only a successful submission changes the result shown, to that response's body |
| Workflow.Run | src/pages/Index.tsx:117-122 | while a request is out (the input and the button are disabled) every action leaves the state as it is |
| Workflow.RunNeverLeavesLoading | src/pages/Index.tsx:71-73 | after any sequence of edits, submissions and downloads the page is not loading |
| Workflow.RunShowsOnlyResponses | src/pages/Index.tsx:59 | the result shown is the initial one or the body of one of the successful responses |
| Workflow.Page.constructor | src/pages/Index.tsx:25-27 | the page starts with an empty `url`, not loading, no result |
| Workflow.Page.Edit | src/pages/Index.tsx:117-119 | typing replaces `url` only, and only while not loading |
| Workflow.Page.BeginSubmit | src/pages/Index.tsx:33-52 | the handler's first half changes the state exactly as `StartSubmit` says and returns its request or toast |
| Workflow.Page.FinishSubmit | src/pages/Index.tsx:54-73 | the handler's second half changes the state exactly as `CompleteSubmit` says and returns its toast |
| Workflow.Page.SubmitForm | src/pages/Index.tsx:33-74 | a whole submission changes the state as `Submit` says |
| Workflow.Page.OpenDownload | src/pages/Index.tsx:76-79 | the link opened is the download link for the current `url` and the format id |

## Left out

- JSX, CSS classes, the icon components and the `Card`, `Button` and `Label` components: presentation only. The title line (`videoInfo.title`) is shown as it is and not modelled.
- The browser's constraint validation of the `Input` with `type="url"` (src/pages/Index.tsx:115): in a form without `noValidate`, a non-empty value that is not a valid absolute URL (such as `" x "`) blocks the `submit` event, so `handleSubmit` never runs: no toast and no request. The model passes every string to the handler, so `Workflow.Submit` and `Workflow.Page.SubmitForm` describe only what the handler does once it runs.
- A 200 response whose body is not a `VideoInfo` (such as JSON `null`): `FetchOutcome.Fetched` carries only a well-formed body. With `null`, `setVideoInfo(null)` would clear the shown result and the success toast would still appear.
- `fetch`, `response.json()`, `window.open`, `console.error` and `useToast`: browser and library calls. A request ends in a `FetchOutcome` argument, a toast is a returned `Notification`, and `window.open` returns the link.
- `JSON.stringify({ url })`: the request records the `url` value it serialises, not the JSON text.
- `e.preventDefault()`: browser event handling with no effect on the state.
- `BACKEND_URL`: the hard-coded address is the parameter `backend`.
- Overlapping submissions (the response that resolves last wins): concurrency. The `Input` and the submit `Button` are disabled while loading (the Download buttons stay enabled), so `Page.BeginSubmit` and `Page.Edit` require `!loading` and `Run` treats each submission as one step.
- `key={format.format_id}` and its uniqueness: a React rendering concern.
- JsStrings.UpperCase: upper-cases only ASCII letters; `toUpperCase`'s full Unicode case mapping (and its length changes) is not modelled.
- JsStrings.UpperChar: keeps every character other than `a`-`z`, so `'é'` stays `'é'` where `toUpperCase` gives `'É'`.
- Presentation.FormatFileSize: exact for integer sizes of magnitude below 2^53; fractional sizes and sizes where floating-point division rounds or `toFixed` falls back to exponent notation are not modelled.
- `encodeURIComponent`'s URIError for a lone surrogate: a Dafny `char` is a Unicode scalar value, so a string here cannot hold one.
- Presentation.NotePrefix: the separator `NoteSeparator` is `" \U{2022} "` (U+2022 BULLET). The source text holds the octets C3 A2 E2 82 AC C2 A2, so the page as written renders the three characters `â€¢` (the UTF-8 octets of U+2022 read as Windows-1252) in its place.
- How the backend actually parses the download link: `ReadDownloadUrl` is one reading (split at the first `&`, decode `url`, take everything after `format_id=` as the format id), used to state the round trip. Because the format id is not encoded, that reading is what lets any id come back: a standard query parser, which splits at every `&`, would cut an id holding `&` short, and the browser drops everything from a `#` in the id onward as a fragment. `Download.DownloadUrlRoundTrip` holds for this reading only.
