# MyPets sample app: upload body, upload sequence, pet list and search, in Dafny

This project models the data handling at the heart of the MyPets iOS sample
app, as pure Dafny functions and small methods with proved contracts:

- **Upload** (`ImageUploadToServerFunctions.swift`). `createMultipartFormData`
  builds a multipart/form-data body from three fields. They are `appid`,
  `original` (the discovery endpoint) and `file` (the edited image). The
  upload runs in two phases: `uploadUrlRetrieval` asks the discovery endpoint
  for a destination, then `uploadImageFile` POSTs the body there and, on
  success, shows the success alert.
- **Pet list** (`ImageListFetchandDisplayFunctions.swift`). `fetchData` checks
  that the decoded JSON is an array of objects. `parseJSON` turns the items
  that carry `title`, `description`, `url` and `created` strings into
  `ImageData` records. `displayImagesandInfo` builds one view per record,
  tagged with the record's index. `petImageTapped` follows the tag back to
  the record.
- **Search** (`ImageListViewController.swift`). `searchBar(_:textDidChange:)`
  keeps the views whose lowercased description or title label contains the
  lowercased search text. It then replaces the stack's arranged views with
  those views.

Modules, one per file:

| file | module | what it holds |
|---|---|---|
| wrappers.dfy | `Wrappers` | `Option` |
| network.dfy | `Network` | `Reply`, the abstract outcome of a network call |
| text.dfy | `Text` | bytes, UTF-8 encoding and its decoder, ASCII lowercase, substring search |
| json.dfy | `JsonValue` | decoded JSON values, `dict[key] as? String` |
| records.dfy | `Records` | `ImageData`, record extraction, the array-shape check, `fetchData` |
| multipart.dfy | `Multipart` | the body as the code writes it, a reference encoder following section 5.1.1 of RFC 2046 and section 4.2 of RFC 7578, the Content-Type header |
| upload.dfy | `Upload` | the upload state machine `Ready → Discovering → Uploading → Uploaded`, with `Stopped` and `Trapped` endings |
| display.dfy | `Display` | list views, labels, tags, tap lookup |
| search.dfy | `Search` | the search filter and the stack update |

Foreign calls become inputs. The network outcome is a `Reply`: `Delivered`
means no transport error, a status in 200...299 and a body; every other
outcome is `Failed`. Other inputs are the decoded JSON value (absent when
decoding throws) and a `validUrl` predicate standing for `URL(string:)`. The
boundary string replaces `UUID().uuidString`, the image bytes replace
`pngData()`, and a `formatDate` function replaces `formattingDate`.

Behaviour of the code that the model keeps, as written:

- Every upload failure only prints. The spinner keeps running and the screen
  stays non-interactive (`Upload.FailureLeavesScreenLocked`).
- A record whose URL does not parse ends `displayImagesandInfo` early. Views
  exist only for the records before it, and the spinner is never stopped.
- The search matches label texts, and those carry the prefixes `"Paw Bio: "`
  and `"Name: "`. So the text "name" keeps every view
  (`Search.LabelPrefixMatches`).
- The file part is declared `image/jpeg` named `image.jpg`, but its bytes are
  the PNG encoding of the image.
- The code has one kind of failure: it only prints the error. The model does
  not split failures into kinds.

## Model

| member | source | states |
|---|---|---|
| Text.DecodeEncode | SampleApp/SampleApp/ImageUploadToServerFunctions.swift:107 | Encoding a string's text into body bytes loses nothing: decoding the UTF-8 bytes gives the string back. |
| Text.Utf8Append | SampleApp/SampleApp/ImageUploadToServerFunctions.swift:105-124 | Encoding the segments one by one gives the same bytes as encoding their concatenation. |
| Text.Contains | SampleApp/SampleApp/ImageListViewController.swift:95 | `contains` holds exactly when the text occurs at some index of the label. |
| Text.ContainsTransitive | SampleApp/SampleApp/ImageListViewController.swift:95 | If a label contains a text and that text contains a shorter one, the label contains the shorter one. |
| Text.LowerIdempotent | SampleApp/SampleApp/ImageListViewController.swift:95 | Lowercasing an already lowercased text changes nothing. |
| Multipart.CreateMultipartFormData | SampleApp/SampleApp/ImageUploadToServerFunctions.swift:103-128 | The image bytes sit unmodified at a fixed offset that depends only on boundary, appid and endpoint. The closing delimiter follows them and ends the body. |
| Multipart.MatchesReference | SampleApp/SampleApp/ImageUploadToServerFunctions.swift:105-126 | The body is the RFC 2046 / RFC 7578 encoding of exactly three fields, in order: `appid`, `original`, then `file` named `image.jpg` of type `image/jpeg`. |
| Multipart.EncodeFraming | SampleApp/SampleApp/ImageUploadToServerFunctions.swift:107-124 | Any non-empty multipart body opens with `--boundary CRLF` and ends with `--boundary-- CRLF`. |
| Multipart.BodyFraming | SampleApp/SampleApp/ImageUploadToServerFunctions.swift:107-124 | The upload body begins with `"--" + boundary + "\r\n"` and ends with `"--" + boundary + "--\r\n"`. |
| Multipart.ImageFollowsBlankLine | SampleApp/SampleApp/ImageUploadToServerFunctions.swift:113-120 | The four bytes just before the image are CR LF CR LF, so the file part's headers end just before the image starts. |
| Multipart.BodyLength | SampleApp/SampleApp/ImageUploadToServerFunctions.swift:107-124 | The body length is 218 bytes of fixed text, plus four boundaries, the appid, the endpoint and the image. |
| Multipart.IgnoresImageUrl | SampleApp/SampleApp/ImageUploadToServerFunctions.swift:103-110 | The body is the same whatever `imageURL` is passed. |
| Multipart.ContentTypeHeader | SampleApp/SampleApp/ImageUploadToServerFunctions.swift:67 | The Content-Type value is `multipart/form-data; boundary=` followed by exactly the boundary. |
| Multipart.BoundaryParam | SampleApp/SampleApp/ImageUploadToServerFunctions.swift:67 | A Content-Type value yields a boundary exactly when it has the `multipart/form-data; boundary=` form. The boundary is the rest of the value. |
| Multipart.BoundaryParamOfHeader | SampleApp/SampleApp/ImageUploadToServerFunctions.swift:67 | Reading the boundary back out of the Content-Type header gives the boundary it was built from. |
| Upload.Destination | SampleApp/SampleApp/ImageUploadToServerFunctions.swift:29-37 | A destination exists exactly when discovery delivered a JSON object whose `url` is a string that parses as a URL. |
| Upload.BuildRequest | SampleApp/SampleApp/ImageUploadToServerFunctions.swift:61-71 | The request is a POST to the destination. Its header announces the body's boundary, and its body encodes the three fields with the endpoint as `original`. |
| Upload.Start | SampleApp/SampleApp/ImageUploadToServerFunctions.swift:15-24 | From any idle state, including after an earlier success, discovery starts exactly when there is an endpoint. Then the spinner runs and the screen locks. Otherwise the screen stays as it was. A dismissed success alert is gone either way. |
| Upload.OnDiscovery | SampleApp/SampleApp/ImageUploadToServerFunctions.swift:26-63 | With a destination and a parsable image URL, the POST is issued. With a destination and an unparsable image URL, the app traps. Every other reply stops the sequence with the screen unchanged. |
| Upload.OnUpload | SampleApp/SampleApp/ImageUploadToServerFunctions.swift:74-91 | A delivered upload stops the spinner, unlocks the screen and shows the alert. A failed one stops the sequence and changes nothing on screen. |
| Upload.RunFrom | SampleApp/SampleApp/ImageUploadToServerFunctions.swift:15-91 | One attempt, `uploadUrlRetrieval` followed by `uploadImageFile`, from any idle state. It ends uploaded, stopped or trapped, and it ends uploaded only if it issued its POST. |
| Upload.Run | SampleApp/SampleApp/ImageUploadToServerFunctions.swift:15-91 | The same for the first attempt from the freshly opened editing screen. |
| Upload.RepeatAfterSuccess | SampleApp/SampleApp/ImageUploadToServerFunctions.swift:82-86 | A success re-enables the screen. A second attempt from there, with any inputs, behaves exactly as a first attempt would. |
| Upload.PostOnlyAfterDiscovery | SampleApp/SampleApp/ImageUploadToServerFunctions.swift:18-71 | A POST is issued if and only if there is an endpoint, discovery yields a destination and the image URL parses. The POST goes to that destination with the announced boundary and the reference body. |
| Upload.HeaderBoundaryOpensBody | SampleApp/SampleApp/ImageUploadToServerFunctions.swift:62-70 | The boundary in the posted Content-Type header is the one whose delimiter opens the posted body. |
| Upload.AlertOnlyOnUploadSuccess | SampleApp/SampleApp/ImageUploadToServerFunctions.swift:77-91 | The success alert shows exactly when a POST was issued and delivered. It shows exactly when the sequence ends in `Uploaded`. |
| Upload.FailureLeavesScreenLocked | SampleApp/SampleApp/ImageUploadToServerFunctions.swift:22-91 | Once discovery started, every ending except success leaves the spinner running and the screen locked. |
| Upload.NoPostNoUploadEffect | SampleApp/SampleApp/ImageUploadToServerFunctions.swift:34-41 | When no POST was issued, the upload reply has no effect on the outcome. |
| Upload.StepsKeepConsistent | SampleApp/SampleApp/ImageUploadToServerFunctions.swift:22-86 | Each step, including a start from any idle state, keeps two facts. The screen is interactive exactly when the spinner is stopped. The alert shows only after a successful upload. |
| Upload.ScenarioDestinationUsed | SampleApp/SampleApp/ImageUploadToServerFunctions.swift:34-40 | A discovery body `{"url": "https://example.test/put/abc123"}` sends the POST to exactly that URL. |
| Upload.ScenarioMissingUrl | SampleApp/SampleApp/ImageUploadToServerFunctions.swift:34-37 | A discovery body `{"status": "ok"}` issues no POST and shows no alert. |
| Upload.ScenarioDiscoveryFails | SampleApp/SampleApp/ImageUploadToServerFunctions.swift:47-49 | A failed discovery issues no POST. |
| JsonValue.StringAt | SampleApp/SampleApp/ImageListFetchandDisplayFunctions.swift:64-67 | `item[key] as? String` succeeds exactly when the key is present with a string value, and yields that string. |
| Records.RecordOf | SampleApp/SampleApp/ImageListFetchandDisplayFunctions.swift:64-68 | An item gives a record exactly when all four keys hold strings. `url` maps to `imageUrl` and `created` to `createdDate`. |
| Records.RecordOfToObject | SampleApp/SampleApp/ImageListFetchandDisplayFunctions.swift:64-68 | Reading a record's own JSON object gives back the record, even with any other keys added. |
| Records.ExtraKeysIgnored | SampleApp/SampleApp/ImageListFetchandDisplayFunctions.swift:64-67 | Adding or changing a key other than the four leaves the item's record unchanged. |
| Records.ExtractAppend | SampleApp/SampleApp/ImageListFetchandDisplayFunctions.swift:63-72 | Extraction goes item by item in input order: extracting a concatenation concatenates the extractions. |
| Records.ExtractExactly | SampleApp/SampleApp/ImageListFetchandDisplayFunctions.swift:63-74 | There is one record per qualifying item. Every record comes from an input item, and every qualifying item's record is present. |
| Records.ExtractAllQualify | SampleApp/SampleApp/ImageListFetchandDisplayFunctions.swift:63-72 | When every item qualifies, record i comes from item i. |
| Records.ParseJson | SampleApp/SampleApp/ImageListFetchandDisplayFunctions.swift:61-75 | The new list is the old list, unchanged, followed by the extracted records. At most one record is added per item. |
| Records.AsObjectArray | SampleApp/SampleApp/ImageListFetchandDisplayFunctions.swift:33-35 | The `[[String: Any]]` cast succeeds exactly for an array whose every element is an object. It keeps the elements' order. |
| Records.AsObjectArrayOf | SampleApp/SampleApp/ImageListFetchandDisplayFunctions.swift:33-35 | Casting an array built from objects gives back exactly those objects. |
| Records.FetchData | SampleApp/SampleApp/ImageListFetchandDisplayFunctions.swift:20-55 | Display starts exactly when a delivered body decodes to an array of objects, and then the records are appended. Any other outcome leaves the list unchanged and displays nothing. |
| Display.MakeView | SampleApp/SampleApp/ImageListFetchandDisplayFunctions.swift:153-176 | The labels are `"Paw Bio: "` followed by the description, `"Name: "` followed by the title, and `"Made on: "` followed by the formatted creation date. The image view's tag is the index, and the image loads from the record's URL. |
| Display.DisplayImagesAndInfo | SampleApp/SampleApp/ImageListFetchandDisplayFunctions.swift:84-103 | Views exist for a contiguous prefix of the records, in order, view i tagged i. The walk finishes exactly when every URL parses. Otherwise the first record without a view is the one whose URL does not parse. |
| Display.TappedImageUrl | SampleApp/SampleApp/ImageListFetchandDisplayFunctions.swift:108-112 | A tap yields the image URL of a record in the list. |
| Display.TapFindsOwnRecord | SampleApp/SampleApp/ImageListFetchandDisplayFunctions.swift:86-112 | Tapping view i opens record i's URL, the same URL its image was loaded from. |
| Search.Filter | SampleApp/SampleApp/ImageListViewController.swift:89-97 | A view is in the result exactly when it is in the list and the search keeps it. The result is never longer than the list. |
| Search.FilterIsSubsequence | SampleApp/SampleApp/ImageListViewController.swift:89-97 | The result is a subsequence of the view list: nothing is added or reordered. |
| Search.EmptyQueryKeepsAll | SampleApp/SampleApp/ImageListViewController.swift:91-92 | An empty search text keeps every view, in order. |
| Search.FilterIdempotent | SampleApp/SampleApp/ImageListViewController.swift:89-97 | Filtering the result again with the same text changes nothing. |
| Search.CaseInsensitive | SampleApp/SampleApp/ImageListViewController.swift:95 | Search texts that differ only in letter case keep the same views. |
| Search.NarrowerKeepsLess | SampleApp/SampleApp/ImageListViewController.swift:95 | Suppose a search text contains another. A view the longer text keeps is also kept by the shorter one. |
| Search.NarrowerIsSubsequence | SampleApp/SampleApp/ImageListViewController.swift:89-95 | Typing more keeps a subsequence of what the shorter text kept. |
| Search.LabelPrefixMatches | SampleApp/SampleApp/ImageListViewController.swift:95 | Because of the `"Name: "` label prefix, the text "name" keeps every view built from a record. |
| Search.SearchTextDidChange | SampleApp/SampleApp/ImageListViewController.swift:87-107 | After a search the stack holds exactly the filtered views, in list order, whatever it held before. A view is arranged exactly when the search keeps it. |

## Left out

- Image editing (rotation, exposure, colour inversion, overlay, opacity and scale sliders): CoreImage and CoreGraphics work on floating-point pixels and geometry, which is foreign code.
- `formattingDate`: it depends on DateFormatter, Calendar and the locale. `Display.MakeView` takes it as the `formatDate` parameter.
- JSON decoding (`JSONSerialization`): the model receives the decoded value, or its absence when decoding throws.
- URL parsing (`URL(string:)`): the model takes it as the `validUrl` predicate. `absoluteString` is taken to return the text the URL was parsed from.
- Network plumbing (`Utilities.swift`): the outcome is a `Reply` input. `Delivered` assumes what `Utilities` checks: no transport error, a 2xx status and a body.
- The fixed URL guard in `fetchData` (the list URL is a constant that parses) is not modelled.
- `UUID()` and `pngData()`: the boundary and the image bytes are parameters. The image bytes are always present, so the force-unwrap of `pngData()` cannot fail in the model.
- Loading images with Nuke, view layout and shadows, nib loading, alerts other than the success alert, navigation, keyboard handling and `DispatchQueue.main.async` marshalling: UI and concurrency. Each view records only the URL its image loads from.
- `PetImageandTextDisplayView.createdDateText` returns the description label from its getter. The app never reads it, so this UI detail is not modelled.
- Display.TappedImageUrl: `petImageTapped` force-unwraps the tapped view's image. A tap before Nuke has finished loading that image traps the app, and the model does not include this path, because image loading is not modelled. The model returns the record's URL for every tap.
- Text.Lower: only ASCII letters are lowercased. Swift's `lowercased()` applies full Unicode case mapping.
- Text.Contains: it compares characters one by one. Swift compares strings by extended grapheme clusters and canonical equivalence, which is not modelled.
- No multipart parser round trip: the code does not check that the boundary is absent from the image bytes, so a delimiter-splitting parser cannot be proved to recover the fields. `Multipart.MatchesReference` ties the body to a reference encoder instead.
