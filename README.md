# bookshelf-pwa scanner logic in Dafny

A model of the logic of `app.js` in bookshelf-pwa, a browser page that reads
an ISBN barcode from the camera and looks the book up in the Google Books
volumes API. Three pieces of app.js carry logic of their own, and each is a
module here:

- `Isbn` (isbn.dfy) is the validator `isISBN13`. It strips every character
  outside `0`–`9`, demands exactly 13 digits, and compares the 13th with the
  weighted modulus-10 check value of the first twelve (weights 1, 3, 1, 3, …).
  This is the EAN-13 / ISBN-13 check-digit scheme. The validator is a
  functional specification (`Digits`, `Values`, `WeightedSum`, `CheckValue`,
  `IsISBN13`; `Digits` and `WeightedSum` are recursive). Beside it,
  `CheckIsbn13` does the same work step by step, a filtering loop for the `replace` and an accumulating loop for the
  `reduce`, and is proved equal to the specification.
- `BookLookup` (book_lookup.dfy) is the part of `queryGoogleBooks` that runs
  after the response is parsed. The parsed response is a datatype whose
  absent properties are `None`. The result is `None` (the returned `null`) or
  a `Book` of five strings, with the fallbacks of app.js. JavaScript's `||`
  treats the empty string as missing, and `Or` does the same.
- `Scanner` (scanner.dfy) holds the three module-level variables `stream`,
  `codeReader` and `scanning`. It covers their teardown `stopCamera` and the
  ISBN gate of the decode callback. The pure functions `Stopped` and
  `DecodeStep` specify the class `ScanSession`, whose methods update the
  variables in place. Calls into the collaborators are recorded, in order, in
  an effect log: the reader's `reset()`, each track's `stop()`, and the start
  of a lookup. Release-on-stop and stop-before-lookup are stated over that log.

`Wrappers` (wrappers.dfy) holds the `Option` datatype that stands for
JavaScript's `null` and `undefined`.

`scanning` and the comment at app.js:80 call for a closer look, and the
model states what the code does:
- `scanning` is declared at app.js:9 and reset by `stopCamera`, but nothing
  sets it to true and nothing reads it. The callback has no guard of its
  own, and `NoGuardOnRepeatedHits` states exactly that. The comment at
  app.js:80 says the scan is closed first to avoid a repeated trigger. That
  relies on an assumption about the barcode library: that its `reset()`
  ends further callbacks. The library is not part of this model, and the
  model does not assume it.
- As that comment says, the camera is stopped before the lookup begins
  (app.js:79-82), not after a result is shown. `StopPrecedesLookup` states
  this.
- A failed `fetch` or `json()` in `queryGoogleBooks` is an unhandled
  rejection inside the callback (app.js:53-55, 82). No error message is
  shown; the "查詢中..." message from app.js:79 stays on screen.

## Model

| member | source | states |
|---|---|---|
| `Isbn.Digits` | app.js:43 | the stripped text contains only ASCII digits and is no longer than the input; with `DigitsSingleton` and `DigitsAppend` it is exactly the digits of the input, in order |
| `Isbn.DigitsSingleton` | app.js:43 | a single character survives the stripping exactly when it is a digit |
| `Isbn.NonDigitInsertion` | app.js:43 | inserting any non-digit character anywhere in an input leaves the verdict unchanged |
| `Isbn.Values` | app.js:45 | `split('').map(n => +n)`: one value per digit, each in 0..9, and writing each value back as a digit gives the input again |
| `Isbn.WeightedSumSnoc` | app.js:47 | the `reduce` is a left fold: one more value adds that value times the weight of its position |
| `Isbn.WeightedSumOfTwelve` | app.js:47 | for a 12-value payload the `reduce` is `n0 + 3n1 + n2 + 3n3 + … + 3n11` |
| `Isbn.DigitsOfDigits` | app.js:43 | a string that is all digits is left unchanged by the stripping |
| `Isbn.DigitsIdempotent` | app.js:43 | stripping twice is the same as stripping once |
| `Isbn.NonDigitsIrrelevant` | app.js:43 | `isISBN13(s)` equals `isISBN13` of the digits of `s`, so hyphens, spaces and letters do not matter |
| `Isbn.CheckValue` | app.js:48 | `calc` lies in 0..9, and adding it to the weighted sum gives a multiple of 10 |
| `Isbn.IsISBN13` | app.js:42-50 | a true verdict needs exactly 13 digits after stripping; a `null`/`undefined` input is rejected |
| `Isbn.LengthGate` | app.js:43-44 | any input whose digits do not number exactly 13 is rejected; `null`/`undefined` gives the same verdict as `''`, which is how `Text` reads `s \|\| ''` |
| `Isbn.Characterization` | app.js:45-49 | for 13 digits `d`, valid iff `d[12] == (10 - (Σ_{i<12} d[i]·w(i)) % 10) % 10` with w = 1, 3, 1, 3, … |
| `Isbn.ValidIffFullSumDivisible` | app.js:45-49 | reference form of the scheme: 13 digits are valid iff their weighted sum over all 13 positions is a multiple of 10 |
| `Isbn.UniqueCheckDigit` | app.js:48-49 | for every 12-digit payload, a 13th digit validates iff it is the check value, so exactly one does |
| `Isbn.WeightedSumUpdate` | app.js:47 | changing one value changes the weighted sum by the difference times that position's weight |
| `Isbn.SingleSubstitutionDetected` | app.js:47-49 | replacing any one digit of a valid ISBN-13 by a different digit always gives an invalid one |
| `Isbn.DigitsAppend` | app.js:43 | stripping a concatenation is the concatenation of the stripped parts |
| `Isbn.ExamplePayloadSum` | app.js:47 | the weighted sum of the payload 978013419044 is 80 |
| `Isbn.ExampleValid` | app.js:42-50 | "9780134190440" is valid |
| `Isbn.ExampleCorrupted` | app.js:42-50 | "9780134190441", the same with its check digit corrupted, is not |
| `Isbn.ExampleWrongLength` | app.js:44 | a 12-digit and a 14-digit input are rejected |
| `Isbn.StripNonDigits` | app.js:43 | the filtering loop returns exactly the digits of its input, in order |
| `Isbn.SumWeighted` | app.js:47 | the accumulating loop returns exactly the left fold of `n * (i % 2 === 0 ? 1 : 3)` |
| `Isbn.CheckIsbn13` | app.js:42-50 | the loop form of `replace` and `reduce` returns exactly the verdict of `IsISBN13` |
| `BookLookup.Join` | app.js:62 | `join('、')`: the empty list gives `''`, otherwise the length is the names' total length plus one separator between each pair of neighbours |
| `BookLookup.AuthorsLine` | app.js:62 | the authors line is never empty |
| `BookLookup.Cover` | app.js:65 | a non-empty cover is one of the two image links present in the response |
| `BookLookup.ToBook` | app.js:59-66 | title, authors, publisher and publishedDate are never empty |
| `BookLookup.MapVolumes` | app.js:56-66 | the result is `null` exactly when there is no first item; otherwise the four text fields are non-empty |
| `BookLookup.NullExactlyWithoutFirstItem` | app.js:56-57 | `null` comes back exactly when `items` is absent, empty, or starts with `null`, the cases in which `FirstItem` (`j.items && j.items[0]`) is missing |
| `BookLookup.JoinEmptyIff` | app.js:62 | with a non-empty separator, a join is empty iff the list is empty or holds one empty name |
| `BookLookup.JoinSnoc` | app.js:62 | joining a list extended by one name gives the old join, the separator and the name |
| `BookLookup.JoinEnds` | app.js:62 | a join starts with the first name and ends with the last |
| `BookLookup.AuthorsFallback` | app.js:62 | the authors line is '不詳' when the list is absent, empty or one empty name; one name stands alone; more are joined with '、' |
| `BookLookup.CoverPreference` | app.js:65 | through `Or` (`\|\|` on strings), cover is `thumbnail` if usable, else `smallThumbnail` if usable, and is empty exactly when neither is |
| `BookLookup.FieldFallbacks` | app.js:59-64 | title, publisher and publishedDate are each the item's own value when usable, else its placeholder ('(未提供書名)' or '不詳'), as `Or` gives `\|\|`; a missing `volumeInfo` (`VolumeOf`'s `\|\| {}`) gives every placeholder and an empty cover |
| `Scanner.Stopped` | app.js:30-40 | after `stopCamera`, both handles are `null` and `scanning` is false; earlier effects are kept as a prefix |
| `Scanner.StoppedTracksOfTrackStops` | app.js:36 | `TrackStops`, the `forEach(t => t.stop())`, stops each track once, in order, and nothing else |
| `Scanner.StopEffectsLog` | app.js:35-38 | the stream half of the teardown stops exactly the stream's tracks and does nothing else |
| `Scanner.ResetEffectsLog` | app.js:31-34 | the reader half of the teardown resets exactly the held reader and does nothing else |
| `Scanner.ResetsOnStop` | app.js:31-34 | the readers reset by `stopCamera` are the old reader, if there was one, and no other |
| `Scanner.TracksOnStop` | app.js:35-38 | the tracks stopped by `stopCamera` are exactly the tracks of the old stream, in order, if there was one |
| `Scanner.LookupsOnStop` | app.js:30-40 | `stopCamera` starts no lookup |
| `Scanner.ReleaseOnStop` | app.js:30-38 | `reset()` is called exactly once when there was a reader and never otherwise; each track stops exactly when there was a stream; no lookup starts |
| `Scanner.StopIdempotent` | app.js:30-40 | stopping twice leaves the same state as stopping once |
| `Scanner.StopBeforeStartIsNoop` | app.js:7-40 | stopping in `Initial` (the three `let` values: both handles `null`, not scanning, nothing done) changes nothing |
| `Scanner.IsHit` | app.js:76-78 | a missing result never passes the gate; one that passes has exactly 13 digits |
| `Scanner.Deliver` | app.js:75 | over a sequence of callbacks without a hit the session is unchanged; after any hit both handles are released |
| `Scanner.DecodeStep` | app.js:76-82 | a result that is not an ISBN-13 leaves the session unchanged; an ISBN-13 leaves it stopped |
| `Scanner.StopPrecedesLookup` | app.js:76-82 | a lookup starts iff the result is present and passes `isISBN13`, and only after the whole teardown |
| `Scanner.LookupsAreHits` | app.js:75-82 | over any sequence of callbacks, the lookups started are exactly the results that pass the ISBN gate, in order |
| `Scanner.OneLookupAfterNotFound` | app.js:75-82 | two callbacks with no result, then one with any ISBN-13: exactly one lookup, of that ISBN, and the camera is released |
| `Scanner.OneLookupForExample` | app.js:75-82 | two callbacks with no result, then "9780134190440": exactly one lookup |
| `Scanner.NoGuardOnRepeatedHits` | app.js:75-82 | the callback does not consult `scanning`: the same ISBN-13 delivered twice starts two lookups |
| `Scanner.ScanSession.constructor` | app.js:7-9 | the object starts in `Initial`: both handles `null`, not scanning, nothing done |
| `Scanner.ScanSession.AttachStream` | app.js:18 | assigning the acquired stream changes only `stream` |
| `Scanner.ScanSession.AttachReader` | app.js:70 | assigning the new reader changes only `codeReader` |
| `Scanner.ScanSession.StopCamera` | app.js:30-40 | the in-place teardown, including the loop over the tracks, yields exactly `Stopped` of the old state |
| `Scanner.ScanSession.OnDecode` | app.js:76-82 | the callback yields exactly `DecodeStep` of the old state, and returns the ISBN whose lookup it starts |

## Left out

- Camera acquisition and playback (`startCamera`, app.js:15-28) are browser I/O. Only the assignment of the acquired stream is modelled, by `AttachStream`, which takes the stream as a parameter.
- The barcode library (`BrowserMultiFormatReader`, `decodeFromVideoDevice`, app.js:70-100) is third-party code. Its results are taken as an input sequence (`Deliver`), and each result is its `getText()` string. The callback's `err` argument is ignored by app.js and is not modelled.
- The network request and the JSON parsing in `queryGoogleBooks` (app.js:53-55) are foreign I/O. The model starts from the parsed response, and every property is typed as app.js uses it. A non-string title, or a non-string element of `authors`, is not modelled. In JavaScript such an element would be converted by `join`.
- The lookup itself is an effect, `LookupStarted`. What happens after it (the display, app.js:82-97, and a rejected `fetch`) is not modelled.
- All DOM work is presentation: `show`, the HTML templates and the two button listeners (app.js:2-5, 11-13, 79, 84-96, 102, 107-118). The listeners call `stopCamera` first, which is the teardown modelled here.
- The async interleaving of callbacks (app.js:75) is event-loop concurrency and is not modelled. Callbacks are taken one after another, in delivery order.
- service-worker.js is asset caching over the browser's Cache Storage and fetch APIs, with no logic of the app's own. It is not part of this model.
- Punctuated spellings (hyphens, spaces, an `ISBN` prefix) are covered for every input by `NonDigitInsertion` and `NonDigitsIrrelevant`. No literal punctuated example is worked through.
- Characters: `\D` without the `u` flag removes every UTF-16 code unit that is not `0`–`9`. Here a string is a sequence of Unicode characters, and every character outside `0`–`9` is removed. Both give the same digits.
