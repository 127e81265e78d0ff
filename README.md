# Publication intake of the BioBricks public-registry ledger, in Dafny

The ledger stores finished submission records under their digests. This
project models the layer in front of it, which builds those records, and
proves properties of that model. Three parts are covered:

- **The publish route** (`routes/publish.js`). The multipart `field` handler
  folds the stream of form fields into a field dictionary. Empty values are
  skipped. Names ending in `[]` accumulate into arrays. `feedback` is kept
  apart when feedback is configured. The `file` handler forwards each
  upload to the ledger at once. On `finish` the captcha response is removed
  and the captcha verdict is acted on. A pass runs `normalize`: four list
  keys move under `metadata`, empty optional fields are dropped or
  filtered, and `finding`/`safety` lose their carriage returns. Then each
  posted sequence becomes a `sequence<i>.fasta` attachment, and the record
  is written last.
- **The 10K-genes prefill route** (`routes/tenkgenes.js`). Five fields are
  whitelisted and `sequences[]` values are collected in order. A shared
  secret gates the reply. For the four known part types, the description
  gets a fixed sentence in front.
- **The publish form's script** (`static/publish.js`), with the DOM
  abstracted away. It covers the oversize/document/software scan of chosen
  attachments and the warning it shows, the `endsWith` polyfill, the
  Biosafety Level 3 button, the cap on "Add Another" lists, and the
  word-count label.

The handlers that change state in place are classes:
`PublishRoute.PublishRequest`, `TenKGenes.PrefillRequest`,
`PublishPage.AttachmentInput`, `PublishPage.SafetyTextarea` and
`PublishPage.AddAnotherList`. The two request classes, `PublishRequest` and
`PrefillRequest`, keep a ghost history of the events they have seen, and
their `Valid()` ties their fields to a pure fold over that history
(`FieldsAfter`, `FeedbackAfter`, `Uploads`, `CollectAll`), so the lemmas
about the folds hold for the objects too. `AttachmentInput` and
`SafetyTextarea` have no invariant: each handler's `ensures` states the new
field outright. `AddAnotherList` remembers the items it was served with and
its `Valid()` is the cap on the list's length. `normalize` is a method with
three passes, one loop per key list. Each loop is proved against the fold over the
keys already processed (`MoveAll`, `DropAll`, `StripAll`), and the lemmas
state what `Normalized` does key by key.

Modules:

- `Options` holds the option type.
- `Sequences` holds suffixes, containment and the element filter.
- `Decimal` renders non-negative integers the way JavaScript does below 10^21, and parses them back.
- `Http` holds handler dispatch and responses.
- `PublishFields`, `PublishNormalize` and `PublishRoute` model `routes/publish.js`.
- `TenKGenes` models `routes/tenkgenes.js`.
- `PublishPage` models `static/publish.js`.

JavaScript details are modelled explicitly:

- `value.length !== 0` holds for the nested `metadata` object (`HasLength`).
- An existing array, even an empty one, is truthy, so a `[]` field appends to it.
- `'' + undefined` is the text `undefined`, so `JsText(None) == "undefined"`.
- `hasOwnProperty` becomes map membership.
- `String.prototype.substr` with a negative start counts from the end.

A behaviour that may surprise is stated as a lemma rather than changed:

- a second `normalize` empties `metadata` (`NormalizeTwiceLosesLists`);
- the client matches extensions as bare suffixes, so `report.doc` also ends
  with the software extension `c` (`DocumentNamedLikeSoftware`);
- the polyfill and the native `endsWith` differ when the match would start
  before index 0 (`EndsWithNegativeStart`);
- a prefill request without a `description` but with a known type gets the
  header followed by the text `undefined` (`PrefillContents` with `JsText`);
- when no 10K-genes secret is configured, a request that posts no secret
  is accepted, because `undefined !== undefined` is false (`Respond` compares
  two `Option`s).

## Model

| member | source | states |
|---|---|---|
| PublishFields.ArrayKey | routes/publish.js:74-75 | a field named `x[]` is stored under `x`: the name is the key followed by `[]` |
| PublishFields.Apply | routes/publish.js:72-95 | one parser event's effect on the dictionary: a field is stored as `StoreField` says, a file leaves the dictionary alone |
| PublishFields.FieldsAfter | routes/publish.js:50-95 | the dictionary after a stream of events is the events applied one by one in arrival order; its lemmas below state what that leaves under each key |
| PublishFields.FeedbackAfter | routes/publish.js:50-95 | the feedback text after a stream of events is `StoreFeedback` applied field by field in arrival order |
| PublishFields.StoreField | routes/publish.js:72-86 | a field with an empty value leaves the dictionary unchanged; a configured `feedback` field never enters it |
| PublishFields.StoreFeedback | routes/publish.js:81-82 | a non-empty `feedback` field while feedback is configured sets the text to its value; any other field leaves the text unchanged |
| PublishFields.FeedbackAfterAppend | routes/publish.js:72-86 | following the feedback over a concatenated stream is following it over the two parts one after the other |
| PublishFields.FeedbackKept | routes/publish.js:81-82 | a stream with no non-empty `feedback` field leaves the feedback text as it was |
| PublishFields.LastFeedbackWins | routes/publish.js:81-82 | when feedback is configured, the last non-empty `feedback` field is the text that remains |
| PublishFields.ApplyAppends | routes/publish.js:74-80 | one event that does not overwrite `key` either appends its value to the array there, starting a fresh array over a non-array value, or leaves `key` alone |
| PublishFields.StoreFieldFrame | routes/publish.js:72-86 | a field that neither sets nor appends to `key` leaves the value under `key` as it was |
| PublishFields.FieldsAfterAppend | routes/publish.js:72-86 | handling a concatenated stream is handling its two parts one after the other |
| PublishFields.UntouchedKeyKept | routes/publish.js:72-86 | a key that no field of the stream touches keeps its value, or stays absent |
| PublishFields.KeysComeFromFields | routes/publish.js:50-86 | starting from `{}`, every key in the dictionary was stored by some non-empty field of the stream |
| PublishFields.LastPlainValueWins | routes/publish.js:83-85 | a plain field repeated later overwrites the earlier value: the last one not overwritten afterwards is what remains |
| PublishFields.ArrayValuesAccumulate | routes/publish.js:74-80 | the `x[]` values are appended in arrival order to the array already under `x`; a prior non-array value is replaced by a fresh array |
| PublishNormalize.MoveAll | routes/publish.js:218-225 | the first pass keeps a `metadata` object in the record |
| PublishNormalize.MoveKey | routes/publish.js:219-224 | a listed key present with non-zero length leaves the top level and sits under `metadata` with its value; otherwise the record is unchanged |
| PublishNormalize.DropKey | routes/publish.js:226-233 | the value under the key becomes what `DropValue` gives: an array loses its `''` elements, an empty string is deleted; every other key keeps its value |
| PublishNormalize.DropAll | routes/publish.js:226-234 | the second pass is `DropKey` applied to `name`, `affiliation` and `safety` in that order |
| PublishNormalize.StripKey | routes/publish.js:235-238 | a string under the key loses its carriage returns as `StripValue` says; every other key keeps its value |
| PublishNormalize.StripAll | routes/publish.js:235-239 | the third pass is `StripKey` applied to `finding` and `safety` in that order |
| PublishNormalize.Normalized | routes/publish.js:217-240 | `normalize` is a fresh `metadata`, then the three passes in order; `NormalizedAt` and `NormalizedMetadata` state the result key by key |
| PublishNormalize.MoveAllAt | routes/publish.js:219-225 | key by key, a listed key present with non-zero length leaves the top level and appears under `metadata` with its value; everything else stays |
| PublishNormalize.DropValueIdempotent | routes/publish.js:227-233 | filtering `''` out of an array or deleting an empty string, done twice, is done once |
| PublishNormalize.StripValueIdempotent | routes/publish.js:236-238 | removing carriage returns twice is removing them once |
| PublishNormalize.DropAllAt | routes/publish.js:226-234 | key by key, the second pass changes only `name`, `affiliation` and `safety`, each as the filter/delete rule says |
| PublishNormalize.StripAllAt | routes/publish.js:235-239 | key by key, the third pass changes only string-valued `finding` and `safety` |
| PublishNormalize.NormalizedAt | routes/publish.js:217-239 | the value `normalize` leaves under every key other than `metadata` is the three passes' rules applied in order |
| PublishNormalize.NormalizedMetadata | routes/publish.js:217-225 | afterwards `metadata` is an object replacing any earlier one and holds exactly the listed keys that were present with non-zero length, values unchanged |
| PublishNormalize.NormalizeMovesLists | routes/publish.js:219-225 | a listed key with non-zero length leaves the top level; one of length zero stays where it was |
| PublishNormalize.NormalizeDropsEmpty | routes/publish.js:226-234 | an empty-string `name`/`affiliation`/`safety` is deleted; an array one loses its `''` elements |
| PublishNormalize.NormalizeStripsLines | routes/publish.js:235-239 | a non-empty `finding`/`safety` string loses its carriage returns and nothing else |
| PublishNormalize.NormalizedHasNoCarriageReturn | routes/publish.js:235-239 | no string-valued `finding`/`safety` holds a carriage return after `normalize` |
| PublishNormalize.NormalizeLeavesOthers | routes/publish.js:217-239 | keys outside the three lists, other than `metadata`, are untouched |
| PublishNormalize.StripLinesIdempotent | routes/publish.js:235-239 | the carriage-return pass applied twice is the pass applied once |
| PublishNormalize.NormalizeTwiceLosesLists | routes/publish.js:218-224 | a second `normalize` resets `metadata`, so the lists moved by the first run are lost |
| PublishRoute.Route | routes/publish.js:178-187 | GET serves the form, POST publishes, every other method is refused |
| PublishRoute.Uploads | routes/publish.js:87-95 | what the `file` handler writes for a stream: never more items than events, and every item an attachment of an uploaded file's stream |
| PublishRoute.SequenceItems | routes/publish.js:123-134 | the attachments made from a list of sequences, numbered from zero; `SequenceItemsAt` states them item by item |
| PublishRoute.SequencesOf | routes/publish.js:123-125 | the sequences of a record are the items of an array under `sequences`, and none otherwise |
| PublishRoute.Publication | routes/publish.js:96-138 | a passed request writes the attachments of the normalized record's sequences, then that record without `sequences`; `PublicationOrder` and `PublishedRecordClean` state it |
| PublishRoute.SequenceItemsAt | routes/publish.js:124-133 | the `i`-th posted sequence becomes attachment `i`, named `sequence<i>.fasta`, encoded UTF-8, of type `chemical/fasta` |
| PublishRoute.SequenceFilenamesDistinct | routes/publish.js:129 | no two sequence attachments of a request share a filename |
| PublishRoute.PublicationOrder | routes/publish.js:123-138 | after the uploads come one attachment per element of an array-valued `sequences`, in index order, then the record, last |
| PublishRoute.PublishedRecordClean | routes/publish.js:96-137 | the record written carries no captcha response and no `sequences`, and does carry the `metadata` object |
| PublishRoute.PublishRequest.constructor | routes/publish.js:50-52 | a request starts with an empty dictionary, no feedback and nothing written |
| PublishRoute.PublishRequest.OnField | routes/publish.js:72-86 | the `field` handler updates the dictionary and feedback in place and keeps them equal to the fold over all fields seen |
| PublishRoute.PublishRequest.OnFile | routes/publish.js:87-95 | the `file` handler writes the upload to the ledger at once, in arrival order, and changes nothing else |
| PublishRoute.PublishRequest.Normalize | routes/publish.js:217-240 | the three in-place loops leave exactly `Normalized` of the old dictionary |
| PublishRoute.PublishRequest.MoveLists | routes/publish.js:219-225 | the first loop leaves exactly the first pass's fold over the four list keys |
| PublishRoute.PublishRequest.DropEmpty | routes/publish.js:226-234 | the second loop leaves exactly the second pass's fold over `name`, `affiliation`, `safety` |
| PublishRoute.PublishRequest.StripLines | routes/publish.js:235-239 | the third loop leaves exactly the third pass's fold over `finding`, `safety` |
| PublishRoute.PublishRequest.WriteSequences | routes/publish.js:124-134 | the loop writes one attachment per sequence, numbered from zero, in order, after what was already written |
| PublishRoute.PublishRequest.WritePublication | routes/publish.js:113-138 | a passed request writes the attachments of the normalized record's `sequences` and then that record without `sequences`, which is what the dictionary holds afterwards |
| PublishRoute.PublishRequest.OnFinish | routes/publish.js:96-142 | a captcha error answers 500 and a rejection 400 `invalid captcha`, both writing nothing more; a pass writes the sequence attachments and the cleaned record; the ledger input is ended in every case; the dictionary is left without the captcha response (and, after a pass, normalized and without `sequences`) and the feedback is unchanged |
| Sequences.Without | routes/publish.js:228-230 | the filter leaves no occurrence of the element and never lengthens the sequence |
| Sequences.WithoutCounts | routes/publish.js:228-230 | every other element survives the filter exactly as often as it occurred |
| Sequences.WithoutAppend | routes/publish.js:228-230 | filtering a concatenation is concatenating the filtered parts |
| Sequences.WithoutIdempotent | routes/publish.js:237 | filtering twice is filtering once |
| Decimal.NatToString | routes/publish.js:129 | a number renders as a non-empty run of decimal digits |
| Decimal.ParseNatToString | routes/publish.js:129 | the rendering of a number reads back as that number |
| Decimal.NatToStringInjective | routes/publish.js:129 | different numbers render differently |
| Decimal.RenderedPrefixUnique | routes/publish.js:129 | a rendered number followed by text starting with a non-digit determines both the number and the text |
| TenKGenes.Route | routes/tenkgenes.js:76-82 | only POST is handled; every other method is refused |
| TenKGenes.Collect | routes/tenkgenes.js:45-49 | one field changes only its own scalar, to its value when non-empty and whitelisted, and appends a non-empty `sequences[]` value to the sequences, keeping the earlier ones |
| TenKGenes.CollectAll | routes/tenkgenes.js:39-49 | the values after a stream are `Collect` applied field by field from no scalars and no sequences; `ScalarIsLastValue` and `SequencesInArrivalOrder` state the result |
| TenKGenes.Respond | routes/tenkgenes.js:50-72 | the reply is refused, with 400 `unauthorized`, exactly when the posted secret differs from the configured one; an accepted reply carries the sequences unchanged |
| TenKGenes.ScalarIsLastValue | routes/tenkgenes.js:42-49 | only `first`, `last`, `type`, `description` and `secret` are kept, each with the last non-empty value posted under its name |
| TenKGenes.SequencesInArrivalOrder | routes/tenkgenes.js:39-48 | the sequences are the non-empty `sequences[]` values in arrival order, starting from an empty list |
| TenKGenes.Described | routes/tenkgenes.js:57-62 | a known part type puts its sentence and a blank line in front of the description; any other type leaves it unchanged |
| TenKGenes.WrongSecretRefused | routes/tenkgenes.js:51-53 | a secret that differs from the configured one gets 400 `unauthorized` and no form |
| TenKGenes.PrefillContents | routes/tenkgenes.js:54-69 | an accepted request gets the name `first + ' ' + last`, its sequences unchanged, and a description from which the posted one reads back after the header and blank line |
| TenKGenes.PrefillRequest.constructor | routes/tenkgenes.js:39-41 | collection starts from no scalars and an empty sequence list |
| TenKGenes.PrefillRequest.OnField | routes/tenkgenes.js:45-49 | the `field` handler updates the values in place and keeps them equal to the fold over all fields seen |
| TenKGenes.PrefillRequest.OnFinish | routes/tenkgenes.js:50-72 | the `finish` handler answers as `Respond` says and rewrites only `description`, only when accepted |
| PublishPage.Substr | static/publish.js:247 | `substr` returns at most `length` characters of the string, and the exact slice when it lies inside the string |
| PublishPage.EndsWith | static/publish.js:240-249 | the polyfill: clamp `position` to the length, then compare the `substr` of the search's length ending there; its lemmas relate it to suffixes and to the native method |
| PublishPage.EndsWithIsSuffix | static/publish.js:240-249 | with `position` omitted or at least the length, the polyfill holds iff `search` is a suffix |
| PublishPage.LongerNeverEndsWith | static/publish.js:240-249 | a search string longer than the string never matches, whatever the position |
| PublishPage.EndsWithAgreesWithNative | static/publish.js:240-249 | the polyfill agrees with the native `endsWith` whenever the match cannot start before index 0 |
| PublishPage.EndsWithNegativeStart | static/publish.js:243-247 | `"ab".endsWith("b", 0)` holds under the polyfill but not natively |
| PublishPage.FirstOversize | static/publish.js:171-176 | the scan stops at the first file strictly larger than 1,000,000 bytes; every file before it is not |
| PublishPage.Oversize | static/publish.js:173 | a file is oversize when it is strictly larger than 1,000,000 bytes |
| PublishPage.LooksLike | static/publish.js:177-205 | a file looks like a document (software) when its name ends with one of the document (software) extensions or its MIME type is listed |
| PublishPage.FlagsOf | static/publish.js:166-206 | the oversize flag is set exactly when some file is oversize; the other two flags are gathered from the files before the first oversize one |
| PublishPage.WarningFor | static/publish.js:207-236 | no flag: no paragraph; oversize: the oversize text, class `problem`; else software: the software text; else document: the document text, class `problem`; class `legal` iff software alone |
| PublishPage.MatchesExtension | static/publish.js:178-184 | the scan finds a match iff the name ends with one of the extensions |
| PublishPage.MatchesType | static/publish.js:185-191 | the scan finds a match iff the MIME type is one of the listed types |
| PublishPage.Classify | static/publish.js:178-205 | the four scans for one file find that it looks like a document, and like software, exactly when it does |
| PublishPage.ScanFiles | static/publish.js:166-206 | the nested loops compute the flags of the files up to the first oversize one, ORed across files |
| PublishPage.AttachmentInput.OnChange | static/publish.js:163-237 | after a change the paragraph after the input is the one `WarningFor` gives for the chosen files, or absent |
| PublishPage.AttachmentInput.constructor | static/publish.js:159-161 | the input starts with no warning paragraph |
| PublishPage.OversizeDecides | static/publish.js:171-176 | an oversize file gives the oversize text with class `problem` whatever the other files are, and files after it change nothing |
| PublishPage.FlagsWithoutOversize | static/publish.js:177-205 | without oversize files a flag is set iff some file looks like a document (or software) by name suffix or MIME type |
| PublishPage.AnyLooksLikeSome | static/publish.js:171-205 | the flag accumulated file by file is set exactly when some file of the list looks like its kind |
| PublishPage.DocumentNamedLikeSoftware | static/publish.js:178-198 | `report.doc` matches the document extension `doc` and the software extension `c`, so it gets the software text with class `problem` |
| PublishPage.WithBsl3 | static/publish.js:297-303 | text already holding the BSL3 sentence is unchanged; empty text becomes the sentence; other text gets the sentence and a space in front; the result always holds the sentence |
| PublishPage.WithBsl3Idempotent | static/publish.js:298 | pressing the button twice is pressing it once |
| PublishPage.SafetyTextarea.OnBsl3Click | static/publish.js:294-304 | the click handler leaves the textarea holding `WithBsl3` of its old value |
| PublishPage.SafetyTextarea.constructor | static/publish.js:285-287 | the textarea starts with the text it was served with |
| PublishPage.AddAnotherList.constructor | static/publish.js:32-55 | a list starts as served, with its button |
| PublishPage.AddAnotherList.OnClick | static/publish.js:38-53 | a click appends an empty input and removes the button once the list holds `max` items, so clicks never take a list served shorter than `max` past `max` |
| PublishPage.WordCountLabel | static/publish.js:94 | the label is the count in decimal followed by ` word` for one and ` words` otherwise |
| PublishPage.WordCountLabelInjective | static/publish.js:94 | different counts get different labels |

## Left out

- The ledger that receives the record is not part of this model: digesting, accession numbering, signing, timestamps and read views.
- Busboy parsing, `pump`/`through2` and `stringToStream` are replaced by a given sequence of field and file events. An upload's bytes are opaque (`Upload(field)`), and the stream a sequence becomes is its text.
- The Busboy construction failure (answers 400 in both routes) is not modelled.
- `verifyCatpcha` calls reCAPTCHA over HTTPS; its verdict is an input (`Captcha`: error, rejection, pass). Whether a non-string captcha response counts as a rejection belongs to that function and is not modelled.
- `saveFeedback` writes a file; the feedback text is kept in the state, but the line written is not modelled.
- The ledger's own answers (201 with the redirect, errors from the ledger stream) are not modelled; after a pass the model records that nothing has been sent by the route itself.
- The method-not-allowed responder and HTML templating (`publish-form.js`, `redirectTo`, the GET form page) are not part of this model; dispatch is modelled as the handler chosen.
- Keys that clash with JavaScript's object prototype (`__proto__`, `hasOwnProperty`) are treated as ordinary keys.
- PublishPage.EndsWith: `position` is an optional integer; non-integer, NaN and string positions are not modelled.
- PublishPage.EndsWith: strings are sequences of Unicode code points, while JavaScript's `length`, `substr` and `position` count UTF-16 code units; with a position given, text outside the Basic Multilingual Plane can get a different answer (`"\u{1F600}b".endsWith("b", 2)` is false in JavaScript but holds here). The attachment scan never passes a position.
- Decimal.NatToString: JavaScript renders integers from 10^21 on in exponent notation; the model always renders plain digits, which matches only below 10^21 (sequence indices and word counts stay far below it).
- PublishPage.AttachmentInput.OnChange: a following sibling that is not the warning paragraph is not modelled; the paragraph is either present with its text and class, or absent.
- PublishPage.AddAnotherList.constructor requires at least one served item, because the handler clones the first one.
- `debounce`, `addSubmitSafety` with its timer, `addListFilterBoxes` and the regex word count `countWords` are left out; the word count is an input to `WordCountLabel`.
- The list of sections that get an "Add Another" button, and their caps (25 and 5), are page wiring; `max` is a parameter of `AddAnotherList`.
