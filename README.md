# Disaster report canister, modelled in Dafny

The backend of the disaster management application is an Internet Computer
canister. It keeps one stable map from report identifiers to disaster
reports. Six of its seven calls work on that map:

- `getAllDisasterReports` checks nothing and returns every stored report.
- `getDisasterReportById` checks the identifier's shape, then presence, and
  returns the report.
- `createDisasterReport` runs the report validator, then stores a new record
  under a generated identifier.
- `updateDisasterReportById` checks the identifier's shape, then runs the
  report validator, then checks presence, then ownership, and replaces the
  twelve client fields.
- `addDisasterImages` checks the identifier's shape, then runs the image
  validator, then checks presence, then ownership, and appends the image.
- `deleteDisasterImageById` checks the identifier's shape, then presence,
  then ownership, then whether an image matches. It runs no validator. It
  removes the first image with the given timestamp and address.

The five calls other than the listing return `Ok(report)` or `Err` with one
of the four message variants. Each changes at most the one entry it
addressed, and only on success. The seventh call, `getAddressFromPrincipal`,
does not touch the map; it is listed under "Left out".

The model has four modules:

- `Text` (text.dfy)
  - JavaScript's `trim`-based blank check
  - the UUID shape check
  - the email pattern, as a recognizer of its language
  - `Array.prototype.toString` joining
- `Records` (records.dfy)
  - the payload, image and report records, and the `Message` and `Result` types
  - the object spread used by an update
  - `findIndex`/`splice` on a report's images
- `Validation` (validation.dfy)
  - the two error-collecting validators, written as methods that push
    messages, and proved equal to a specification that runs a list of field
    checks in order
- `Store` (store.dfy)
  - each call as a pure transition of the map: `Lookup`, `Create`, `Update`,
    `AddImage` and `DeleteImage`, each returning the result and the new map
  - the class `DisasterReportStore`, whose `storage` field is the map; its
    methods carry the calls out step by step and are proved equal to those
    transitions
  - two client methods that chain calls
  - the lemmas relating the calls

The caller principal (`ic.caller()`) and the generated identifier
(`uuidv4()`) are parameters. The generated identifier is required to have
the identifier shape, as that generator's output always has. It is not
required to be fresh: `Create` overwrites on a collision, as the code does.
`CreateThenLookup` states the growth of the map only under freshness.

On four points the code does less than one might expect, and the model
follows the code:

- Payload validation failures come back as `InvalidPayload`; there is no
  separate validation variant.
- `date` is only checked for blankness.
- `latitude` and `longitude` are never validated.
- The image validator is not run when an image is deleted.

## Model

| member | source | states |
|---|---|---|
| Text.IsJsSpace | src/dfinity_js_backend/src/index.ts:226 | the characters `trim` removes: ECMAScript white space and line terminators |
| Text.TrimStart | src/dfinity_js_backend/src/index.ts:226 | drops leading whitespace one character at a time |
| Text.TrimEnd | src/dfinity_js_backend/src/index.ts:226 | drops trailing whitespace one character at a time |
| Text.Trim | src/dfinity_js_backend/src/index.ts:226 | `str.trim()`: the result is no longer than the string and neither starts nor ends with whitespace |
| Text.TrimSpec | src/dfinity_js_backend/src/index.ts:226 | the trimmed string is the slice of the string that starts after its leading whitespace, and everything before and after that slice is whitespace |
| Text.IsInvalidString | src/dfinity_js_backend/src/index.ts:225-227 | `isInvalidString`: every character is whitespace, which TrimmedEmptyIffInvalid shows is the same as an empty trimmed string |
| Text.IsValidUuid | src/dfinity_js_backend/src/index.ts:230-233 | `isValidUuid`: length 36 and five hex groups of 8, 4, 4, 4 and 12 digits joined by dashes |
| Text.EmailOk | src/dfinity_js_backend/src/index.ts:267 | the language of the email pattern: a dotted word, one `@`, and a dotted-word domain ending in `.` and 2 or 3 word characters |
| Text.JoinWithCommas | src/dfinity_js_backend/src/index.ts:84 | an error array placed in a template string: its elements separated by commas, with no brackets or spaces |
| Text.TrimStartSpec | src/dfinity_js_backend/src/index.ts:226 | trimming the start keeps a suffix, drops only whitespace, and leaves no leading whitespace |
| Text.TrimEndSpec | src/dfinity_js_backend/src/index.ts:226 | trimming the end keeps a prefix, drops only whitespace, and leaves no trailing whitespace |
| Text.TrimmedEmptyIffInvalid | src/dfinity_js_backend/src/index.ts:225-227 | the trimmed string is empty exactly when every character is ECMAScript whitespace or a line terminator, which is the blank predicate used everywhere |
| Text.ValidUuidPositions | src/dfinity_js_backend/src/index.ts:230-233 | the identifier check holds exactly when the string has length 36, `-` at 8, 13, 18 and 23, and a hex digit of either case everywhere else |
| Text.ValidUuidIsNotBlank | src/dfinity_js_backend/src/index.ts:230-233 | a well-formed identifier is never blank |
| Text.EmailHasOneAt | src/dfinity_js_backend/src/index.ts:267 | an accepted address splits at its only `@` into a dotted word and a domain |
| Text.PlainEmailAccepted | src/dfinity_js_backend/src/index.ts:267 | `amy@example.com` is accepted |
| Text.EmailWithoutAtRejected | src/dfinity_js_backend/src/index.ts:267 | a string without `@` is rejected |
| Text.EmailWithoutTopLevelDomainRejected | src/dfinity_js_backend/src/index.ts:267 | `amy@example` is rejected, since the domain lacks a final group of 2 or 3 characters |
| Records.RemoveFirstMatch | src/dfinity_js_backend/src/index.ts:181-187 | `findIndex` then `splice(index, 1)`: None when no image matches the pair, otherwise the list without its first match |
| Records.SpreadDeterminedByContract | src/dfinity_js_backend/src/index.ts:118-121 | any record with the payload's fields and the existing id, owner and images equals the spread |
| Records.NewReportDeterminedByContract | src/dfinity_js_backend/src/index.ts:88 | any record with the new id, the caller, no images and the payload's fields equals the created record |
| Records.ReportDeterminedByParts | src/dfinity_js_backend/src/index.ts:30-46 | a report is determined by its identifier, owner, images and twelve payload fields |
| Records.NewReport | src/dfinity_js_backend/src/index.ts:88 | the created record has the given identifier, the caller as owner, no images, and every payload field copied |
| Records.Spread | src/dfinity_js_backend/src/index.ts:118-121 | the merged record carries the payload's twelve fields and keeps identifier, owner and images |
| Records.SpreadTwice | src/dfinity_js_backend/src/index.ts:118-121 | merging twice equals merging the second payload |
| Records.SpreadOwnPayload | src/dfinity_js_backend/src/index.ts:118-121 | merging a report's own fields changes nothing |
| Records.FindImageIndex | src/dfinity_js_backend/src/index.ts:181-182 | the result is -1 exactly when no image has both the timestamp and the address; otherwise it is the first such index |
| Records.RemoveAt | src/dfinity_js_backend/src/index.ts:187 | splicing one element keeps the elements before and after it in order; the multiset loses exactly that element |
| Records.RemoveFirstMatchSpec | src/dfinity_js_backend/src/index.ts:181-187 | deleting a pair fails exactly when no image carries it; otherwise the first carrier goes and the rest keep their order |
| Records.AppendThenRemove | src/dfinity_js_backend/src/index.ts:155 | pushing an image and then deleting its pair gives back the prior list, when the pair was absent |
| Records.AppendThenRemoveDuplicate | src/dfinity_js_backend/src/index.ts:155 | when the pair was already present, the round trip gives the prior list with its first carrier of the pair deleted, followed by the new image |
| Validation.BlankMessage | src/dfinity_js_backend/src/index.ts:272 | the message for a blank field: `name='value' cannot be empty.` |
| Validation.FormatMessage | src/dfinity_js_backend/src/index.ts:282 | the message for a malformed email: `email='value' is not in the valid format.` |
| Validation.Failures | src/dfinity_js_backend/src/index.ts:265-320 | the error list after running the first n checks in order, each failing check pushing its message |
| Validation.ReportChecks | src/dfinity_js_backend/src/index.ts:270-318 | the report validator's ten checks in source order: blank checks on nine fields, the email pattern on `email`, nothing on latitude or longitude |
| Validation.ImageChecks | src/dfinity_js_backend/src/index.ts:244-257 | the image validator's three blank checks in source order, the address being reported as `imageUrl` |
| Validation.ReportErrors | src/dfinity_js_backend/src/index.ts:264-321 | the error list of the report validator: the ordered failures of the ten checks |
| Validation.ImageErrors | src/dfinity_js_backend/src/index.ts:239-260 | the error list of the image validator: the ordered failures of the three checks |
| Validation.FailuresSound | src/dfinity_js_backend/src/index.ts:264-321 | there are no more messages than checks, and each message is the message of a failing check |
| Validation.FailuresComplete | src/dfinity_js_backend/src/index.ts:264-321 | every failing check contributes its message |
| Validation.FailuresEmptyIff | src/dfinity_js_backend/src/index.ts:264-321 | no error is collected exactly when every check passes |
| Validation.TenFailures | src/dfinity_js_backend/src/index.ts:264-321 | ten checks leave their flags in check order |
| Validation.ThreeFailures | src/dfinity_js_backend/src/index.ts:239-260 | three checks leave their flags in check order |
| Validation.ReportErrorsByField | src/dfinity_js_backend/src/index.ts:270-318 | the report errors are, in field order, one message for each blank field or a malformed email |
| Validation.ImageErrorsByField | src/dfinity_js_backend/src/index.ts:244-257 | the image errors are, in field order, one message for each blank field, with the address reported as `imageUrl` |
| Validation.ValidateDisasterReportPayload | src/dfinity_js_backend/src/index.ts:264-321 | the pushed error list equals the ordered failures of the ten report checks |
| Validation.ValidateDisasterImagesPayload | src/dfinity_js_backend/src/index.ts:239-260 | the pushed error list equals the ordered failures of the three image checks |
| Validation.ReportErrorsEmptyIff | src/dfinity_js_backend/src/index.ts:264-321 | no report error exactly when nine fields are non-blank and the email has the accepted shape |
| Validation.ReportErrorsAreFailingChecks | src/dfinity_js_backend/src/index.ts:264-321 | at most ten messages; a message is present exactly when it belongs to a failing check |
| Validation.BlankReporterNameReportedFirst | src/dfinity_js_backend/src/index.ts:271-273 | a blank reporter name yields the first message |
| Validation.BadEmailReported | src/dfinity_js_backend/src/index.ts:281-283 | a rejected email yields its format message |
| Validation.ReportErrorsIgnoreCoordinates | src/dfinity_js_backend/src/index.ts:264-321 | latitude and longitude never change the report errors |
| Validation.FilledReportAccepted | src/dfinity_js_backend/src/index.ts:264-321 | filled fields and a plain email address draw no error |
| Validation.EmptyReportFullyRejected | src/dfinity_js_backend/src/index.ts:264-321 | an all-empty payload draws all ten messages |
| Validation.ImageErrorsEmptyIff | src/dfinity_js_backend/src/index.ts:239-260 | no image error exactly when none of the three fields is blank |
| Validation.ImageErrorsBehindUuidCheck | src/dfinity_js_backend/src/index.ts:130-142 | once the identifier check passed, only timestamp and address can draw image errors |
| Store.IdFormatMessage | src/dfinity_js_backend/src/index.ts:68 | `id=<id> is not in the valid format.`, used by read and update |
| Store.PayloadIdFormatMessage | src/dfinity_js_backend/src/index.ts:132 | `payload.disasterId=<id> is not in the valid format.`, used by add and delete |
| Store.PayloadErrorsMessage | src/dfinity_js_backend/src/index.ts:84 | `Invalid payload. Errors=[<errors joined by commas>]`, used by create, update and add |
| Store.ReportNotFoundMessage | src/dfinity_js_backend/src/index.ts:73 | `disaster report with id=<id> not found`; update puts `cannot update report: ` before it |
| Store.DisasterNotFoundMessage | src/dfinity_js_backend/src/index.ts:148 | `Disaster with id=<id> not found`, used by add and delete |
| Store.ImageNotFoundMessage | src/dfinity_js_backend/src/index.ts:184 | `Image with timestamp=<t> and disasterImageUrl=<u> not found in disaster with id=<id>` |
| Store.Lookup | src/dfinity_js_backend/src/index.ts:66-76 | a malformed id gives InvalidPayload, an absent one NotFound, otherwise exactly the stored report |
| Store.Create | src/dfinity_js_backend/src/index.ts:79-92 | success exactly when the validator reports nothing; an error leaves the map unchanged with the joined messages; success stores the new record under the new id |
| Store.Update | src/dfinity_js_backend/src/index.ts:95-125 | the four errors in their precedence, each leaving the map unchanged; success exactly when all checks pass, writing the merged record under `id` only |
| Store.AddImage | src/dfinity_js_backend/src/index.ts:129-158 | the four errors in their precedence, each leaving the map unchanged; success appends the image to the owner's report |
| Store.DeleteImage | src/dfinity_js_backend/src/index.ts:162-190 | identifier, presence, ownership and match errors in that order, each leaving the map unchanged; success removes the first matching image |
| Store.CreateKeepsWellFormed | src/dfinity_js_backend/src/index.ts:88-90 | creation keeps every report under its own well-formed id |
| Store.UpdateKeepsWellFormed | src/dfinity_js_backend/src/index.ts:116-123 | an update keeps the map well formed |
| Store.AddImageKeepsWellFormed | src/dfinity_js_backend/src/index.ts:155-156 | adding keeps every stored image tied to its report and free of blank fields |
| Store.DeleteImageKeepsWellFormed | src/dfinity_js_backend/src/index.ts:187-188 | deleting keeps the map well formed |
| Store.CreateThenLookup | src/dfinity_js_backend/src/index.ts:88-91 | the created record reads back; other keys are untouched; keys grow by the new id, and the size by one when it was fresh |
| Store.UpdateThenLookup | src/dfinity_js_backend/src/index.ts:116-124 | the updated record reads back with the new payload and the old id, owner and images |
| Store.UpdateIdempotent | src/dfinity_js_backend/src/index.ts:95-125 | repeating a successful update returns the same record and map |
| Store.UpdateWithOwnPayload | src/dfinity_js_backend/src/index.ts:118-123 | updating with the report's own fields leaves the map as it was |
| Store.UpdateRespectsOwnership | src/dfinity_js_backend/src/index.ts:112-114 | no key appears or vanishes, no owner changes, and others' reports are untouched |
| Store.AddImageRespectsOwnership | src/dfinity_js_backend/src/index.ts:151-153 | no key appears or vanishes, no owner changes, and others' reports are untouched |
| Store.DeleteImageRespectsOwnership | src/dfinity_js_backend/src/index.ts:176-178 | no key appears or vanishes, no owner changes, and others' reports are untouched |
| Store.AddImageRejectsBlankFields | src/dfinity_js_backend/src/index.ts:137-142 | a blank id, timestamp or address gives InvalidPayload and no change |
| Store.AddImageTwice | src/dfinity_js_backend/src/index.ts:155 | the same image can be added twice and is then held twice |
| Store.AddThenDeleteRestores | src/dfinity_js_backend/src/index.ts:155-188 | add then delete of an absent pair returns the original report and the original map |
| Store.BlankPairNeverDeleted | src/dfinity_js_backend/src/index.ts:162-190 | although delete skips the image validator, a blank pair never matches in a well-formed map, so it fails without change |
| Store.DeleteRemovesOneImage | src/dfinity_js_backend/src/index.ts:181-187 | a deletion drops exactly one matching image |
| Store.ListValues | src/dfinity_js_backend/src/index.ts:62 | one value per key, read under distinct keys covering the map |
| Store.DisasterReportStore.constructor | src/dfinity_js_backend/src/index.ts:56 | the store starts empty and well formed |
| Store.DisasterReportStore.GetAllDisasterReports | src/dfinity_js_backend/src/index.ts:61-63 | as many reports as keys, each stored report present, each result stored under its own id, ids distinct |
| Store.DisasterReportStore.GetDisasterReportById | src/dfinity_js_backend/src/index.ts:66-76 | the result is the lookup in the current map, and nothing changes |
| Store.DisasterReportStore.CreateDisasterReport | src/dfinity_js_backend/src/index.ts:79-92 | result and new map are those of `Create`; the map stays well formed |
| Store.DisasterReportStore.UpdateDisasterReportById | src/dfinity_js_backend/src/index.ts:95-125 | result and new map are those of `Update`; the map stays well formed |
| Store.DisasterReportStore.AddDisasterImages | src/dfinity_js_backend/src/index.ts:129-158 | result and new map are those of `AddImage`; the map stays well formed |
| Store.DisasterReportStore.DeleteDisasterImageById | src/dfinity_js_backend/src/index.ts:162-190 | result and new map are those of `DeleteImage`; the map stays well formed |
| Store.CreateThenGet | src/dfinity_js_backend/src/index.ts:66-92 | creating then reading by the new id returns the created record, owned by the caller; on success the store is the old one with the new record under the new id, on failure it is unchanged |
| Store.AddThenDelete | src/dfinity_js_backend/src/index.ts:129-190 | on every path the store ends as it was; when the add succeeded the delete returns the original report, and when the add failed the delete fails too |

## Left out

- `getAddressFromPrincipal` (index.ts:196-198) calls a ledger library whose code is not part of this model.
- `hash` and `generateCorrelationId` (index.ts:203-214) depend on a hashing library and the clock, and nothing calls them.
- `discardByTimeout` (index.ts:217-222) sets an asynchronous timer that nothing starts.
- `uuidv4()` and `ic.caller()` are foreign calls. They are parameters of the operations.
- Store.DisasterReportStore.GetAllDisasterReports: says nothing about order. The stable map returns values in key order; the model returns them in an unspecified order.
- Stable-memory persistence and candid encoding are left out; the map is an ordinary field.
- Text.EmailOk recognizes the language of the email pattern; it does not model JavaScript's backtracking matcher. The pattern nests quantifiers (`\w+([\.-]?\w+)*`), so on a long run of word characters that does not complete a match, the matcher takes time exponential in the run's length. Such a payload can exhaust the call's instruction limit and trap, so `createDisasterReport` or `updateDisasterReportById` would return no result at all. The model returns `Err(InvalidPayload(…))` for it instead.
- Strings are sequences of Unicode scalar values, not UTF-16 code units. The whitespace, hex-digit, word and `@` checks only look at characters of the Basic Multilingual Plane, so they agree.
- Principals are compared through their text only, as the code does.
- The payload's object spread assumes the decoded payload has only its twelve declared fields.
- The frontend (React components and canister wrappers) is left out: it is UI and asynchronous glue.
- The validators push each message through one conditional append per field rather than an `if` statement per field. The two forms build the same list.
