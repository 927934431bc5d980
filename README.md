# Pet adoption prototype — Dafny model

This project models the client-side core of a small pet-adoption website.

- **Adoption form** (`form.ts`, with `form.js` its compiled twin): the field validators and the submit handler, which gathers error messages in a fixed order. It also covers:
  - the photo-input area (one to five file inputs named `photo_1` … `photo_5`);
  - the region/commune selects;
  - the delivery field, prefilled with "now + 3 h";
  - the confirm and success modals.
- **Shared data** (`data.ts`):
  - `pad2`, `toLocalDatetimeValue`, `fmtHuman` and the placeholder photos;
  - `getNoticeById` and `lastNNotices`;
  - the region catalog and the five demo notices.
- **Read-only pages**:
  - the home page's five latest notices (`index.ts`);
  - the full listing (`list.js`);
  - the notice detail page with its gallery (`notice.ts`).

Pure code is modelled as functions, with lemmas about them. Code that updates state is modelled as methods, proved against those functions. This code includes:
- the `errs.push` sequence;
- adding and removing photo inputs;
- refilling the commune options;
- the modals;
- appending table rows;
- the gallery loop.

`form.js` is the compiled output of `form.ts`: it has the same statements in the same order, reflowed, so the two are modelled once. Rows cite `form.ts`. The doc comments of the imperative members give both files' lines.

Modules:
- `Wrappers`: `Option`, and `x || ""` on an optional string.
- `JsStrings`:
  - JavaScript string behaviour: `trim` and `\s`, `String(n)`, `padStart`, `replace`, `indexOf`;
  - code-unit order for `<` and `>=`.
- `Validators`: `isEmailOk`, `isCellOk`, `isIntMin1`, `isDtLocalFormat`, `isAtLeastBaseline`.
- `FormValidation`: the submit handler as a list of checks, plus the imperative push-by-push pass.
- `MessageFacts`, `ValidationFacts`: lemmas about the submit handler.
- `FormWidgets`: photo area, selects, modals.
- `DeliveryPrefill`: the prefilled delivery field.
- `Data` and `DataFacts`: `data.ts`, and lemmas about its helpers and dataset.
- `Tables`: the quantity-type-age cell and the table body shared by the two table pages.
- `HomePage`, `ListPage`, `NoticePage`.

The delivery check `isDtLocalFormat` tests only the shape `DDDD-DD-DDTDD:DD`, so a calendar-invalid value such as `2025-13-40T99:99` passes; `Validators.DtLocalIgnoresCalendar` states this.

## Model

| member | source | states |
|---|---|---|
| `Validators.EmailOkIsRegex` | form.ts:110-113 | The character-level reading of `isEmailOk` holds exactly when the string has at most 100 characters and matches `^[^\s@]+@[^\s@]+\.[^\s@]+$`. |
| `Validators.IsEmailOk` | form.ts:110-113 | `isEmailOk`, read character by character: at most 100 characters, no white space, exactly one `@` and it is not first, and a `.` strictly inside the domain after it. `EmailOkIsRegex` proves this is the regular expression. |
| `Validators.EmailOkMatchesRegex` | form.ts:110-113 | Every string `isEmailOk` accepts is in the regular expression's language. |
| `Validators.RegexMatchesEmailOk` | form.ts:110-113 | Every string of the language with at most 100 characters is accepted. |
| `Validators.CellOkExactly` | form.ts:114-116 | `isCellOk` accepts exactly 13-character strings with `+` at 0, `.` at 4 and ASCII digits elsewhere (both directions). |
| `Validators.IsCellOk` | form.ts:114-116 | `isCellOk`: the text fits the template `+DDD.DDDDDDDD`. `CellOkExactly` states the positions. |
| `Validators.DtLocalExactly` | form.ts:121-123 | `isDtLocalFormat` accepts exactly four digits, `-`, two digits, `-`, two digits, `T`, two digits, `:`, two digits (both directions). |
| `Validators.IsDtLocalFormat` | form.ts:121-123 | `isDtLocalFormat`: the text fits the template `DDDD-DD-DDTDD:DD`. `DtLocalExactly` states the positions. |
| `Validators.DtLocalIgnoresCalendar` | form.ts:121-123 | The check is shape only: `2025-13-40T99:99` passes; a value with seconds, or with a blank for `T`, fails. |
| `Validators.IntMin1IsNumberTest` | form.ts:117-120 | `isIntMin1(v)` holds exactly when `Number(v)`, read on decimal numerals, is an integer of at least 1. |
| `Validators.IsIntMin1` | form.ts:117-120 | `isIntMin1`: the trimmed text, after an optional `+`, is digits of which one is not `0`, then optionally `.` and zeros. `IntMin1IsNumberTest` proves it equal to `Number.isInteger(Number(v)) && Number(v) >= 1`. |
| `Validators.UnsignedReads` | form.ts:117-120 | An unsigned decimal numeral passes exactly when it is not negative and its integer part is a whole number of at least 1 with a zero fraction. |
| `Validators.PositiveWholeReadsRun` | form.ts:117-120 | The numeral reading consumes the leading digit run, then an optional all-zero fraction. |
| `Validators.DecimalAtLeast1` | form.ts:117-120 | A digit string is worth at least 1 exactly when one of its digits is not `0`. |
| `Validators.PositiveWholeOfDigits` | form.ts:117-120 | On digits, the numeral reading holds exactly when the value is at least 1. |
| `Validators.IntMin1OnDigits` | form.ts:117-120 | On a non-empty digit string, `isIntMin1` holds exactly when its value is at least 1. |
| `Validators.IntMin1OfNumeral` | form.ts:117-120 | `isIntMin1(String(n))` holds exactly when n ≥ 1. |
| `Validators.IntMin1Signed` | form.ts:117-120 | A `-` numeral always fails; a leading `+` does not change the verdict. |
| `Validators.IntMin1Fraction` | form.ts:117-120 | `w.f` passes exactly when w ≥ 1 and the fraction is all zeros. |
| `Validators.IntMin1IgnoresBlanks` | form.ts:117-120 | White space around the text does not change the verdict, as `Number` ignores it. |
| `Validators.IntMin1Rejections` | form.ts:117-120 | `""`, `"0"`, `"-3"`, `"1.5"` and `"abc"` fail. |
| `Validators.IntMin1Acceptances` | form.ts:117-120 | `"2"`, `"1.0"` and `"+5"` pass. |
| `Validators.AtLeastBaselineIsTotalOrder` | form.ts:124-126 | String `>=` is reflexive, total, antisymmetric and transitive, and every string is `>= ""`. |
| `Validators.IsAtLeastBaseline` | form.ts:124-126 | `v >= baselineStr`: `v` is not below the baseline in code-unit order. `AtLeastBaselineIsTotalOrder` gives its order laws. |
| `JsStrings.TrimFacts` | form.ts:137 | `trim` returns a contiguous stretch of the text with only white space before and after it, and the result neither starts nor ends with white space. |
| `JsStrings.Trim` | form.ts:137 | `trim()`: `trimStart` then `trimEnd` removing ECMAScript white space and line terminators from both ends. `TrimFacts` characterises the result. |
| `JsStrings.TrimEmpty` | form.ts:161 | `trim` gives `""` exactly when the text is white space alone. |
| `JsStrings.TrimOfPadded` | form.ts:151 | `trim` removes exactly the blanks around a text that does not start or end with one. |
| `JsStrings.TrimOfBlankFree` | form.ts:151 | A text without white space is its own trim. |
| `JsStrings.NatToString` | data.ts:56 | `String(n)`: a non-empty digit string that reads back as n, with no leading zero. |
| `JsStrings.IntToString` | list.js:15 | `String(i)` for an integer: `-` before the numeral of `-i` when negative. `ListPage.PhotoCellReadsBack` reads it back. |
| `JsStrings.NatToStringLength` | data.ts:59 | A k-digit number has a k-character numeral. |
| `JsStrings.NatToStringAtLeast` | data.ts:59 | A number of at least 10^k has more than k characters. |
| `JsStrings.PadStart` | data.ts:56 | `padStart(target, fill)` puts `max(target - length, 0)` fill characters before the text. |
| `JsStrings.IndexOf` | data.ts:63 | The first position of the character, or -1 when it is absent. |
| `JsStrings.ReplaceFirst` | data.ts:63 | `replace` with one-character strings changes only the first occurrence. |
| `JsStrings.LexLessTransitive` | form.ts:125 | Code-unit string order is transitive. |
| `JsStrings.LexLessTotal` | form.ts:125 | Two different strings are always ordered one way or the other. |
| `JsStrings.LexLessAppend` | form.ts:125 | Comparing concatenations whose first parts have equal length compares the first parts first. |
| `JsStrings.DigitStringOrder` | form.ts:125 | On digit strings of one length, string order is numeric order. |
| `FormValidation.ChecksInOrder` | form.ts:131-163 | The sixteen checks are Location, Contact, Pet, Delivery and Photos in order, each once. |
| `FormValidation.MessageText` | form.ts:132-163 | The message each `errs.push` pushes, word for word. `MessageFacts.MessageTextInjective` shows no two checks share one. |
| `FormValidation.Fails` | form.ts:132-163 | The condition of each check's `if`. The `*Verdicts` lemmas state it block by block. |
| `FormValidation.Validate` | form.ts:128-164 | The error list: the messages of the failing checks, in the handler's order. `SubmitErrors` proves the handler pushes exactly this list, and `ValidationFacts.ValidateReports` and `ValidateEmptyIffAcceptable` give its meaning. |
| `FormValidation.SectionFollowsRank` | form.ts:131-163 | A later check never belongs to an earlier block. |
| `FormValidation.SelectedCountZero` | form.ts:161 | No file counts as selected exactly when every input's value trims to `""`. |
| `Wrappers.OrEmpty` | form.ts:153 | `x \|\| ""` on an optional string, used for `dataset.baseline \|\| ""` and for `q("id") \|\| ""` (notice.ts:72): the value when present, `""` when missing. |
| `FormValidation.LocationVerdicts` | form.ts:132-134 | Region and commune fail when empty; the sector fails above 100 characters and is not trimmed. |
| `FormValidation.ContactVerdicts` | form.ts:137-142 | Name, email and cell are trimmed before their checks; the contact id is checked only when a method is chosen. |
| `FormValidation.PetVerdicts` | form.ts:145-148 | Type and age unit must be chosen; amount and age go through `isIntMin1` untrimmed. |
| `FormValidation.DeliveryVerdicts` | form.ts:151-156 | The shape of the trimmed delivery is checked first; it is compared with the baseline only when the shape holds. |
| `FormValidation.PhotoVerdicts` | form.ts:159-163 | There must be at least one input and at least one selected file, and more than five inputs fail. |
| `FormValidation.FailedAmongMembers` | form.ts:129-163 | A check is reported exactly when it is in the list and fails. |
| `FormValidation.FailedAmongOrdered` | form.ts:129-163 | Reporting keeps the checks' own order. |
| `FormValidation.FailedAmongAppend` | form.ts:129-163 | Filtering two blocks one after the other filters their concatenation. |
| `FormValidation.FailedChecksBySection` | form.ts:129-163 | The failed checks are the Location failures, then Contact, Pet, Delivery and Photos. |
| `FormValidation.ValidateBySection` | form.ts:129-163 | The error list is the Location messages, then Contact, Pet, Delivery and Photos. |
| `FormValidation.RunCheck` | form.ts:132 | One `if (…) errs.push(…)`: the message is appended exactly when its check fails. |
| `FormValidation.CheckLocation` | form.ts:132-134 | The Location block appends the messages of its failing checks, in order. |
| `FormValidation.CheckContact` | form.ts:137-142 | The Contact block appends the messages of its failing checks, in order. |
| `FormValidation.CheckPet` | form.ts:145-148 | The Pet block appends the messages of its failing checks, in order. |
| `FormValidation.CheckDelivery` | form.ts:151-156 | The Delivery block appends the messages of its failing checks, in order. |
| `FormValidation.CheckPhotos` | form.ts:159-163 | The Photos block appends the messages of its failing checks, in order. |
| `FormValidation.SubmitErrors` | form.ts:128-164 | The pushed list equals the specification `Validate` of the snapshot and the baseline attribute. |
| `MessageFacts.MessageShape` | form.ts:132-163 | Each message is recognised by its length and first character. |
| `MessageFacts.MessageTextInjective` | form.ts:132-163 | Different checks push different messages. |
| `ValidationFacts.FailedChecksExactly` | form.ts:129-163 | A check is among the failed ones exactly when it fails. |
| `ValidationFacts.FailedChecksInOrder` | form.ts:129-163 | The failed checks come in the handler's order, each at most once. |
| `ValidationFacts.TextsHoldMessage` | form.ts:129-163 | The message of a listed check is among the list's messages. |
| `ValidationFacts.TextsOnlyMessages` | form.ts:129-163 | A message among the list's messages belongs to a listed check. |
| `ValidationFacts.ValidateReports` | form.ts:129-163 | One message per failed check; a check's message is reported exactly when the check fails. |
| `ValidationFacts.ValidateNoRepeats` | form.ts:129-163 | No message is reported twice. |
| `ValidationFacts.DeliveryFailsAtMostOnce` | form.ts:151-156 | At most one of the two delivery checks fails. |
| `ValidationFacts.PhotosFailAtMostTwice` | form.ts:159-163 | At most two photo checks fail together. |
| `ValidationFacts.FailedChecksExclusive` | form.ts:151-163 | Shape and order of the delivery never both fail; "no input" and "too many" never both fail. |
| `ValidationFacts.FailedChecksAtMost14` | form.ts:129-163 | At most 14 of the 16 messages are reported at once. |
| `ValidationFacts.LocationPasses` | form.ts:132-134 | The Location block reports nothing exactly when its fields are acceptable. |
| `ValidationFacts.ContactPasses` | form.ts:137-142 | The Contact block reports nothing exactly when its fields are acceptable. |
| `ValidationFacts.PetPasses` | form.ts:145-148 | The Pet block reports nothing exactly when its fields are acceptable. |
| `ValidationFacts.DeliveryPasses` | form.ts:151-156 | The Delivery block reports nothing exactly when the delivery has the shape and is at least the baseline. |
| `ValidationFacts.PhotosPass` | form.ts:159-163 | The Photos block reports nothing exactly when there are 1 to 5 inputs and one holds a file. |
| `ValidationFacts.ValidateEmptyIffAcceptable` | form.ts:165-168 | The error list is empty, and the confirm modal opens, exactly when every field is acceptable. |
| `ValidationFacts.OnlyLocationMissing` | form.ts:132-134 | With only region and commune missing, exactly those two checks fail. |
| `ValidationFacts.OnlyLocationMessages` | form.ts:132-133 | In that case the list is the region message, then the commune message. |
| `ValidationFacts.NoPhotoInputsFailBoth` | form.ts:160-162 | With no input, both "at least one input" and "select a file" are reported. |
| `ValidationFacts.EmptyPhotoInputsFailSelection` | form.ts:161-162 | With 1 to 5 inputs that are all empty, only "select a file" is reported. |
| `ValidationFacts.DeliveryAtBaselineAccepted` | form.ts:151-156 | A well-formed delivery equal to the baseline passes both delivery checks. |
| `ValidationFacts.MalformedDeliveryReportedOnce` | form.ts:152-154 | A malformed delivery gets the shape message alone; the order check is skipped. |
| `ValidationFacts.EarlyDeliveryReported` | form.ts:154-156 | A well-formed delivery before the baseline gets the order message alone. |
| `ValidationFacts.FailedAmongSameVerdicts` | form.ts:129-163 | A change that no check of a block notices leaves that block's report unchanged. |
| `ValidationFacts.DeliveryBlanksIgnored` | form.ts:151 | Blanks typed around the delivery change no verdict. |
| `ValidationFacts.IgnoresDelivery` | form.ts:129-163 | Only the two delivery checks read the delivery. |
| `ValidationFacts.OtherSectionsIgnoreDelivery` | form.ts:129-163 | Changing the delivery leaves the Location, Contact, Pet and Photos reports unchanged. |
| `ValidationFacts.AmountBlanksIgnored` | form.ts:146 | The amount is not trimmed, but blanks around it change no verdict, because `Number` ignores them. |
| `ValidationFacts.SectorNotTrimmed` | form.ts:134 | The sector is measured untrimmed: any 101-character sector, blanks included, is reported as too long. |
| `FormWidgets.SlotName` | form.ts:79 | `photo_${k}` starts with `photo_` and has a numeral after it. |
| `FormWidgets.SlotNameInjective` | form.ts:79 | Different positions get different names. |
| `FormWidgets.AddSlotKeepsNames` | form.ts:74-82 | Adding keeps the inputs named `photo_1`…`photo_n`. It grows the list by one below five and does nothing at five. |
| `FormWidgets.AddSlot` | form.ts:74-82 | `addPhotoInput` on the list of inputs: below five, append an empty input named after the new count; at five, no change. `AddSlotKeepsNames` states the result. |
| `FormWidgets.RemoveSlot` | form.ts:83-86 | `removeLastPhotoInput` on the list of inputs: drop the last input when there is one. `RemoveSlotKeepsNames` states the result. |
| `FormWidgets.RemoveSlotKeepsNames` | form.ts:83-86 | Removing keeps the names. It shrinks the list by one above zero and does nothing at zero. |
| `FormWidgets.AddThenRemoveRestores` | form.ts:74-86 | Adding below five and then removing restores the list. |
| `FormWidgets.RemoveThenAddClears` | form.ts:74-86 | Removing the last input and adding one back gives the same names with the last choice cleared. |
| `FormWidgets.Values` | form.ts:159 | The values the submit handler reads, one per input in document order. |
| `FormWidgets.PhotoArea.constructor` | form.ts:87 | At load the area holds one empty input `photo_1`. |
| `FormWidgets.PhotoArea.AddPhotoInput` | form.ts:74-82 | `addPhotoInput` changes the inputs as `AddSlot` says and keeps the area well named. |
| `FormWidgets.PhotoArea.RemoveLastPhotoInput` | form.ts:83-86 | `removeLastPhotoInput` changes the inputs as `RemoveSlot` says and keeps the area well named. |
| `FormWidgets.PhotoArea.ClickAddPhoto` | form.ts:88-94 | The button alerts exactly when five inputs exist, and otherwise adds one. |
| `FormWidgets.PhotoArea.ChooseFile` | form.ts:159-161 | Choosing a file changes that input's value only. |
| `FormWidgets.WellNamedNeverTooMany` | form.ts:163 | However the buttons are used, "Maximum of 5 photos." is never reported. |
| `FormWidgets.NoInputsLeft` | form.ts:160-162 | Removing every input makes the submit report "at least one input" and "select a file". |
| `FormWidgets.RegionNames` | form.ts:40-44 | The names of the catalog's regions, in order. |
| `FormWidgets.RegionSelect.Populate` | form.ts:40-44 | One option per region, in catalog order, appended to the select. |
| `FormWidgets.CommuneSelect.OnRegionChange` | form.ts:46-59 | A known region sets the options to exactly its communes, in order, and enables the select. An unknown region clears the options and disables it. |
| `FormWidgets.CatalogNamed` | data.ts:36-53 | Every region of the catalog has a non-empty name. |
| `FormWidgets.NamedFindsNoEmpty` | form.ts:48 | In a catalog without empty names, `""` finds no region. |
| `FormWidgets.EmptyRegionFindsNothing` | form.ts:46-58 | Clearing the region select disables the commune select, since `""` names no region. |
| `FormWidgets.Modals.constructor` | form.ts:34-37 | Both modals start closed. |
| `FormWidgets.Modals.Submit` | form.ts:128-169 | The submit reports `Validate`'s list. It opens the confirm modal when the list is empty and leaves the success modal alone. |
| `FormWidgets.Modals.ConfirmYes` | form.ts:171-174 | "Yes" closes the confirm modal and opens the success modal. |
| `FormWidgets.Modals.ConfirmNo` | form.ts:175-177 | "No" closes the confirm modal only. |
| `FormWidgets.Modals.KeyDown` | form.ts:180-185 | Escape closes both modals; any other key changes nothing. |
| `DeliveryPrefill.DeliveryInput.constructor` | form.ts:23 | The delivery input starts empty, without a baseline. |
| `DeliveryPrefill.DeliveryInput.Prefill` | form.ts:66-71 | The value becomes `toLocalDatetimeValue(now + 3 h)` and the baseline attribute becomes that same value. |
| `DeliveryPrefill.PrefillLength` | data.ts:58-60 | With two-digit fields, the value is the year's numeral plus twelve characters. |
| `DeliveryPrefill.PrefillShapeNeedsFourDigitYear` | data.ts:58-60 | With fields below 100, the prefilled value has the form's shape exactly when the year has four digits. |
| `DeliveryPrefill.PrefilledDeliveryAccepted` | form.ts:66-71 | An untouched prefilled delivery passes both delivery checks against its own baseline. |
| `Data.LeadingZerosValue` | data.ts:56 | Leading zeros keep a digit string's value. |
| `Data.Pad2` | data.ts:56 | `pad2(n)` has at least two digits and reads back as n. It is zeros followed by `String(n)`, so nothing is cut off. |
| `DataFacts.Pad2Small` | data.ts:56 | Below 10, `pad2` gives `0` and the digit. |
| `DataFacts.Pad2Large` | data.ts:56 | From 10 on, `pad2` is `String(n)`. |
| `DataFacts.Pad2TwoDigits` | data.ts:56 | Below 100, `pad2` gives exactly two characters. |
| `DataFacts.DtLocalOfParts` | data.ts:58-60 | A four-digit year and four two-digit fields, joined by `-`, `-`, `T`, `:`, pass `isDtLocalFormat`. |
| `Data.ToLocalDatetimeValue` | data.ts:58-60 | `YYYY-MM-DDTHH:mm` from the date's fields, with `getMonth() + 1` and `pad2` on the four two-digit parts. `DataFacts.ToLocalDatetimeValueShape` and `DeliveryPrefill.PrefillShapeNeedsFourDigitYear` state when it has the form's shape. |
| `DataFacts.ToLocalDatetimeValueShape` | data.ts:58-60 | For a four-digit year, `toLocalDatetimeValue` yields a value `isDtLocalFormat` accepts. |
| `DataFacts.DtLocalHasNoBlanks` | form.ts:151 | A delivery-shaped value has no white space, so trimming keeps it. |
| `Data.FmtHuman` | data.ts:62-64 | The result has the same length as the input. Only the first `T` becomes a blank; every other character is kept. |
| `DataFacts.FmtHumanWithoutT` | data.ts:62-64 | A text without `T` is unchanged. |
| `DataFacts.FmtHumanFirstT` | data.ts:62-64 | Everything before and after the first `T` is kept. |
| `DataFacts.FmtHumanOfDtLocal` | data.ts:62-64 | On a delivery-shaped value, the result is the date, a blank and the time. |
| `Data.PhotoSmall` | data.ts:75-77 | A 320×240 placeholder captioned with the upper-cased type and `320x240`, moccasin for cats, light blue for dogs. |
| `Data.PhotoLarge` | data.ts:79-81 | An 800×600 placeholder captioned with the upper-cased type and `800x600`, peach puff for cats, powder blue for dogs. |
| `Data.FindIndex` | data.ts:178-180 | The first position whose element satisfies the test, or -1 when none does. |
| `Data.FindById` | data.ts:178-180 | A found notice is in the list and has the id. Nothing is found exactly when no notice has the id. |
| `Data.GetNoticeById` | data.ts:178-180 | `NOTICES.find(n => n.id === id)`. `Data.FindById` gives its contract, and `DataFacts.GetNoticeByIdFindsEach` and `GetNoticeByEmptyId` apply it to the stored notices. |
| `Data.FindRegion` | form.ts:48 | A found region is in the catalog and has the name. Nothing is found exactly when no region has it. |
| `Data.InsertByPublishedPermutes` | data.ts:182-184 | Inserting adds the notice and loses nothing. |
| `Data.InsertByPublishedSorted` | data.ts:182-184 | Inserting into a list sorted latest first keeps it sorted. |
| `Data.SortByPublishedDescFacts` | data.ts:182-184 | The sort orders latest first and is a permutation of the notices. |
| `Data.LastN` | data.ts:182-184 | `min(n, length)` notices. |
| `Data.LastNNotices` | data.ts:182-184 | `lastNNotices(n)`: the first n of the stored notices sorted latest first. `Data.LastNFacts`, `LastNKeepsLatest` and `DataFacts.LastFiveNotices` state it. |
| `Data.LastNFacts` | data.ts:182-184 | The result is sorted latest first, is a sub-multiset of the notices, and every element is drawn from them. |
| `Data.LastNKeepsLatest` | data.ts:182-184 | No notice left out is later than one that is kept. |
| `DataFacts.DtLocalByPositions` | data.ts:17-18 | Sixteen characters with digits except `-`, `-`, `T`, `:` at 4, 7, 10 and 13 have the delivery shape. |
| `DataFacts.CellByPositions` | data.ts:28 | Thirteen characters with `+` at 0, `.` at 4 and digits elsewhere have the phone shape. |
| `DataFacts.NoticeFieldShapes` | data.ts:84-175 | Every stored `publishedAt` and `deliveryAt` is `YYYY-MM-DDTHH:mm` and every phone is `+NNN.NNNNNNNN`, as the field comments say. |
| `DataFacts.StoredNoticeShaped` | data.ts:84-175 | Any stored notice has those shapes. |
| `DataFacts.NoticesStoredOldestFirst` | data.ts:84-175 | Each stored notice is published before the next one. |
| `DataFacts.Ids` | data.ts:84-175 | The ids of a list of notices, in order. |
| `DataFacts.NoticeIds` | data.ts:84-175 | The ids are n1 … n5: pairwise distinct and non-empty. |
| `DataFacts.FindByIdFindsEach` | data.ts:178-180 | With distinct ids, looking up a notice's id finds that notice. |
| `DataFacts.GetNoticeByIdFindsEach` | data.ts:178-180 | `getNoticeById` finds each stored notice by its id. |
| `DataFacts.GetNoticeByEmptyId` | data.ts:178-180 | `getNoticeById("")` finds nothing. |
| `DataFacts.InsertEarliest` | data.ts:182-184 | A notice earlier than every notice of the list is inserted last. |
| `DataFacts.SortAscendingReverses` | data.ts:182-184 | Notices stored strictly ascending sort into reverse order. |
| `DataFacts.SortFiveAscending` | data.ts:182-184 | Five notices published one after another sort into reverse order. |
| `DataFacts.LastFiveNotices` | data.ts:182-184 | `lastNNotices(5)` is notices 5, 4, 3, 2 and 1. |
| `DataFacts.LastFiveNoticeIds` | data.ts:182-184 | By id, `lastNNotices(5)` is n5, n4, n3, n2, n1. |
| `Tables.QtyTypeAge` | index.ts:7 | `amount type age ageUnit` separated by blanks, at least nine characters. |
| `Tables.QtyTypeAgeInjective` | list.js:6 | The cell loses nothing: equal cells come from equal amount, type, age and unit. |
| `Tables.TableBody.constructor` | index.ts:3 | The table body starts empty. |
| `Tables.TableBody.Append` | index.ts:20 | `appendChild` adds the row at the end. |
| `HomePage.InventedFile` | index.ts:8 | The made-up file name ends in `_photo.jpg`. |
| `HomePage.InventedFileNamesType` | index.ts:8 | The file is named after the pet type: `cat_photo.jpg` or `dog_photo.jpg`. |
| `HomePage.RecentRow` | index.ts:10-16 | Five cells: publication date, commune, sector, quantity type age, invented file. |
| `HomePage.RecentRows` | index.ts:5-21 | One `RecentRow` per notice, in the notices' order. |
| `HomePage.RecentRowsSnoc` | index.ts:5-21 | One more notice adds one more row at the end. |
| `HomePage.AppendRecentRows` | index.ts:5-21 | The `forEach` appends each notice's row in order. |
| `HomePage.ShowRecent` | index.ts:1-22 | The page appends exactly the rows of `lastNNotices(5)`, in that order. |
| `HomePage.RecentDateCells` | index.ts:11 | Each date cell is the timestamp with a blank in place of the `T`. |
| `HomePage.RecentRowsFacts` | index.ts:2 | At most five rows, latest first, each from a stored notice, each date cell the stored timestamp with a blank for the `T`. |
| `ListPage.ListingRow` | list.js:8-16 | Seven cells: publication, delivery, commune, sector, quantity type age, contact name, photo count. |
| `ListPage.ListingRows` | list.js:4-21 | One `ListingRow` per notice, in the notices' order. |
| `ListPage.ListingRowsSnoc` | list.js:4-21 | One more notice adds one more row at the end. |
| `ListPage.AppendListingRows` | list.js:4-21 | The `forEach` appends each notice's row, in stored order. |
| `ListPage.ShowListing` | list.js:2-22 | The page appends one row per stored notice, in stored order. |
| `ListPage.PhotoCellReadsBack` | list.js:7 | The photo column reads back as `photos.count`. |
| `ListPage.ListingDateCells` | list.js:9-10 | Both date cells are the timestamps with a blank in place of the `T`. |
| `ListPage.ListingRowsFacts` | list.js:4-16 | Five rows, and each row's dates are the stored notice's timestamps with a blank for the `T`. |
| `NoticePage.DetailRows` | notice.ts:24-35 | Eleven rows, keyed in the fixed order publication … description. |
| `NoticePage.Gallery` | notice.ts:39-52 | `max(photos.count, 0)` thumbnails, each with `photoSmall(kind)` and `photoLarge(kind)`. |
| `NoticePage.Render` | notice.ts:21-69 | The heading is `Notice #id`, followed by the eleven rows, the photo title and the gallery. |
| `NoticePage.Load` | notice.ts:71-79 | The not-found content is shown exactly when no notice has the id. Otherwise the found notice is rendered: heading `Notice #id`, its eleven rows, the photo title, and `max(photos.count, 0)` thumbnails of `photoSmall(kind)` and `photoLarge(kind)`. |
| `NoticePage.MissingIdNotFound` | notice.ts:72-77 | A missing or empty `id` shows the not-found content. |
| `NoticePage.StoredIdFound` | notice.ts:72-73 | The id of a stored notice shows that notice. |
| `NoticePage.PreferredMethodShown` | notice.ts:34 | `—` exactly when there is no contact method; otherwise `method value` (with `""` for a missing value). |
| `NoticePage.PreferredMethod` | notice.ts:34 | The preferred-contact cell: the method's name, a blank and its value (`""` when missing), or `—` without a method. `PreferredMethodShown` states it both ways. |
| `NoticePage.DescriptionShown` | notice.ts:35 | Never empty: the description when there is one, `—` otherwise. |
| `NoticePage.DescriptionText` | notice.ts:35 | `notice.description \|\| "—"`. `DescriptionShown` states it. |
| `NoticePage.DetailDates` | notice.ts:24-25 | Both date rows show the timestamp with a blank in place of the `T`. |
| `NoticePage.ImageModal.constructor` | notice.ts:10-11 | The image modal starts closed. |
| `NoticePage.ImageModal.ClickThumb` | notice.ts:47-50 | A thumbnail click shows its large image and opens the modal. |
| `NoticePage.ImageModal.Close` | notice.ts:81 | The close button closes the modal. |
| `NoticePage.ImageModal.KeyDown` | notice.ts:82-84 | Escape closes the modal; other keys change nothing. |

## Left out

- DOM wiring and presentation are not modelled: `el()`, element lookup, `innerHTML` markup, CSS classes beyond the modal flags, `showErrors` rendering, `scrollTo` and `alert`'s dialog. `ClickAddPhoto` returns whether the alert would be raised.
- The contact-id field's show/hide toggle (form.ts:61-63) is presentation only.
- The clock is a parameter. `DeliveryInput.Prefill` takes the local date and time of "now + 3 h" as calendar fields; `Date` arithmetic and time zones are not modelled.
- `Validators.IntMin1IsNumberTest`: `Number()` is modelled for decimal numerals with optional sign, fraction and surrounding white space. Hexadecimal, binary and octal forms, exponents, `Infinity`, floating-point rounding and overflow are not modelled, because they are float semantics outside the form's intended input.
- `Data.SortByPublishedDesc`: `localeCompare` is modelled as code-unit order, which agrees with locale collation on the fixed zero-padded timestamp format. The sort is modelled as a stable insertion sort, since the engine's sort algorithm is not visible.
- `Data.LastN`: `n` is a natural number. A negative `n`, for which `slice(0, n)` drops elements from the end, is not modelled; the code only ever passes 5.
- Strings are sequences of Unicode scalar values, while JavaScript uses UTF-16 code units. Lengths and `<` agree only on text within the Basic Multilingual Plane, which covers every literal in the source.
- `Data.PhotoSmall` and `Data.PhotoLarge` return the picture's parts (caption, size, fill) rather than the `data:` URL that `svgDataUrl` builds; URL encoding is not modelled.
- `URLSearchParams` and `location` (notice.ts:4-7) are browser I/O: `NoticePage.Load` takes the `id` parameter's value as an argument.
- The notice fields `amount` and `age` (datatype `Data.Notice`) are natural numbers, while `data.ts` types them `number`. The stored notices hold small positive integers, and the helpers that render the two fields are stated for naturals. `photos.count` stays an integer and is rendered with `String` for negative values too.
- Navigation on row clicks (index.ts:17-19, list.js:17-19) and the back/home links are browser I/O and are left out.
- `FormWidgets.RegionSelect.Populate` and `FormWidgets.CommuneSelect.OnRegionChange` take the region catalog as a parameter. The code reads the `REGIONS` constant, which is what callers pass.
- `NoticePage.Load` returns what `content` shows rather than updating a page object, because nothing else on the page reads it back.
