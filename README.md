# Skill Sprint registration funnel — Dafny model

This project models the logic of the Skill Sprint hackathon site's registration
funnel and its two click-toggle widgets:

- **Registration form** (`RegistrationForm`). It holds the `formData` state and
  the two change handlers. `handleSubmit` checks the four required fields, reads
  the team size with `parseInt` on the digits of the size string, enforces the
  2–4 range and counts the non-blank member names. It then builds the
  `team_members` list ("Member 1".."Member n"), sends one insert and navigates
  to `/payment` with the returned id.
- **Payment page** (`PaymentPage`) and its near-twin **upload widget**
  (`PaymentUpload`). They check the picked screenshot file (an `image/` MIME
  type, at most 5 MiB) and build the storage key from the registration id, a
  timestamp and the file's extension. The upload runs first; the record update
  runs only after it succeeds, and the success flag is set only after both.
  `Screenshot` holds the rules the two components share.
- **FAQ accordion** (`FaqSection`) and **track selection** (`Tracks`). Each is a
  single nullable selection that a click toggles.

The hosted store and object storage are abstract (`Backend.Store`). What the
network answers is a method parameter, and so is every clock reading. The store
logs each request it receives, so "no request was made" is a statement about
that log. `JsText` writes out the JavaScript built-ins the code depends on:
`trim`, `replace(/[^\d]/g, '')`, `parseInt` on a digit string, decimal
rendering in template literals, `split('.').pop()` and `startsWith`.

Where the intended behaviour and the code differ, the model follows the code:
- A rejected file leaves the previous selection in place rather than clearing it.
- A required field holding only whitespace passes the required-field check, because `!x` is false for any non-empty string.
- Member slots hidden after the team size shrinks keep their text and still count as members.

## Model

| member | source | states |
|---|---|---|
| `JsText.LeadingWhitespace` | src/components/RegistrationForm.tsx:51 | the leading run of whitespace: every character before the index is whitespace, the one at it is not |
| `JsText.TrailingWhitespace` | src/components/RegistrationForm.tsx:51 | the trailing run of whitespace: every character from the index on is whitespace, the one before it is not |
| `JsText.Trim` | src/components/RegistrationForm.tsx:51 | the result is the infix of the name that starts after its leading whitespace, with only whitespace outside it; it is empty exactly when the name is all whitespace, and otherwise starts and ends with non-whitespace |
| `JsText.BlankIffTrimmedEmpty` | src/components/RegistrationForm.tsx:51 | `member.trim() !== ''` fails exactly when the name is all whitespace, which is how `IsBlank` states it |
| `JsText.AsciiDigits` | src/components/RegistrationForm.tsx:54 | keeps only ASCII digits; a digit string is left unchanged; the result is empty iff the input has no digit (with `AsciiDigitsConcat`, this fixes the result as the digits in their order) |
| `JsText.AsciiDigitsConcat` | src/components/RegistrationForm.tsx:54 | removing non-digits distributes over concatenation, so the digits come out in the order they were typed |
| `JsText.ParseDigits` | src/components/RegistrationForm.tsx:54 | `parseInt` of the digit string is NaN exactly when there are no digits; `ParseRendered` fixes the number it gives |
| `JsText.NatToDecimal` | src/components/PaymentPage.tsx:90 | a rendered number is a non-empty digit string with no leading zero |
| `JsText.DecimalRoundTrip` | src/components/PaymentPage.tsx:90 | reading a rendered number back gives the number |
| `JsText.ParseRendered` | src/components/RegistrationForm.tsx:54 | `parseInt` of any rendered non-negative number gives that number back |
| `JsText.NatToDecimalInjective` | src/components/PaymentPage.tsx:88-90 | different timestamps render differently |
| `JsText.LastSegment` | src/components/PaymentPage.tsx:89 | `split('.').pop()` is the longest dot-free suffix: the whole name if it has no dot, else the text after the last dot |
| `JsText.LastSegmentAfterDot` | src/components/PaymentPage.tsx:89 | the text after the final dot is what `pop()` returns |
| `JsText.LastSegmentWithoutDot` | src/components/PaymentPage.tsx:89 | a name without a dot is returned whole |
| `JsText.FirstDotSplit` | src/components/PaymentPage.tsx:90 | `digits.ext` splits uniquely at its first dot |
| `Backend.InsertAnswer` | src/components/RegistrationForm.tsx:77-103 | the insert returns the row's id only when the store accepted it; otherwise an error or no data |
| `Backend.UploadAnswer` | src/components/PaymentPage.tsx:94-104 | an upload with `upsert: false` succeeds only if the network succeeded and the key was free |
| `Backend.WithScreenshot` | src/components/PaymentPage.tsx:112-115 | `update(...).eq('id', id)` changes only that row's `payment_screenshot` and nothing else |
| `Backend.WithScreenshotKeepsWellFormed` | src/components/PaymentPage.tsx:112-115 | attaching a screenshot keeps every registration well-formed |
| `Backend.Store.constructor` | src/lib/supabase-types.ts:12-30 | a store starts from given rows and objects, with no requests logged |
| `Backend.Store.Insert` | src/components/RegistrationForm.tsx:77-94 | logs the insert; adds the row under the returned id only when the answer is an id |
| `Backend.Store.Upload` | src/components/PaymentPage.tsx:94-99 | logs the upload; stores the file only when the answer is success |
| `Backend.Store.UpdateScreenshot` | src/components/PaymentPage.tsx:112-115 | logs the update; changes the row's screenshot only on success |
| `RegistrationForm.RegistrationPage.constructor` | src/components/RegistrationForm.tsx:10-22 | empty text fields, team size "2", three empty member slots, not loading, no navigation |
| `RegistrationForm.WithField` | src/components/RegistrationForm.tsx:24-30 | only the named field takes the new value; members and the other fields are unchanged |
| `RegistrationForm.RegistrationPage.HandleInputChange` | src/components/RegistrationForm.tsx:24-30 | the form becomes `WithField` of the old form |
| `RegistrationForm.WithMember` | src/components/RegistrationForm.tsx:32-37 | keeps the slot count; changes only slot `index`, and nothing when the index is out of range |
| `RegistrationForm.RegistrationPage.HandleMemberChange` | src/components/RegistrationForm.tsx:32-37 | only `teamMembers` changes, as `WithMember` says |
| `RegistrationForm.ActiveMembers` | src/components/RegistrationForm.tsx:51 | the filter never yields more names than there are slots |
| `RegistrationForm.ActiveMembersExactly` | src/components/RegistrationForm.tsx:51 | a name is active iff it is in a slot and not blank after trimming |
| `RegistrationForm.ActiveMembersConcat` | src/components/RegistrationForm.tsx:51 | the filter keeps slot order (it distributes over concatenation) |
| `RegistrationForm.MemberLabelsDistinct` | src/components/RegistrationForm.tsx:73 | no two members get the same "Member k" label |
| `RegistrationForm.MemberLabel` | src/components/RegistrationForm.tsx:73 | the position label `Member k`; `MemberLabelsDistinct` shows that no two members share one |
| `RegistrationForm.TeamMembersPayload` | src/components/RegistrationForm.tsx:71-74 | `count` entries: entry k is the k-th name trimmed with label "Member k+1" |
| `RegistrationForm.TrimKeepsNonBlank` | src/components/RegistrationForm.tsx:72 | trimming a non-blank name leaves it non-blank |
| `RegistrationForm.PayloadKeepsNonBlank` | src/components/RegistrationForm.tsx:71-74 | a member name that is not blank before trimming is not blank in the payload |
| `RegistrationForm.HasRequiredFields` | src/components/RegistrationForm.tsx:45 | `!x` rejects only the empty string, so a whitespace-only required field passes |
| `RegistrationForm.ParsedTeamSize` | src/components/RegistrationForm.tsx:54 | the parsed size is NaN exactly when the size text has no ASCII digit, and otherwise a non-negative integer |
| `RegistrationForm.Validate` | src/components/RegistrationForm.tsx:44-74 | accepted iff all four required fields are non-empty, the parsed size is in 2..4 and at least size−1 names are non-blank; a missing field wins over a bad size, which wins over too few members; the accepted size is the parsed one |
| `RegistrationForm.ValidatedMembers` | src/components/RegistrationForm.tsx:62-74 | the member list has exactly size−1 entries: the first non-blank names, trimmed, labelled "Member 1".., with later names dropped |
| `RegistrationForm.InsertedRowWellFormed` | src/components/RegistrationForm.tsx:79-92 | the inserted row is well-formed (size 2..4, size−1 named members, `name` = `team_leader_name` = the form's leader) and has no screenshot |
| `RegistrationForm.InsertRow` | src/components/RegistrationForm.tsx:79-92 | the inserted row: the form's fields, `name` set to the leader's name, the checked size and members, the submission time and no screenshot; `InsertedRowWellFormed` gives its invariants |
| `RegistrationForm.Submission` | src/components/RegistrationForm.tsx:96-115 | invalid iff validation fails; navigates iff validation passes and the store returned an id, carrying that id, team name, leader name and email |
| `RegistrationForm.RegistrationPage.HandleSubmit` | src/components/RegistrationForm.tsx:39-123 | no insert request on a validation failure; exactly one insert request otherwise; navigation only after a returned row; `isLoading` false on every path |
| `RegistrationForm.JsLess` | src/components/RegistrationForm.tsx:56 | `n < b` on a JavaScript number: false when `n` is NaN |
| `RegistrationForm.JsGreater` | src/components/RegistrationForm.tsx:56 | `n > b` on a JavaScript number: false when `n` is NaN |
| `RegistrationForm.SliceEnd` | src/components/RegistrationForm.tsx:71 | the end index `slice(0, end)` uses: NaN reads as 0, a negative end counts from the back, and the result never exceeds the list length |
| `RegistrationForm.CheckAsWritten` | src/components/RegistrationForm.tsx:45-74 | the checks as written: a numeric size that passes is in 2..4 with size−1 members, but a NaN size is not excluded |
| `RegistrationForm.NoDigitTeamSizeGetsThrough` | src/components/RegistrationForm.tsx:54-74 | as written, a size with no ASCII digit passes with a NaN size and no members; the corrected check rejects it |
| `RegistrationForm.AsWrittenAgreesWhenSizeHasDigit` | src/components/RegistrationForm.tsx:54-74 | when the size string has a digit, the as-written and corrected checks agree on verdict, error and payload |
| `RegistrationExample.ThreePersonTeamExample` | src/components/RegistrationForm.tsx:50-74 | size "3" with two plainly typed names and an empty third slot is accepted, the names becoming "Member 1" and "Member 2" |
| `Screenshot.CheckFile` | src/components/PaymentPage.tsx:59-76 | a file is accepted iff its type starts with "image/" and its size is at most 5242880 bytes; the type is checked before the size |
| `Screenshot.AfterPick` | src/components/PaymentPage.tsx:59-76 | the selection changes to the picked file only when the file is accepted |
| `Screenshot.Extension` | src/components/PaymentPage.tsx:89 | the extension is never empty and never contains a dot |
| `Screenshot.ExtensionCases` | src/components/PaymentPage.tsx:89 | `base.ext` gives `ext`, or "png" when nothing follows the last dot |
| `Screenshot.ExtensionWithoutDot` | src/components/PaymentPage.tsx:89 | a dotless name is its own extension; the empty name gives "png" |
| `Screenshot.StorageKeyExtension` | src/components/PaymentPage.tsx:88-91 | the stored key ends in the file's extension |
| `Screenshot.StorageKeySeparatesAttempts` | src/components/PaymentPage.tsx:88-91 | for one registration, equal keys mean the same timestamp and extension |
| `Screenshot.StorageKey` | src/components/PaymentPage.tsx:88-91 | the object key `<prefix><id>-<timestamp>.<extension>` (the upload widget builds the same shape with `screenshots/` at PaymentUpload.tsx:46-48); `StorageKeyExtension` and `StorageKeySeparatesAttempts` give what it keeps apart |
| `PaymentPage.Enter` | src/components/PaymentPage.tsx:24-55 | invalid navigation iff the state is missing or its id is empty |
| `Screenshot.UploadResult` | src/components/PaymentPage.tsx:101-122 | success iff both the upload and the update succeed; an upload failure is reported as such |
| `Screenshot.ScreenshotOnlyAfterBothSucceed` | src/components/PaymentPage.tsx:111-122 | a record gains a screenshot iff both steps succeed |
| `PaymentPage.CheckoutPage.constructor` | src/components/PaymentPage.tsx:17-57 | a page with an upload path exists only for a state that passes the guard; flags start false, nothing selected |
| `PaymentPage.CheckoutPage.HandleFileSelect` | src/components/PaymentPage.tsx:59-76 | reports the check's verdict; the selection changes only for an accepted file |
| `PaymentPage.CheckoutPage.HandleUpload` | src/components/PaymentPage.tsx:78-138 | no file: report only. Otherwise: upload under `payments/<id>-<now>.<ext>`; update with the public URL only after a successful upload; `uploadSuccess` and the `/success` redirect with the team name only after both succeed; `isUploading` false afterwards, so the button is enabled again after a failed attempt and gone after a successful one |
| `PaymentPage.CheckoutPage.UploadEnabled` | src/components/PaymentPage.tsx:140-241 | the upload button exists only until an upload succeeds, and is enabled only with a file selected and no upload running; it is enabled after an accepted pick, and enabled again after a failed attempt, never after a successful one |
| `PaymentUpload.Uploader.constructor` | src/components/PaymentUpload.tsx:12-15 | flags false, nothing selected, callback not called |
| `PaymentUpload.Uploader.HandleFileSelect` | src/components/PaymentUpload.tsx:17-34 | reports the check's verdict; the selection changes only for an accepted file |
| `PaymentUpload.Uploader.HandleUpload` | src/components/PaymentUpload.tsx:36-84 | same sequence under `screenshots/<id>-<now>.<ext>`; the record gets the key itself; `onUploadSuccess` is called exactly once, and only when both steps succeed; the button is enabled again after a failed attempt and gone after a successful one |
| `PaymentUpload.Uploader.UploadEnabled` | src/components/PaymentUpload.tsx:86-140 | the same rule for the widget: no button once the success card is shown; otherwise enabled only with a file selected and no upload running, and enabled again after a failed attempt |
| `FaqSection.Toggle` | src/components/FAQSection.tsx:58 | clicking the open question closes all; any other click opens just that question |
| `FaqSection.AnswerShown` | src/components/FAQSection.tsx:74 | the answer under a question is rendered iff `openIndex === index`; `AtMostOneAnswerShown` shows at most one is |
| `FaqSection.AtMostOneAnswerShown` | src/components/FAQSection.tsx:74 | at most one answer is rendered |
| `FaqSection.ClickClosedOpensOnlyIt` | src/components/FAQSection.tsx:58 | clicking a closed question makes it the only open one |
| `FaqSection.ClickOpenClosesAll` | src/components/FAQSection.tsx:58 | clicking the open question leaves none open |
| `FaqSection.ToggleTwice` | src/components/FAQSection.tsx:58 | two clicks on one question restore the state iff nothing else was open; from another open question they close everything |
| `FaqSection.Accordion.constructor` | src/components/FAQSection.tsx:33 | initially no question is open |
| `FaqSection.Accordion.Click` | src/components/FAQSection.tsx:57-58 | `openIndex` becomes `Toggle` of the old one; the clicked question's answer flips, every other answer is hidden, and the open index stays within the list |
| `Tracks.Clicked` | src/pages/Tracks.tsx:133-135 | deselects iff the clicked track's id is the selected one's; otherwise selects the clicked track |
| `Tracks.IsSelected` | src/pages/Tracks.tsx:173 | the `isSelected` prop compares ids only; `AtMostOneCardSelected` shows at most one card gets it |
| `Tracks.CatalogIdsDistinct` | src/pages/Tracks.tsx:13-23 | the track list's ids are distinct |
| `Tracks.AtMostOneCardSelected` | src/pages/Tracks.tsx:169-175 | among tracks with distinct ids at most one card is rendered selected |
| `Tracks.AtMostOneCatalogCardSelected` | src/pages/Tracks.tsx:13-23 | on the page's own track list, at most one card is expanded whatever is selected |
| `Tracks.ClickSelectsOnlyIt` | src/pages/Tracks.tsx:133-135 | after a click, the clicked card is selected iff it was not before, and no card with another id is |
| `Tracks.ClickTwice` | src/pages/Tracks.tsx:134 | two clicks restore the selection iff nothing or that same track was selected; otherwise nothing is selected |
| `Tracks.TracksPage.constructor` | src/pages/Tracks.tsx:130 | initially no track is selected |
| `Tracks.TracksPage.HandleTrackClick` | src/pages/Tracks.tsx:133-135 | `selectedTrack` becomes `Clicked` of the old one: the clicked card flips and no card with another id is expanded |

## Findings

| source | as written | input that shows it | evidently intended | confidence | as-written member | corrected member |
|---|---|---|---|---|---|---|
| src/components/RegistrationForm.tsx:54-59 | a size string with no ASCII digit parses to NaN; `NaN < 2` and `NaN > 4` are both false, so it passes the range check; `n < NaN` is false, so it passes the member check; `slice(0, NaN)` is empty; the insert goes out with a NaN `team_size` and no members | required fields filled and `teamSize` = "" (or "two") | reject any size outside 2–4, NaN included | not executed; the size `<select>` offers only "2", "3", "4", so only a tampered control reaches it | `RegistrationForm.NoDigitTeamSizeGetsThrough` | `RegistrationForm.Validate` |

`RegistrationForm.RegistrationPage.HandleSubmit` uses the corrected `Validate`.
`RegistrationForm.AsWrittenAgreesWhenSizeHasDigit` shows that this is the only
difference.

## Left out

- Network calls (insert, storage upload, public URL, update) are not executed. Their answers are method parameters, and the public URL is the function `publicUrl` given to the page. The store's duplicate-key and existing-object refusals are the only backend rules modelled.
- The clock reads `Date.now()` and `new Date().toISOString()` are parameters (`now`).
- Async re-entrancy is not modelled: each handler runs atomically, so `isUploading`/`isLoading` being true *during* the requests cannot be observed. The disabled-button guards are not modelled either, except for the two `UploadEnabled` predicates.
- The 1500 ms `setTimeout` is left out. The redirect is recorded as scheduled (`redirect`) when the upload succeeds.
- Toast texts and console logging are left out. Outcomes are datatype values, except the two insert-failure messages, which are kept verbatim.
- The MB figure shown with `toFixed` is floating-point display only.
- The fixed UPI payment string and the ₹500 amount are constants with no logic.
- Routing shells, marketing pages, the success screen with its confetti, animations, icons and particles are left out.
- `parseInt` is modelled only on ASCII-digit strings, which is all the form feeds it. Float rounding of very long digit strings is ignored; it cannot move a value into 2..4.
- Track records keep only `id` and `title`. Selection compares ids only. The FAQ keeps only the number of questions (6), not their texts.
- `RegistrationForm.ActiveMembers`: its own contract only bounds the length. The exact membership and the order are stated by `ActiveMembersExactly` and `ActiveMembersConcat`.
