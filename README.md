# RMMO certificate portal — a Dafny model

The RMMO certificate portal issues certificates and lets the public check them. It has three parts:

- **The store.** Two database tables hold the certificates. `certificates` is the legacy table: administrators type each number in by hand. `certificates_modern` is the modern table: the portal generates each number.
- **The dashboard.** Administrators list, search, sort, create, edit and delete records there.
- **The public verification page.** Anyone can look up a certificate number there. The number is typed, scanned from a QR code, or taken from a share link `/?c=<code>`.

This project models the core of the portal in Dafny and proves what that core promises:

- **The certificate identifier.** It reads `RMMO-` YY F MM S DD C NN:
  - YY is the year of issue, MM its month and DD its day.
  - F and S are the initials of the first name and the surname.
  - C is the certificate-type letter and NN the serial.
  
  The model defines the identifier and its generator, and proves that the identifier decodes back into its fields. It also proves that the serial determines the identifier uniquely, that missing date parts get their defaults, and gives two worked examples of the layout.
- **The store's server actions.** Each of the two tables has its own id counter. Each action is a method of the `Store` class. Its writes are proved against pure functions of the tables: inserting, updating by id, deleting by id, listing newest first, counting one year-and-type bucket. A lookup tries the modern table first and the legacy table on a miss; the model proves exactly when each table answers.
- **The dashboard's logic:**
  - the merged record list;
  - search, filter and the stable sort by graduation year;
  - splitting a holder's name into form fields and joining it back;
  - the Escape-key stack of modals;
  - the two-step delete behind re-authentication;
  - the submit handler, with its thumbnail gate and its edit, legacy and modern paths.
  
  The `Dashboard` class holds the page's React state in fields, and each handler is a method proved against a function of that state.
- **The verification page:**
  - the input box that keeps the `RMMO-` prefix and drops a doubled one;
  - the `autoVerify` guard;
  - extracting a number from scanned text or a link;
  - writing the share code back into the address;
  - the effect that verifies a `c` parameter.
  
  The `VerifyPage` class holds the page's state, and its methods are proved against functions of that state.

Files:

| file | contents |
|---|---|
| `text.dfy` | JavaScript string semantics: ASCII case mapping, `trim`, `startsWith`, `includes`, `indexOf`, `split`/`join`, `replace` of the first match, decimal rendering, `padStart`, `parseInt` |
| `certificate_id.dfy` | `generateCertificateID`, decoding, the `RMMO-` prefix rules shared by both pages, the share code |
| `image_links.dfy` | `getImageUrl`: a Google Drive link becomes its thumbnail address |
| `certificate_store.dfy` | the server actions as the `Store` class over two `Table` values |
| `names.dfy` | the full name built from the name fields, and its split back into fields |
| `dashboard_records.dfy` | the pure parts of the dashboard: the merged list, filtering, sorting, the edit form, and the lookup of the edited record |
| `dashboard.dfy` | the dashboard's state and handlers as the `Dashboard` class |
| `verify_page.dfy` | the verification page's state and handlers as the `VerifyPage` class |

Three facts about the code that shape the model:

- **Serial buckets.** `getModernCount` counts the modern rows with the same graduation year *and* type (src/lib/actions.ts:56-67), and so does the model.
- **Generator parameters.** `generateCertificateID` takes six parameters and never uses `yearGraduated` (src/lib/utils.ts:7-14). The dashboard passes only five arguments (see Findings).
- **Re-authentication.** A delete first signs in again with the typed password (src/app/dashboard/page.tsx:238-251). The model takes the outcome of that sign-in as a boolean.

## Model

| member | source | states |
|---|---|---|
| CertificateId.Generate | src/lib/utils.ts:7-44 | every generated identifier starts with `RMMO-` |
| CertificateId.YearDigits | src/lib/utils.ts:17-20 | YY is at most two characters: the tail of the first `-` piece of the date |
| CertificateId.Initial | src/lib/utils.ts:25-26 | an initial is empty for an empty name, otherwise the upper-cased first character |
| CertificateId.TypeLetter | src/lib/utils.ts:29-36 | the letter is `A` exactly for "Awards Certificate", `S` exactly for "Certificate of Appreciation", `C` for every other type |
| CertificateId.SerialString | src/lib/utils.ts:39 | the serial text has at least two characters; a negative serial renders as `-` and its digits |
| CertificateId.SerialStringValue | src/lib/utils.ts:39 | a non-negative serial renders as decimal digits whose value is the serial: two digits below 10, no truncation above 99 |
| CertificateId.NegativeSerialNotDigits | src/lib/utils.ts:39 | a negative serial does not render as digits |
| CertificateId.SerialStringInjective | src/lib/utils.ts:39 | distinct serials render differently |
| CertificateId.GenerateIgnoresYearGraduated | src/lib/utils.ts:7-14 | the identifier does not depend on `yearGraduated` |
| CertificateId.GenerateSeparatesSerials | src/lib/utils.ts:7-44 | with the other inputs fixed, distinct serials give distinct identifiers |
| CertificateId.DatePartsVerbatim | src/lib/utils.ts:17-22 | for a `Y-M-D` date, YY is the last two characters of Y, and MM and DD are M and D as typed |
| CertificateId.EmptyDateDefaults | src/lib/utils.ts:17-22 | an empty date gives YY `26`, MM `01` and DD `01` |
| CertificateId.WellFormedLength | src/lib/utils.ts:41-43 | with two-character date parts, non-empty names and a serial below 100, the identifier has 16 characters |
| CertificateId.CompletionExample | src/lib/utils.ts:41-43 | JUAN DELACRUZ, Certificate of Completion, 2026-03-27, serial 1 gives `RMMO-26J03D27C01` |
| CertificateId.AwardsExample | src/lib/utils.ts:29-43 | ANA SANTOS, Awards Certificate, 2025-12-05, serial 12 gives `RMMO-25A12S05A12` |
| CertificateId.DecodeGenerate | src/lib/utils.ts:41-43 | an identifier with two-character date parts decodes back into its YY, initials, MM, DD, type letter and serial |
| CertificateId.GenerateDynamic | src/lib/utils.ts:7-39 | with JavaScript arguments, the call throws exactly when `serial` is undefined; a non-string type gives letter `C` |
| CertificateId.WithPrefix | src/app/page.tsx:76-78 | the result is upper-case and starts with `RMMO-`; it is the upper-cased input, with `RMMO-` put in front unless the input already starts with it |
| CertificateId.WithPrefixIdempotent | src/app/page.tsx:100-102 | ensuring the prefix twice is the same as once |
| CertificateId.StoredNumberKept | src/lib/actions.ts:12 | a number already in stored form is unchanged by the prefix rule followed by a save's trim and upper-casing |
| CertificateId.ShareCodeRoundTrip | src/app/dashboard/page.tsx:289 | the share code of an upper-case prefixed number is the rest after `RMMO-`; when that rest does not start with `RMMO-` again, prefixing the code restores the number |
| ImageLinks.GetImageUrl | src/app/dashboard/page.tsx:141-148 | an empty link gives no image; a link without `drive.google.com` is kept; a Drive link gives a thumbnail address |
| ImageLinks.FromPathPiece | src/app/page.tsx:206-208 | helper for DriveFileLink, read off the definition: a Drive link with a non-empty `/d/<id>` piece gives the thumbnail of that id |
| ImageLinks.FromQueryPiece | src/app/page.tsx:206-209 | helper for DriveOpenLink, read off the definition: a Drive link without `/d/` gives the thumbnail of the `id=` value up to `&` |
| ImageLinks.DriveFileLink | src/app/dashboard/page.tsx:144-145 | `…/d/<id>/…` gives the thumbnail of `<id>` |
| ImageLinks.DriveOpenLink | src/app/dashboard/page.tsx:144-145 | `…id=<id>&…` gives the thumbnail of `<id>` |
| ImageLinks.DriveLinkWithoutId | src/app/page.tsx:206-210 | a Drive link with neither `/d/` nor `id=` gives the thumbnail of the text `undefined` |
| CertificateStore.Clean | src/lib/actions.ts:12 | a write upper-cases the number and leaves every other column as given |
| CertificateStore.CleanIdempotent | src/lib/actions.ts:121 | normalising twice is the same as once |
| CertificateStore.InsertAddsOneRow | src/lib/actions.ts:14-29 | an insert keeps the table valid and appends one row, with a fresh id and the normalised columns, after the unchanged old rows |
| CertificateStore.UpdateKeepsIds | src/lib/actions.ts:118-148 | an update keeps every row's id and the table's validity |
| CertificateStore.UpdateOverwrites | src/lib/actions.ts:124-137 | helper, read off the definition: the row with the id gets the normalised columns; every other row is unchanged |
| CertificateStore.UpdateAbsentId | src/lib/actions.ts:124-137 | an update of an id that is not in the table changes nothing |
| CertificateStore.DeleteRemovesOnlyThatRow | src/lib/actions.ts:153-167 | after a delete no row has the id, and exactly the other rows remain: one row fewer if the id was present, nothing changed otherwise |
| CertificateStore.DeleteKeepsOrder | src/lib/actions.ts:157 | the remaining rows keep their ascending id order |
| CertificateStore.NewestFirstOrder | src/lib/actions.ts:42 | a listing holds exactly the table's rows, in strictly decreasing id order |
| CertificateStore.InsertCounts | src/lib/actions.ts:56-67 | an insert raises the count of its year-and-type bucket by one and leaves other buckets unchanged |
| CertificateStore.BucketCountBound | src/lib/actions.ts:59 | a bucket count is at most the number of rows, and it is zero exactly when no row has that year and type |
| CertificateStore.FirstMatch | src/lib/actions.ts:179-189 | the match found is the first row whose upper-cased number equals the key; none is found exactly when no row matches |
| CertificateStore.ModernWins | src/lib/actions.ts:178-189 | a match in the modern table is the answer, even when the legacy table holds the same number |
| CertificateStore.LegacyOnlyOnModernMiss | src/lib/actions.ts:178-203 | the legacy table answers exactly when the modern table has no match and the legacy table has one; the row returned matches and comes from the table it claims |
| CertificateStore.NotFoundIffNoMatch | src/lib/actions.ts:173-205 | "not found" exactly when neither table has a matching row |
| CertificateStore.BareCodeNotFound | src/lib/actions.ts:175 | the lookup adds no prefix: a search key without `RMMO-` finds nothing when every stored number has the prefix |
| CertificateStore.SavedModernIsVerified | src/lib/actions.ts:72-97 | after a modern insert, searching for its number finds a modern record |
| CertificateStore.Store.SaveCertificate | src/lib/actions.ts:10-35 | a successful save inserts into the legacy table; a failed one changes nothing; the modern table is untouched |
| CertificateStore.Store.SaveModernCertificate | src/lib/actions.ts:72-97 | a successful save inserts into the modern table; a failed one changes nothing; the legacy table is untouched |
| CertificateStore.Store.GetCertificates | src/lib/actions.ts:40-48 | the legacy rows newest first, or no rows on error |
| CertificateStore.Store.GetModernCertificates | src/lib/actions.ts:102-110 | the modern rows newest first, or no rows on error |
| CertificateStore.Store.GetModernCount | src/lib/actions.ts:56-67 | the number of modern rows with that year and type, or `0` on error |
| CertificateStore.Store.UpdateCertificate | src/lib/actions.ts:118-148 | updates the row with the id in the table the flag selects; the other table, and everything on failure, stays unchanged |
| CertificateStore.Store.DeleteCertificate | src/lib/actions.ts:153-167 | deletes the row with the id from the table the flag selects; the other table, and everything on failure, stays unchanged |
| CertificateStore.Store.VerifyCertificate | src/lib/actions.ts:173-210 | the lookup's answer, modern table first, or the error result when the query fails |
| Names.CollapseSpaces | src/app/dashboard/page.tsx:307 | every run of white space becomes a single blank: the result has blanks only, never two in a row, is empty only for empty input, and stays upper-case |
| Names.FullName | src/app/dashboard/page.tsx:304-307 | the built name is upper-case and single-spaced, with no blank at either end |
| Names.FullNameOfWords | src/app/dashboard/page.tsx:307 | collapsing and trimming words already joined by single blanks changes nothing |
| Names.SplitWords | src/app/dashboard/page.tsx:209 | splitting words joined by single blanks at blanks gives the words back |
| Names.EditNames | src/app/dashboard/page.tsx:209-213 | the three form fields filled from a name are upper-case |
| Names.FirstNameOnly | src/app/dashboard/page.tsx:304-307 | a first name alone is the full name |
| Names.NoMiddleName | src/app/dashboard/page.tsx:304-307 | an empty middle name leaves a single blank between first name and surname |
| Names.WithMiddleName | src/app/dashboard/page.tsx:304-307 | first, middle and a surname of several words join to the words in order |
| Names.ResaveKeepsName | src/app/dashboard/page.tsx:209-213 | opening a name of single-spaced upper-case words for editing and building it again gives the same name |
| Names.SplitRecoversFields | src/app/dashboard/page.tsx:209-213 | a name built from one-word first and middle names and a surname is split back into those three fields |
| Names.CompoundSurnameMovesToMiddle | src/app/dashboard/page.tsx:211-213 | a two-word surname with no middle name keeps the full name, but comes back as a middle name and a surname |
| DashboardRecords.Tag | src/app/dashboard/page.tsx:157-158 | tagging keeps every row in place and marks it with its table |
| DashboardRecords.MergedMembers | src/app/dashboard/page.tsx:150-162 | a row is in the merged list with the modern tag exactly when it is a modern row, and likewise for legacy |
| DashboardRecords.MergedOrder | src/app/dashboard/page.tsx:159 | helper, read off the definition: the merged list is the modern rows, newest first, followed by the legacy rows, newest first |
| DashboardRecords.KeepWhere | src/app/dashboard/page.tsx:185-193 | a filter keeps exactly the records that pass its criterion |
| DashboardRecords.FilterExact | src/app/dashboard/page.tsx:181-193 | search, type filter and status filter together keep exactly the records that pass all three; "All Types" and "All Status" filter nothing |
| DashboardRecords.EmptySearchKeepsAll | src/app/dashboard/page.tsx:183 | skipping an empty search is the same as running it |
| DashboardRecords.SearchIgnoresCase | src/app/dashboard/page.tsx:184-190 | the search does not depend on the case of the term |
| DashboardRecords.SortBy | src/app/dashboard/page.tsx:196-200 | sorting keeps the same records, as a multiset |
| DashboardRecords.SortOrders | src/app/dashboard/page.tsx:196-200 | the sorted list is ordered by the key, with no record placed after one it should precede, and is a permutation of the input |
| DashboardRecords.SortIsStable | src/app/dashboard/page.tsx:196-200 | records with equal keys keep their relative order |
| DashboardRecords.FilteredRecordsSpec | src/app/dashboard/page.tsx:181-203 | the table shows exactly the selected records, newest year first only for "Newest First", with records of the same year in list order |
| DashboardRecords.EditForm | src/app/dashboard/page.tsx:210-222 | the edit form carries the record's number and link, with validity defaulting to "VALID" |
| DashboardRecords.ManualFields | src/app/dashboard/page.tsx:314-322 | the columns an edit or a legacy save writes have an upper-case, prefixed number and an upper-case, single-spaced name |
| DashboardRecords.EditThenSaveKeepsFields | src/app/dashboard/page.tsx:205-225 | a record opened for editing and submitted unchanged writes exactly its own columns back, when its name is single-spaced upper-case words, its number is in stored form and its validity is set |
| DashboardRecords.AsWrittenModernId | src/app/dashboard/page.tsx:344-350 | the call as written throws for every form and every count |
| DashboardRecords.ModernIdFields | src/app/dashboard/page.tsx:341-350 | the corrected number decodes into the form's date, initials and type letter, with serial `count + 1` |
| DashboardRecords.ConsecutiveModernIdsDiffer | src/app/dashboard/page.tsx:341-358 | saving a modern record raises its bucket's count by one, so the next record with the same names, date, year and type gets a different number |
| DashboardRecords.FindById | src/app/dashboard/page.tsx:255 | the found record is in the list and has the id; none is found exactly when no record has it |
| DashboardRecords.FindByIdPicksModernTwin | src/app/dashboard/page.tsx:313 | when both tables hold the id, the lookup by id alone returns the modern record, even when the legacy one was opened |
| DashboardRecords.FindEdited | src/app/dashboard/page.tsx:255 | the corrected lookup returns a record with the id from the requested table, and none exactly when there is no such record |
| DashboardRecords.FindEditedReturnsOpened | src/app/dashboard/page.tsx:313 | in a list whose id-and-table keys are unique, the corrected lookup returns the opened record |
| DashboardRecords.MergedKeysUnique | src/app/dashboard/page.tsx:157-159 | in the merged list of two valid tables, id and table together identify a record |
| DashboardPage.TopLayerIsFirstOpen | src/app/dashboard/page.tsx:112-126 | the layer Escape closes is open and ranks before every other open layer; such a layer exists exactly when the page locks scrolling |
| DashboardPage.CloseTopClosesOnlyTop | src/app/dashboard/page.tsx:112-126 | after Escape, a layer is open exactly when it was open and was not the top layer; with nothing open, nothing changes |
| DashboardPage.ShutOnly | src/app/dashboard/page.tsx:113-125 | closing one layer closes that layer and no other |
| DashboardPage.CloseTopMovesDown | src/app/dashboard/page.tsx:112-126 | the next top layer after Escape ranks strictly below the one just closed |
| DashboardPage.ShutKeepsInput | src/app/dashboard/page.tsx:116-125 | closing the password modal clears the typed password and its error; closing the entry modal resets the form and the edit target; no other layer touches them |
| DashboardPage.PressesCloseFromTop | src/app/dashboard/page.tsx:128-134 | enough Escape presses, counted from the top layer's rank, leave no modal open |
| DashboardPage.EscapeClosesEverything | src/app/dashboard/page.tsx:128-139 | eight Escape presses unlock the page, whatever is open |
| DashboardPage.EditTargetsOpenedRecord | src/app/dashboard/page.tsx:205-223 | a record opened from a list with unique keys is written to its own table |
| DashboardPage.IssuedModernVerifies | src/app/dashboard/page.tsx:338-360 | the number shown after creating a modern record verifies as a modern certificate |
| DashboardPage.IssuedLegacyVerifies | src/app/dashboard/page.tsx:326-337 | the number shown after creating a legacy record verifies as a legacy certificate when the modern table has no record with that number |
| DashboardPage.ResubmitRow | src/lib/actions.ts:118-148 | rewriting a row of a valid table with its own columns changes nothing |
| DashboardPage.ResubmitUnchangedKeepsTables | src/app/dashboard/page.tsx:312-324 | opening a listed record and submitting it unchanged leaves both tables as they were |
| DashboardPage.WritesBack | src/app/dashboard/page.tsx:312-324 | an edit whose update is a no-op on its target table leaves the database unchanged |
| DashboardPage.Dashboard.RefreshData | src/app/dashboard/page.tsx:150-162 | the records become the merged listings, empty for a table whose query failed |
| DashboardPage.Dashboard.EditClick | src/app/dashboard/page.tsx:205-225 | closes the preview, sets the edit target, the form, the legacy flag from the record's table, and opens the entry modal |
| DashboardPage.Dashboard.CloseModal | src/app/dashboard/page.tsx:227-232 | closes the entry modal, clears the target and the legacy flag, and resets the form |
| DashboardPage.Dashboard.CloseTopModal | src/app/dashboard/page.tsx:112-126 | the new state is the old one with its top layer closed |
| DashboardPage.Dashboard.Delete | src/app/dashboard/page.tsx:254-256 | deletes the row with the edited id from the table the record was opened from; a failed delete changes nothing |
| DashboardPage.Dashboard.DeleteAndClose | src/app/dashboard/page.tsx:254-263 | on success closes the password and entry modals, clears the password and refreshes, the list spinner ending off; on failure nothing changes, the spinner included |
| DashboardPage.Dashboard.DeleteAccepted | src/app/dashboard/page.tsx:235-263 | after a correct password: deletes, closes and refreshes when there is an edit target and the delete succeeds, the list spinner ending off; otherwise only clears the password error and leaves the spinner as it was |
| DashboardPage.Dashboard.ConfirmedDelete | src/app/dashboard/page.tsx:234-264 | a wrong password sets the error and changes nothing else, the list spinner included; a correct one deletes as above; the submit spinner ends off |
| DashboardPage.Dashboard.Save | src/app/dashboard/page.tsx:311-362 | dispatches to the edit, legacy or modern write and returns the record the QR modal shows |
| DashboardPage.Dashboard.SaveEdited | src/app/dashboard/page.tsx:312-324 | an edit updates the record with the edited id in the table the record was opened from |
| DashboardPage.Dashboard.SaveLegacy | src/app/dashboard/page.tsx:326-337 | a legacy save inserts the typed number, prefixed, into the legacy table |
| DashboardPage.Dashboard.SaveModern | src/app/dashboard/page.tsx:338-360 | a modern save counts the bucket, generates the next number and inserts it into the modern table |
| DashboardPage.Dashboard.FormSubmit | src/app/dashboard/page.tsx:295-371 | with no photo link and no confirmation shown, it only asks for confirmation and changes nothing else; otherwise it saves, refreshes, closes the entry modal and shows the saved record's QR, both spinners ending off |
| DashboardPage.Dashboard.SubmitPastGate | src/app/dashboard/page.tsx:301-370 | the write lands as the submitted tables say, the records become the refreshed listings, the entry modal closes onto the saved record's QR and both spinners end off |
| VerifyPage.InputValue | src/app/page.tsx:196-202 | the box always holds an upper-case value starting with `RMMO-`: a doubled prefix loses one copy, a prefixed value is kept, and anything else becomes the bare prefix |
| VerifyPage.PastedIdCollapses | src/app/page.tsx:198-199 | typing a full number after the box's own prefix leaves exactly the number |
| VerifyPage.InputValueSettles | src/app/page.tsx:196-202 | feeding the box's value back in changes nothing exactly when the input is not `RMMO-` written three times or more in a row |
| VerifyPage.BarePrefixRefused | src/app/page.tsx:200 | text without the prefix turns the box into the bare prefix, which a search refuses |
| VerifyPage.StoredNumberAccepted | src/app/page.tsx:162-165 | a stored number longer than the prefix is not refused |
| VerifyPage.ExtractedId | src/app/page.tsx:88-99 | non-link text is trimmed; an unparsable link is kept whole; otherwise the non-empty `c` parameter, else the non-empty last path segment, else the whole text |
| VerifyPage.ScannedId | src/app/page.tsx:100-103 | the scanned value is upper-case and starts with `RMMO-` |
| VerifyPage.ShareLinkScansBack | src/app/page.tsx:88-103 | scanning a share link `<origin>/?c=<code>` of a stored number gives that number back, when the parser reads the code back unchanged (no `&`, `#`, `+`, `%`, tab or newline; see Left out) |
| VerifyPage.PaddedLinkIsText | src/app/page.tsx:89-90 | a link with leading white space is not read as a link: it is only trimmed |
| VerifyPage.VerifiedKey | src/app/page.tsx:170 | the remembered number is upper-case and keeps the prefix of a prefixed input |
| VerifyPage.RefusedSkipsLookup | src/app/page.tsx:162-165 | a refused value opens the input error and nothing else, whatever the lookup would answer |
| VerifyPage.SuccessWritesShareCode | src/app/page.tsx:169-180 | on success the address carries the number after the prefix, the number is remembered, and the result is shown |
| VerifyPage.FailureOpensError | src/app/page.tsx:181-183 | a failed lookup opens the error modal and keeps everything else, including the last result shown |
| VerifyPage.WrittenCodeIsQuiet | src/app/page.tsx:73-86 | the code written back after a success does not trigger a second verification, unless the rest after the prefix starts with the prefix again; the address is read back unchanged (see Left out) |
| VerifyPage.DoubledNumberVerifiedAgain | src/app/page.tsx:73-86 | a number whose rest starts with `RMMO-` again is followed by a second verification of the shorter number; the address is read back unchanged (see Left out) |
| VerifyPage.ResetIsQuiet | src/app/page.tsx:187-194 | after a reset the address has no code, so the effect changes nothing, and the box holds the bare prefix, which is refused |
| VerifyPage.VerifyPage.InputChange | src/app/page.tsx:196-202 | the box becomes the input's normalised value and nothing else changes |
| VerifyPage.VerifyPage.AutoVerify | src/app/page.tsx:161-185 | refuses an empty or bare-prefix value, does nothing while loading, otherwise shows the lookup's answer |
| VerifyPage.VerifyPage.ShowAnswer | src/app/page.tsx:169-184 | shows the answer: on success the result and the address's share code, otherwise the error modal; the spinner ends off |
| VerifyPage.VerifyPage.SubmitSearch | src/app/page.tsx:230-233 | verifies what the box holds |
| VerifyPage.VerifyPage.ProcessDecodedText | src/app/page.tsx:88-106 | puts the scanned number in the box, verifies it and closes the scanner |
| VerifyPage.VerifyPage.QueryEffect | src/app/page.tsx:73-86 | a non-empty `c` code, prefixed, is put in the box and verified unless it was just verified; without one the remembered number is cleared |
| VerifyPage.VerifyPage.ResetSearch | src/app/page.tsx:187-194 | clears the result, the summary, the remembered number and the image error, and puts the bare prefix in the box and the root in the address |

## Left out

- Authentication (the Supabase session and the password sign-in before a delete) is an input: the sign-in's outcome is a boolean.
- Database I/O, `revalidatePath` and the network are left out. Every call to Turso is a method of `Store` on in-memory tables. A `fail` flag decides whether the call throws, and a failed write changes nothing.
- The database schema is not part of this model. Each table is assumed to be declared with `AUTOINCREMENT`, so that ids start at 1, rise with each insert and are never reused after a delete. Without `AUTOINCREMENT`, SQLite gives a new row the largest id present plus one, so deleting the newest row would free its id for the next insert; the model's `nextId` never goes down and does not capture that reuse.
- CertificateStore.FirstMatch: with no `ORDER BY`, SQLite may return the rows of a full scan in any order; the model takes rowid order, so when two rows share an upper-cased number it names the older one, where SQLite may return either.
- The count-then-insert race between two concurrent modern saves is left out. So are the un-awaited `refreshData` in the delete handler and the stale `loading` value a React closure can see. The model runs each handler to completion, one at a time.
- Deleting a modern record lowers its bucket's count, so a later save can repeat a serial that is already stored. The model's count is the one `getModernCount` returns, and no lemma claims that numbers are unique across deletions.
- Case mapping covers ASCII letters only; Unicode case rules are left out. White space is the JavaScript white-space and line-terminator set.
- Strings are sequences of Unicode scalar values, where JavaScript counts UTF-16 code units: lengths, `padStart` widths and `charAt(0)` in src/lib/utils.ts:25-26 and 39 agree only for text inside the Basic Multilingual Plane. A name that starts with a character outside it gives a lone surrogate in JavaScript and the whole character in the model.
- `parseInt` reads optional white space, an optional sign and decimal digits. Its hexadecimal and radix cases are left out.
- DashboardRecords.YearKey, Text.ParseIntOrZero: JavaScript's `parseInt` and the comparator's `yearB - yearA` work on doubles, so two year strings above 2^53 can compare equal there; the model's integers are exact and order them apart.
- The browser's `URL` constructor is an input. Its outcome is a `UrlParse` value: unparsable, or the `c` parameter and the path. Percent-decoding is left out.
- VerifyPage.ShareLinkScansBack, VerifyPage.WrittenCodeIsQuiet, VerifyPage.DoubledNumberVerifiedAgain: they take the `c` parameter read back to be exactly the code written. Both pages write it unencoded (src/app/dashboard/page.tsx:289 and 723, src/app/page.tsx:172-176), and `URLSearchParams` cuts a value at `&` or `#`, reads `+` as a blank and decodes `%XX`, while the URL parser drops tabs and newlines. A stored number holding any of these, such as `RMMO-A&B`, scans back as `RMMO-A`, and after its verification the page checks `RMMO-A` a second time. The three lemmas hold only for codes free of those characters.
- The camera, the QR scanner, the QR image and its download are left out. So are the clipboard, `window.history` and the Next.js router; writing the address is a field of the page's state.
- `setTimeout` and the image `onError` handler are left out.
- The JSX is left out except for what the handlers read or write. The toggles for fullscreen, preview and the error modals are plain field assignments.
- The applicant registration pages, the login page and `saveRegistrant` are left out: they are outside the certificate core.
- Nullable database columns are modelled as text, with `""` for null.
- The pages' React state is grouped into one datatype per page, with one field per `useState`.
- CertificateStore.Store.VerifyCertificate: it does not return the `success`/`data`/`message` object itself. The result is a `VerifyResult`, and `Message` gives its text.
- DashboardPage.Dashboard.SaveModern: uses the corrected six-argument generator call, not the throwing call as written (first Finding).
- DashboardPage.Dashboard.Save, DashboardPage.Dashboard.FormSubmit, DashboardPage.Dashboard.SubmitPastGate, DashboardPage.WritesBack: they inherit both corrections, the six-argument generator call and the lookup of the edited record by id and table. As written, every modern-mode submit throws at the generator call (src/app/dashboard/page.tsx:344-350) and ends in the catch at lines 367-369: nothing is saved, the data is not refreshed, the entry modal stays open and no QR is shown, where the model saves, refreshes, closes the modal and shows the QR. WritesBack states the no-op edit against the table the corrected lookup picks. The lemmas stated on the corrected paths rest on those corrections: DashboardPage.IssuedModernVerifies, DashboardRecords.ConsecutiveModernIdsDiffer, DashboardPage.EditTargetsOpenedRecord and DashboardPage.ResubmitUnchangedKeepsTables.
- DashboardPage.Dashboard.Delete, DashboardPage.Dashboard.DeleteAndClose, DashboardPage.Dashboard.DeleteAccepted, DashboardPage.Dashboard.ConfirmedDelete: they delete from the table the corrected lookup by id and table picks, not the one `records.find` by id alone gives at src/app/dashboard/page.tsx:255 (second Finding). As written, deleting a legacy record whose id a modern record shares removes that modern row instead. SaveEdited does the same for its update.

## Findings

| source | as written | input that shows it | evidently intended | confidence | as-written member | corrected member |
|---|---|---|---|---|---|---|
| src/app/dashboard/page.tsx:344-350 | `generateCertificateID` gets five arguments for its six parameters, so the type lands in `yearGraduated`, `count + 1` in `type`, and `serial` is `undefined`; `serial.toString()` throws and the catch at line 367 drops the save | any new record in modern mode, e.g. JUAN DELACRUZ, Certificate of Completion, 2026-03-27, count 0 | pass `formData.yearGraduated` before the type, so that the serial is `count + 1` | not executed | DashboardRecords.AsWrittenModernId | DashboardRecords.ModernIdFields |
| src/app/dashboard/page.tsx:255 | `records.find(r => r.id === isEditing)` matches on id alone, but each table numbers its own rows, and modern records come first in the list | a legacy record with id 1 while the modern table also has id 1: deleting or editing the legacy record acts on the modern one | find the record by id and by the table it was opened from (`isLegacyMode`) | not executed | DashboardRecords.FindByIdPicksModernTwin | DashboardRecords.FindEditedReturnsOpened |
