# Tarot spread admin console: a verified model

This project models the core of an admin console for a tarot-reading
service. The centre of it is the **spread-layout editor**. A spread (for
example "celtic-cross") exists once per locale, `en` and `zh`. Each locale has
an ordered list of card slots ("positions"). A slot has a label
(`positionIndex`), a name, a description and board coordinates `x` in
[0, 100] and `y` in [0, 80].

The model covers:

- **Position lists and the two-locale form** (`EditForm`):
  - appending, removing and editing slots;
  - copying the layout from the active locale to the other one;
  - the comma-separated tag field;
  - the ordered save and delete requests;
  - the form itself as a class that holds both drafts.
- **The layout canvas** (`Board`, `Canvas`):
  - converting pointer pixels to board units, with rounding and clamping;
  - the drag state machine, which reports a selection and coordinate changes;
  - connector lines through the slots in label order (`Positions`).
- **The thumbnail** (`Thumbnail`): the same connectors, plus one card per slot.
- **Server rules over in-memory tables**:
  - spread creation, with positions (`SpreadsRoute`);
  - user creation and listing (`UsersRoute`);
  - the monthly credit renewal job (`MonthlyCredits`);
  - redemption-code batches (`CodesRoute`);
  - the paging arithmetic that the list endpoints share (`Paging`).
- **Pure decisions**:
  - the admin authentication redirect (`Middleware`);
  - the code export filter (`ExportCodes`).

JavaScript semantics that the behaviour depends on are written out in
`Text`:

- `String.prototype.trim`, `split` and `join`;
- `parseInt`, including whitespace, sign and hex prefix;
- `Number` applied to a string;
- `String` applied to an integer;
- the truthiness of `x || default`;
- `Math.round` as `Floor(r + 1/2)`;
- the stable `Array.prototype.sort`.

Foreign calls are parameters of the functions that use them:

- token verification: `verify: string -> bool`;
- SHA-256: `hash: string -> string`;
- the code generator: `gen: nat -> Suffix`, a 10-character string per call;
- the server's answers to the editor's requests: `accepted` and `delivered`;
- the clock: `now`.

Numbers are unbounded integers or exact reals, not IEEE doubles.

## Model

| member | source | states |
|---|---|---|
| Text.Trim | components/admin/edit-spread-form.tsx:154 | the result is a slice of the input with only whitespace cut from either side and no whitespace left at either end; a string already trimmed is unchanged |
| Text.TrimAfterPadding | components/admin/edit-spread-form.tsx:154 | trimming whitespace padding in front of a trimmed word gives the word back |
| Text.Split | components/admin/edit-spread-form.tsx:154 | split yields at least one piece, no piece contains the separator, and joining the pieces with the separator gives back the input |
| Text.Join | components/admin/edit-spread-form.tsx:64 | joining no strings gives "", joining one gives it unchanged; Split undoes it (SplitJoin) |
| Text.SplitJoin | components/admin/export-codes-dialog.tsx:57 | splitting a separator-joined list of separator-free pieces gives back exactly those pieces |
| Text.ParseIntToString | components/admin/edit-spread-form.tsx:102 | parseInt reads back every integer String writes, so a label made by String(n) sorts as n |
| Text.NatToString | components/admin/edit-spread-form.tsx:102 | String(n) is a non-empty run of decimal digits, without a leading zero, denoting n |
| Text.IntToString | components/admin/edit-spread-form.tsx:102 | String(i) starts with a minus sign exactly when i is negative, followed by the digits of its magnitude |
| Text.ParseIntSkipsWhitespace | components/admin/spread-canvas.tsx:76 | parseInt ignores whitespace in front of the number |
| Text.ParseIntReadsLeadingDigits | components/admin/spread-canvas.tsx:76 | parseInt of whitespace, decimal digits, then anything starting with a non-digit is the value of those digits (" 7a" gives 7) |
| Text.ParseIntNaN | components/admin/spread-canvas.tsx:76 | after leading whitespace, an empty rest or one starting with a character that is neither sign nor digit gives NaN |
| Text.StringToNumber | app/api/admin/spreads/route.ts:84-85 | Number of a blank string is 0 |
| Text.SignedDigitsNumber | app/api/admin/spreads/route.ts:84-85 | an optional minus sign and decimal digits without a leading zero read back as their (negated) value |
| Text.NumberOfString | app/api/admin/spreads/route.ts:84-85 | Number reads back every integer String writes |
| Positions.Sort | components/admin/spread-canvas.tsx:75-77 | the sorted copy is a permutation of the slots (same multiset, same length), ascending by parsed label, unparsable labels last |
| Positions.SortIsStable | components/admin/spread-canvas.tsx:75-77 | slots with equal parsed labels keep their array order, as a stable sort does |
| Positions.SortAscendingNumbers | components/admin/spread-thumbnail.tsx:27-29 | when every label parses, the sorted copy is ascending in the parsed values |
| Positions.SortByIsSorted | components/admin/spread-thumbnail.tsx:27-29 | insertion by key produces a sequence sorted by the key |
| Positions.SortByIsStable | components/admin/spread-thumbnail.tsx:27-29 | for every key value, the elements with that key appear in input order |
| Positions.Chain | components/admin/spread-canvas.tsx:105-107 | max(0, n-1) segments, segment i from element i to element i+1, each ending where the next begins |
| Positions.Connectors | components/admin/spread-canvas.tsx:105-114 | max(0, n-1) connectors, connector i joining the i-th and (i+1)-th slots of the label-sorted copy, forming one unbroken path with the parsed label never decreasing along a connector |
| Board.Round | components/admin/spread-canvas.tsx:54-55 | Math.round lands within one half of its argument, halves rounding up |
| Board.Clamp | components/admin/spread-canvas.tsx:54-55 | the result lies in [lo, hi], equals v when v is inside and the nearer bound otherwise |
| Board.PointerToBoard | components/admin/spread-canvas.tsx:49-55 | for any pointer, also outside the container, x is in [0, 100] and y in [0, 80]; a rounded value inside is kept, one below goes to 0 and one above to 100 (x) or 80 (y) |
| Board.AnchorRoundTrip | components/admin/spread-canvas.tsx:50-55 | pointing at the pixel where a slot is drawn gives back exactly that slot's coordinates |
| Board.Anchor | components/admin/spread-canvas.tsx:144-145 | a card is centred at left = x%, top = y% of the board |
| Board.ConnectorLines | components/admin/spread-canvas.tsx:105-121 | one line per connector, from the first slot's anchor to the second's, consecutive lines joined |
| Canvas.SpreadCanvas.constructor | components/admin/spread-canvas.tsx:31 | a canvas starts idle, with no listeners attached and nothing reported |
| Canvas.SpreadCanvas.MouseDown | components/admin/spread-canvas.tsx:39-43 | pressing slot i makes i the dragged slot, attaches the listeners and reports select(i) when a handler is given |
| Canvas.SpreadCanvas.MouseMove | components/admin/spread-canvas.tsx:46-58 | a move reports a change only while dragging, always for the dragged slot, at the clamped board coordinates; coordinates reported stay on the board |
| Canvas.SpreadCanvas.MouseUp | components/admin/spread-canvas.tsx:60-72 | release ends the drag and detaches the listeners; listeners are attached exactly while a drag is active |
| Canvas.DragScenario | components/admin/spread-canvas.tsx:39-62 | press, move to 40% of a 200-pixel square, release: the host hears select(0) then (0, 40, 40), and the drag ends |
| Thumbnail.SortedLines | components/admin/spread-thumbnail.tsx:39-53 | line i joins the i-th and (i+1)-th slots in label order, at their x%/y% |
| Thumbnail.Cards | components/admin/spread-thumbnail.tsx:56-67 | one card per slot, in array order, card i centred at slot i's x%/y% |
| Thumbnail.Render | components/admin/spread-thumbnail.tsx:39-66 | max(0, n-1) lines joining sorted neighbours, and n cards in array order, card i centred at slot i's x%/y% |
| EditForm.AddSlot | components/admin/edit-spread-form.tsx:98-109 | exactly one slot is appended, labelled String(n+1) (which parses back to n+1), blank at (0, 0); earlier slots unchanged |
| EditForm.RemoveSlot | components/admin/edit-spread-form.tsx:111-115 | removing an index in range shortens the list by one and keeps the others in order with unchanged labels; an index out of range changes nothing |
| EditForm.AddThenRemove | components/admin/edit-spread-form.tsx:98-115 | removing the slot just added restores the list |
| EditForm.ApplyEdit | components/admin/edit-spread-form.tsx:90-96 | the edited field takes the new value and every other field of the slot is unchanged |
| EditForm.ApplyEditDetermined | components/admin/edit-spread-form.tsx:94 | any slot that differs from the old one only in the edited field, and carries the new value, is the edit's result |
| EditForm.SyncPositions | components/admin/edit-spread-form.tsx:126-136 | the result has the source's length; slot i has the source's label and coordinates, and the target's name, description and id where the target has slot i, blanks otherwise |
| EditForm.SyncCopiesLayout | components/admin/edit-spread-form.tsx:126-131 | after a sync both locales have the same layout |
| EditForm.SyncSameLengthKeepsText | components/admin/edit-spread-form.tsx:132-134 | syncing between lists of equal length loses no name, description or id |
| EditForm.SyncIdempotent | components/admin/edit-spread-form.tsx:126-136 | syncing twice equals syncing once |
| EditForm.SyncBackRestoresSource | components/admin/edit-spread-form.tsx:126-136 | syncing the result back onto the source gives the source unchanged |
| EditForm.ParseTags | components/admin/edit-spread-form.tsx:154 | parsed tags are non-empty, trimmed and comma-free |
| EditForm.CleanPieces | components/admin/edit-spread-form.tsx:154 | trimming comma-free pieces and dropping empty ones leaves only non-empty, trimmed, comma-free tags |
| EditForm.DropEmptyAppend | components/admin/edit-spread-form.tsx:154 | filtering out empty strings works piece by piece and keeps the order |
| EditForm.DropEmptyKeepsAll | components/admin/edit-spread-form.tsx:154 | filtering strings none of which is empty keeps them all |
| EditForm.CleanPiecesSingle | components/admin/edit-spread-form.tsx:154 | one piece gives its trimmed text, or nothing when that is empty |
| EditForm.CleanPiecesAppend | components/admin/edit-spread-form.tsx:154 | cleaning works piece by piece, so the tags keep the order of the pieces |
| EditForm.ParseTagsOfPieces | components/admin/edit-spread-form.tsx:154 | parsing comma-joined comma-free pieces gives exactly the cleaned pieces; with the two lemmas above this fixes the tags of any typed text |
| EditForm.TagsRoundTrip | components/admin/edit-spread-form.tsx:64 | parsing the ", "-joined form of well-formed tags gives back exactly the original list |
| EditForm.JoinTags | components/admin/edit-spread-form.tsx:64 | no tags show as "", one tag as itself; TagsRoundTrip parses the joined text back to the tags |
| EditForm.JoinPadded | components/admin/edit-spread-form.tsx:64 | joining with ", " is joining with "," after prefixing a space to every tag but the first |
| EditForm.LoadedTagsSurviveSave | components/admin/edit-spread-form.tsx:58-76 | a draft loaded from a row with well-formed tags sends exactly those tags when saved |
| EditForm.FindLang | components/admin/edit-spread-form.tsx:50-51 | the result is the first row in that language, or none exactly when no row has it |
| EditForm.DraftOf | components/admin/edit-spread-form.tsx:58-76 | a loaded row gives its id, name, description, positions, detail and difficulty (null as ""), tags joined by ", "; no row gives a blank draft |
| EditForm.DefaultSpread | components/admin/edit-spread-form.tsx:53 | the first en row if there is one, else the first zh row, else the first row; none only when nothing was loaded |
| EditForm.SaveRequestFor | components/admin/edit-spread-form.tsx:142-156 | PUT to the item URL exactly when the draft has a non-zero id, otherwise POST to the collection; the payload carries the slug, locale and recommended flag of the form, the draft's name, description, detail, difficulty and positions, and its parsed tags |
| EditForm.HandleSave | components/admin/edit-spread-form.tsx:176-185 | a locale is sent exactly when its name is non-empty, and zh only if en did not fail; en comes before zh; the save succeeds exactly when every sent request is accepted |
| EditForm.SaveRequests | components/admin/edit-spread-form.tsx:142-162 | one request per attempted locale, in order, each the request saveSpread builds from that locale's draft |
| EditForm.SaveOrder | components/admin/edit-spread-form.tsx:172-185 | a save sends one request per named locale that is reached (zh only if en is unnamed or accepted), the en request first and the zh request last, each built from its own draft |
| EditForm.SaveNotAtomic | components/admin/edit-spread-form.tsx:177-184 | a failing en request stops the save before zh; a failing zh request comes after en was already sent |
| EditForm.HandleDelete | components/admin/edit-spread-form.tsx:196-212 | nothing without confirmation; then exactly one DELETE per loaded row with an id, en before zh; a failed en request stops with only en sent, otherwise success is exactly zh absent or delivered |
| EditForm.ApplyUpdate | components/admin/edit-spread-form.tsx:82-88 | the updated field takes the new value and every other field of the draft, id included, is unchanged |
| EditForm.SpreadEditor.constructor | components/admin/edit-spread-form.tsx:50-80 | the drafts are those of the first en and zh rows; slug and flag come from the default row; the en tab is active |
| EditForm.SpreadEditor.UpdateFormData | components/admin/edit-spread-form.tsx:82-88 | one field of one locale's draft is replaced; the other draft, slug, flag and tab are unchanged |
| EditForm.SpreadEditor.HandlePositionChange | components/admin/edit-spread-form.tsx:90-96 | edits a copy of the slot array in place and stores it: only slot i's one field changes |
| EditForm.SpreadEditor.AddPosition | components/admin/edit-spread-form.tsx:98-109 | the locale's slot list becomes AddSlot of the old one; nothing else changes |
| EditForm.SpreadEditor.RemovePosition | components/admin/edit-spread-form.tsx:111-115 | the locale's slot list becomes RemoveSlot of the old one; nothing else changes |
| EditForm.SpreadEditor.SyncLayout | components/admin/edit-spread-form.tsx:117-140 | only the inactive locale's positions change, to the sync of the active ones; the active draft and all shared fields are untouched |
| EditForm.SpreadEditor.SetActiveTab | components/admin/edit-spread-form.tsx:80 | switching tabs changes nothing else |
| EditForm.SpreadEditor.SetSlug | components/admin/edit-spread-form.tsx:55 | editing the slug changes nothing else |
| EditForm.SpreadEditor.SetRecommended | components/admin/edit-spread-form.tsx:56 | toggling the flag changes nothing else |
| EditForm.SpreadEditor.Save | components/admin/edit-spread-form.tsx:172-194 | the requests are SaveRequests for the locales HandleSave attempts from the current form: one per named locale (zh only if en was absent or accepted), en first and zh last, each built from its draft with the form's slug and flag |
| EditForm.SpreadEditor.Delete | components/admin/edit-spread-form.tsx:196-202 | HandleDelete on the ids of the rows the editor was opened with: nothing without confirmation, otherwise the en id then the zh id, each if present, unless the en request fails |
| Paging.IntParam | app/api/admin/spreads/route.ts:12-13 | a missing or empty parameter gives the default, otherwise parseInt of the value |
| Paging.Offset | app/api/admin/spreads/route.ts:14 | the offset is non-negative from page 1 on, and page p ends where page p+1 starts |
| Paging.Ceil | app/api/admin/spreads/route.ts:39 | Math.ceil is the least integer at or above its argument |
| Paging.TotalPages | app/api/admin/spreads/route.ts:39 | no finite count for a zero limit; for a positive limit, the least page count whose pages hold all rows |
| Paging.PagesCover | app/api/admin/spreads/route.ts:39 | the ceiling of total/limit pages holds every row, and one page fewer does not |
| Paging.Window | app/api/admin/spreads/route.ts:21-29 | LIMIT/OFFSET returns the rows from `offset` on, in order, exactly min(limit, rows left) of them (none past the end); negative values are an error |
| Paging.EveryRowOnItsPage | app/api/admin/spreads/route.ts:12-39 | with a positive limit, row k sits on page k/limit+1, which is within the reported page count |
| Paging.PagesBeyondCountEmpty | app/api/admin/spreads/route.ts:14-39 | pages past the reported count are empty |
| Paging.Listing | app/api/admin/spreads/route.ts:8-40 | the listing exists exactly when page and limit are numbers with a non-negative window; it holds that window, the total, the page and ceil(total/limit) |
| Paging.DefaultListing | app/api/admin/users/route.ts:44-46 | without parameters the listing is the first ten rows, page 1, of ceil(total/10) pages |
| SpreadsRoute.Coordinate | app/api/admin/spreads/route.ts:84-85 | the stored coordinate is Number(v), or 0 when that is NaN |
| SpreadsRoute.CoordinateKeepsIntegers | app/api/admin/spreads/route.ts:84-85 | an integer sent as a number or as its decimal string is stored as itself |
| SpreadsRoute.CoordinateDefaultsToZero | app/api/admin/spreads/route.ts:84-85 | a missing, null or empty coordinate is stored as 0 |
| SpreadsRoute.NewSpreadRow | app/api/admin/spreads/route.ts:65-74 | the row takes slug, name and description from the body; lang defaults to "en", recommended to false, tags to [] |
| SpreadsRoute.ToNumber | app/api/admin/spreads/route.ts:84-85 | Number(v): undefined is NaN, null 0, booleans 0/1, numbers themselves, strings by StringToNumber |
| SpreadsRoute.PositionRows | app/api/admin/spreads/route.ts:77-87 | one row per given position, in order, each pointing at the new spread, with coerced coordinates |
| SpreadsRoute.Post | app/api/admin/spreads/route.ts:47-95 | a missing slug, name or description gives 400 with no change; an existing (slug, lang or "en") gives 400 with no change; a valid new body always appends the spread row and is created exactly when every position has its text columns, when created the position rows are exactly PositionRows of the body and the position counter advances by their count; otherwise it fails with no positions stored and the counter unchanged |
| SpreadsRoute.PostStoresPositions | app/api/admin/spreads/route.ts:77-88 | a successful POST appends exactly PositionRows of the body: one row per element in order, referencing the new spread, with serial ids from the position counter, the element's index, name and description, and coordinates Number(v) or 0; the counter advances by the count |
| SpreadsRoute.Stored | app/api/admin/spreads/route.ts:65-88 | an accepted POST appends the new spread row and advances the spread serial, whatever happens to the positions |
| SpreadsRoute.StoredConsistent | app/api/admin/spreads/route.ts:65-88 | the inserts of an accepted POST keep the tables consistent |
| SpreadsRoute.PostPreservesConsistency | app/api/admin/spreads/route.ts:56-63 | POST keeps (slug, lang) unique, ids increasing and every position pointing at a spread |
| SpreadsRoute.AddSpreadKeepsConsistent | app/api/admin/spreads/route.ts:57-74 | inserting a spread whose (slug, lang) is free keeps the tables consistent |
| SpreadsRoute.AddPositionsKeepsConsistent | app/api/admin/spreads/route.ts:77-88 | inserting positions for an existing spread keeps the tables consistent |
| SpreadsRoute.SpreadTable.constructor | lib/db/schema.ts:4-28 | empty tables are consistent |
| SpreadsRoute.SpreadTable.Create | app/api/admin/spreads/route.ts:47-95 | the handler's response and the new tables are those of Post, and consistency is preserved |
| UsersRoute.NewUser | app/api/admin/users/route.ts:24-31 | the stored password is hash(password); role defaults to "user", status to "active"; balance 10, plan "basic", no expiry |
| UsersRoute.Strip | app/api/admin/users/route.ts:65-68 | every column except the password is carried over |
| UsersRoute.WithPassword | app/api/admin/users/route.ts:65-68 | restoring a password and stripping it again gives the listed user back |
| UsersRoute.StripLosesOnlyPassword | app/api/admin/users/route.ts:65-68 | the stripped user plus the password is the original row |
| UsersRoute.StripAll | app/api/admin/users/route.ts:65-68 | one listed user per row, in order, each the row minus its password |
| UsersRoute.List | app/api/admin/users/route.ts:40-75 | the users page is the paged window of rows without passwords, with total, page and ceil(total/limit) |
| UsersRoute.UserTable.constructor | lib/db/schema.ts:38-58 | an empty users table is consistent |
| UsersRoute.UserTable.Create | app/api/admin/users/route.ts:9-38 | missing email or password gives 400 with no change; a present email gives 400 with no change; otherwise exactly NewUser is appended, and emails stay unique |
| MonthlyCredits.Renewed | app/api/cron/monthly-credits/route.ts:21-25 | a renewed row has 10 credits expiring thirty days after now, no longer qualifies, and differs from the old row only in those columns and updatedAt |
| MonthlyCredits.NeedsRenewal | app/api/cron/monthly-credits/route.ts:26-34 | only basic-plan users are selected; among them, those with no expiry always, and those with one exactly when it is before now |
| MonthlyCredits.EligibilityPersists | app/api/cron/monthly-credits/route.ts:26-34 | a user selected now would be selected by any later run |
| MonthlyCredits.RenewAll | app/api/cron/monthly-credits/route.ts:20-34 | exactly the rows on the basic plan whose credits have no expiry or expired before now are renewed; all others are unchanged |
| MonthlyCredits.CountEligible | app/api/cron/monthly-credits/route.ts:39 | the count is the number of selected rows, zero exactly when no row qualifies |
| MonthlyCredits.RenewedEmailsAppend | app/api/cron/monthly-credits/route.ts:35 | RETURNING email works row by row, so the emails come in table order |
| MonthlyCredits.RenewedEmailsSingle | app/api/cron/monthly-credits/route.ts:35 | a single row yields its email exactly when it is renewed |
| MonthlyCredits.EmailsMatchCount | app/api/cron/monthly-credits/route.ts:39-40 | one email is returned per renewed row |
| MonthlyCredits.RenewIdempotent | app/api/cron/monthly-credits/route.ts:17-33 | running again at the same now renews nobody and changes nothing |
| MonthlyCredits.RenewChangesOnlySelected | app/api/cron/monthly-credits/route.ts:20-34 | unselected rows are unchanged, and no row changes id, email, password, plan, role or status |
| MonthlyCredits.ExpiryAtNowNotRenewed | app/api/cron/monthly-credits/route.ts:31 | credits expiring exactly at now are not renewed |
| MonthlyCredits.RenewPreservesConsistency | app/api/cron/monthly-credits/route.ts:20-34 | renewal keeps emails unique and ids intact |
| MonthlyCredits.RenewMonthlyCredits | app/api/cron/monthly-credits/route.ts:8-42 | the row-by-row update leaves the table equal to RenewAll of the old one, returns the renewed emails in order, and updatedCount equals the number of renewed rows |
| CodesRoute.BatchSize | app/api/admin/codes/route.ts:27 | a missing or zero count gives one code, a positive count that many, a negative count none |
| CodesRoute.NewCodes | app/api/admin/codes/route.ts:27-32 | BatchSize codes, code i being the prefix (or "") plus the i-th generated suffix, all with the requested points and description/expiry or null |
| CodesRoute.CodesCarryPrefix | app/api/admin/codes/route.ts:28 | every code starts with the prefix and is ten characters longer than it |
| CodesRoute.CodeTable.constructor | lib/db/schema.ts:81-91 | an empty codes table is consistent |
| CodesRoute.CodeTable.Generate | app/api/admin/codes/route.ts:19-41 | created exactly when points are positive and the batch is non-empty, and then the batch is appended unused with serial ids from the old counter on, the counter advances by the count, and the count equals the rows inserted; otherwise (400 for points, failure for an empty batch) nothing is stored |
| CodesRoute.InsertKeepsIds | lib/db/schema.ts:81-91 | appending a batch at the next serial id keeps ids increasing, at least 1 and below the advanced serial counter |
| ExportCodes.UnusedCodes | components/admin/export-codes-dialog.tsx:40 | a code is kept exactly when it is in the list and unused |
| ExportCodes.UnusedAppend | components/admin/export-codes-dialog.tsx:40 | the filter distributes over concatenation, so it keeps the original order |
| ExportCodes.UnusedKeepsUnused | components/admin/export-codes-dialog.tsx:40 | a list of unused codes passes unchanged |
| ExportCodes.SortedDistinct | components/admin/export-codes-dialog.tsx:44-45 | the result is strictly ascending and has exactly the values of the input |
| ExportCodes.PointOptions | components/admin/export-codes-dialog.tsx:43-46 | strictly ascending, holding exactly the point values of unused codes |
| ExportCodes.WithPoints | components/admin/export-codes-dialog.tsx:51 | a code is kept exactly when it has the given points |
| ExportCodes.WithPointsAppend | components/admin/export-codes-dialog.tsx:51 | the filter distributes over concatenation, keeping order and repetitions |
| ExportCodes.WithPointsSingle | components/admin/export-codes-dialog.tsx:51 | a single code is kept exactly when it has the points |
| ExportCodes.FilteredCodes | components/admin/export-codes-dialog.tsx:49-52 | "all" shows the unused codes; a number shows the unused codes with those points, in order; NaN shows none; a used code is never shown |
| ExportCodes.SelectingPointValue | components/admin/export-codes-dialog.tsx:51 | selecting String(p) shows exactly the unused codes worth p |
| ExportCodes.CopyText | components/admin/export-codes-dialog.tsx:54-57 | an empty selection copies nothing; one code copies that code |
| ExportCodes.CopyTextRoundTrip | components/admin/export-codes-dialog.tsx:57 | splitting the copied text at line breaks gives back the codes in order |
| Middleware.Middleware | middleware.ts:5-29 | the function alone: paths outside the /admin prefix pass; the login page with a valid token goes to /admin; other prefixed paths without one go to /admin/login; no redirect targets the requested path |
| Middleware.PassesThrough | middleware.ts:9-28 | a request passes exactly when it is outside /admin, or is the login page while signed out, or another admin page while signed in |
| Middleware.EmptyTokenSignedOut | middleware.ts:10-15 | a missing and an empty cookie are treated alike, as signed out |
| Middleware.RedirectSettles | middleware.ts:17-25 | following a redirect never leads to a second one |
| Middleware.Gate | middleware.ts:5-33 | with the matcher: unmatched paths pass; the login page with a valid token goes to /admin; other matched paths without one go to /admin/login; the rest pass |
| Middleware.GateRedirectSettles | middleware.ts:18-33 | both redirect targets are matched and pass the gate, so a request is redirected at most once |
| Middleware.LookalikePathPasses | middleware.ts:9-33 | the function's own prefix test would guard "/administrator", but the matcher never runs it there, so it passes |

## Left out

- Rendering, CSS classes, SVG markers, the grid and the card-size constants 13.814/23.824 are presentation and are not modelled. This includes the card width/height percentages (components/admin/spread-canvas.tsx:36-37, 146-147).
- fetch, router navigation, alert and confirm, clipboard writes and the copy-feedback timer are not modelled:
  - saves and deletes are the ordered list of requests they issue;
  - the server's answer is a parameter;
  - confirmation is a boolean.
- Nothing is atomic across requests or tables. The model shows this rather than hiding it: a save can store en and then fail on zh, and a spread row can stay behind when its position insert fails.
- Positions.Sort: labels that `parseInt` cannot read sort after all numbered ones, in array order. In the source the comparator then returns NaN, and the resulting order depends on the engine.
- Board.PointerToBoard and Canvas.SpreadCanvas.MouseMove require a container with positive width and height. A zero-size container gives Infinity or NaN in the source.
- The missing-container check in the move handler is not modelled.
- Coordinates are integers. The form's numeric inputs (components/admin/edit-spread-form.tsx:317, 326) store Number(value) without rounding or clamping, so a draft could hold fractions, NaN or values off the board. The model keeps integers and does not clamp them.
- EditForm.SpreadEditor.HandlePositionChange requires an index inside the list. The form only calls it from the rendered rows. Editing a slot's `id` field is not modelled.
- Text.StringToNumber: `Number` is modelled for blank strings, signed decimal integers and 0x/0o/0b literals. Fractions, exponents and "Infinity" are treated as NaN here.
- JSON values other than strings, booleans, integers and null are not modelled (no arrays or objects in place of a scalar). Non-integer `count` or `points` for codes are not modelled either.
- Database behaviour is reduced to in-memory sequences. This leaves out:
  - the search filter and the newest-first ordering, which are applied before paging;
  - the order of RETURNING rows, taken as table order;
  - unique-constraint failures on generated codes: a collision in the generator is not modelled;
  - `Date` parsing of a code's expiry, which is kept as the given string.
- The GET handlers of the codes, sessions and dashboard routes, the list pages, the search debounce and the dialog form components are not modelled. Neither are the login and logout routes, which only compare configuration values and set or delete a cookie.
- Token verification, SHA-256 hashing and the id generator are parameters. Their code is not part of this model.
- The POST handlers of the spreads, users and codes routes take an already-parsed body. A malformed JSON body makes `request.json()` throw, and the handler answers 500 (app/api/admin/spreads/route.ts:49, app/api/admin/users/route.ts:11, app/api/admin/codes/route.ts:21). That path is not modelled.
- Middleware.Matched: the route matcher `/admin/:path*` is modelled as "/admin" or any path below "/admin/". Trailing-slash normalisation, case handling and the rest of the matcher syntax are not modelled.
