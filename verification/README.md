# Jeweller bot — a Dafny model of its core

The jeweller bot has three parts.

- **Wax calculator (browser).** It reads a binary STL file of a wax model and shows the model's volume in cm³ and its wax weight. The volume is computed with the signed-tetrahedron (triple product) formula.
- **Order and reminder API (Python).** It stores orders, the reminders before each order's deadline, and journal entries with comma-joined tags.
- **Telegram bot and visitor counter (Node).** The bot records every visitor and answers `/start`. For admins only, it also answers `/users` and `/broadcast`.

This project models the logic of these three parts as pure Dafny functions over immutable data, and proves properties about that logic. Database tables become sequences of records and the user store becomes a map. Dates are day numbers and timestamps are integers. Everything the code reads from outside becomes a parameter: the clock, the request body, the environment, and the float decoder.

Modules:

- `Wrappers`: the `Option` type.
- `Text`: Python/JavaScript strip, split and join, order-keeping dedup, the truthiness filter, decimal rendering.
- `Mesh`: vectors, triangles, the signed volume and its invariants.
- `StlBinary`: sniffing and parsing binary STL, plus an encoder used to state the round trip.
- `Viewer`: the unit scale, the metrics, the file handler.
- `Tags`: journal tag serialization and reading back.
- `Reminders`: the set of reminder dates.
- `Sorting`: an insertion sort by an integer key.
- `Orders`: the order and reminder endpoints.
- `Visitors`: the visitor upsert and the `/api/visit` endpoint.
- `Bot`: admin ids, the `/users` listing, `/broadcast`, update dispatch.

## Model

| member | source | states |
|---|---|---|
| Mesh.Volume | public/app.js:54-72 | the volume is never negative |
| Mesh.VolumeWindingInvariant | public/app.js:54-72 | reversing the winding of every triangle leaves the volume unchanged |
| Mesh.ReverseWindingNegatesSum | public/app.js:66-69 | reversing the winding negates the signed sum of triple products |
| Mesh.TripleProductReversed | public/app.js:66-69 | swapping two vertices of a triangle negates its triple product |
| Mesh.TripleProductIsDotCross | public/app.js:122-125 | the expanded per-triangle term is `a · (b × c)` |
| Mesh.PositionsIndex | public/app.js:90-125 | coordinate `k` of triangle `i` sits at index `9i + k` of the flat position array |
| Mesh.FlatSignedSumOfPositions | public/app.js:54-72 | summing over the flat array, nine numbers per triangle, equals the per-triangle signed sum |
| Mesh.VolumeOfPositions | public/app.js:54-72 | the volume computed from the flat array equals the volume of the triangles |
| Mesh.ComputeVolumeFromPositions | public/app.js:54-72 | the loop returns `abs(sum / 6)` over the whole array, and the result is non-negative |
| Mesh.SignedSumInMillimetres | public/app.js:5-9 | a mesh drawn with every coordinate ×10 has 1000 times the signed sum |
| Mesh.VolumeInMillimetres | public/app.js:5-9 | a mesh drawn with every coordinate ×10 has 1000 times the volume |
| Mesh.UnitCubeVolume | public/app.js:54-72 | a closed unit cube of 12 triangles has volume exactly 1 |
| Mesh.FlattenInjective | public/app.js:90-125 | two triangles with the same nine coordinates are the same triangle |
| StlBinary.U32LE | public/app.js:84-85 | a little-endian 32-bit read is below 2^32 |
| StlBinary.U32LEOfEncode | public/app.js:84-85 | reading back an encoded count gives the count |
| StlBinary.EncodeU32LEOfU32LE | public/app.js:84-85 | re-encoding a read count gives back the four bytes |
| StlBinary.IsBinarySTL | public/app.js:74-80 | a buffer shorter than 84 bytes is not binary; a binary buffer is 84 bytes plus whole 50-byte records, one per counted triangle |
| StlBinary.SniffDecidedByLength | public/app.js:74-80 | a buffer is binary exactly when its length is `84 + 50 × count` |
| StlBinary.BinaryReadsInBounds | public/app.js:82-134 | for a binary buffer, the count read and every coordinate read stay inside the buffer |
| StlBinary.ParseTriangles | public/app.js:90-125 | parsing `n` records gives `n` triangles |
| StlBinary.ParseTrianglesIndex | public/app.js:90-125 | triangle `i` is read from record `i` |
| StlBinary.ReadTriangleCoords | public/app.js:91-110 | coordinate `k` of a record is the float at byte `12 + 4k` of that record |
| StlBinary.ParseBinarySTL | public/app.js:82-134 | the positions are the triangles' coordinates in order, and the volume is their volume |
| StlBinary.WalkRecords | public/app.js:90-125 | the record loop accumulates exactly the positions and the signed sum of the parsed triangles |
| StlBinary.ParseStep | public/app.js:90-125 | one loop step appends one triangle, its nine coordinates and its triple product |
| StlBinary.FlatVolumeAgrees | public/app.js:127-133 | the volume returned with the positions agrees with a recomputation from the positions |
| StlBinary.PositionsOfParse | public/app.js:90-125 | every position is the float read at its record's coordinate offset |
| StlBinary.CoordOfRecord | public/app.js:91-120 | a parsed coordinate is the float at its byte offset |
| StlBinary.EncodedIsBinary | public/app.js:74-80 | an encoded file sniffs as binary, with the right triangle count |
| StlBinary.ParseEncoded | public/app.js:82-134 | parsing an encoded file gives back the triangles of its facets, in order |
| StlBinary.EncodedRecord | public/app.js:91-110 | record `i` of an encoded file decodes to facet `i`'s vertices |
| Viewer.UpdateMetrics | public/app.js:208-213 | metrics exist exactly when a volume is known; the shown volume is the raw volume times the unit scale |
| Viewer.MetricsNonNegative | public/app.js:208-213 | a non-negative volume gives a non-negative weight no larger than the volume |
| Viewer.SameObjectSameMetrics | public/app.js:5-9 | the same object drawn in mm or in cm shows the same volume and weight |
| Viewer.UnknownUnitIsCentimetres | public/app.js:5-9 | an unknown unit behaves like cm |
| Viewer.StlExtensionCharacters | public/app.js:256-260 | the extension check accepts a name exactly when its last four characters are `.stl`, in any letter case |
| Viewer.HandleFile | public/app.js:254-271 | no file gives no change; a status-only outcome exactly for a non-`.stl` name; an accepted name is shown, and stays shown with the failure status when the read fails; a binary buffer gives the parsed positions and their volume; anything else goes to the ASCII loader |
| Text.Trim | app/main.py:42 | the result is the input minus its leading and trailing whitespace |
| Text.TrimIdempotent | app/main.py:42 | stripping twice is stripping once |
| Text.TrimEmptyIff | app/main.py:42 | the result is empty exactly when the input is all whitespace |
| Text.SplitJoin | app/schemas.py:94-95 | splitting a comma-join of comma-free pieces gives the pieces back |
| Text.JoinSplit | app/schemas.py:94-95 | joining the pieces of a split gives the text back |
| Text.Dedup | app/main.py:45 | the result has no repeats and holds exactly the input's elements |
| Text.DedupFirstOccurrenceOrder | app/main.py:45 | deduplicated elements keep the order of their first occurrence |
| Text.NonEmpty | app/schemas.py:95 | the kept pieces are exactly the non-empty ones; a list with no empty piece is kept as it is |
| Text.NonEmptyCons | app/schemas.py:95 | a piece is kept, in front, exactly when it is non-empty |
| Text.NonEmptyAppend | app/schemas.py:95 | filtering a concatenation is concatenating the filtered parts, so order and repeats are kept |
| Text.DigitsValueOfNatToString | server.js:20 | reading back a rendered natural number gives the number |
| Tags.Clean | app/main.py:42 | the result holds exactly the non-blank stripped tags |
| Tags.CleanSingle | app/main.py:42 | one tag cleans to its stripped form, or to nothing when it is blank |
| Tags.CleanAppend | app/main.py:42 | cleaning a concatenation is concatenating the cleaned parts, so order and repeats are kept |
| Tags.CleanTagsAreStripped | app/main.py:42 | every cleaned tag is non-empty and already stripped |
| Tags.SerializeTags | app/main.py:39-46 | the result is NULL exactly when the list is missing or every tag is blank, and is never the empty string otherwise |
| Tags.StoredTags | app/main.py:39-46 | the stored tags are distinct, stripped and non-blank |
| Tags.TagsFromStr | app/schemas.py:89-96 | NULL reads as no tags; a list is kept as it is; a text reads as its non-empty comma-separated pieces |
| Tags.TagsFromJoin | app/schemas.py:94-95 | a text of comma-joined pieces reads back as those pieces, minus the empty ones, in order |
| Tags.TagsRoundTrip | app/schemas.py:89-96 | when no tag contains a comma, the stored text splits into exactly the cleaned tags, each once, in first-occurrence order (so no piece is empty), and reading it back gives those tags |
| Tags.StoredTagsInFirstOccurrenceOrder | app/main.py:45 | the stored order is the order of first occurrence |
| Tags.CommaTagSplits | app/main.py:39-46 | a tag `"a,b"` is stored as `"a,b"` and reads back as two tags |
| Reminders.InsertSorted | app/main.py:83 | insertion into an ascending set keeps it strictly ascending and adds exactly the new element |
| Reminders.SortedSet | app/main.py:83 | `sorted(set(xs))` is strictly ascending and has exactly the elements of `xs` |
| Reminders.StrictlyIncreasingUnique | app/main.py:83 | two strictly ascending sequences with the same elements are equal |
| Reminders.SortedSetOfSorted | app/main.py:83 | the sorted set of a strictly ascending list is that list |
| Reminders.ValidOffsets | app/main.py:85 | the kept offsets are exactly the present, non-negative ones |
| Reminders.DaysBefore | app/main.py:86 | a day is produced exactly when the deadline minus it is an offset |
| Reminders.ReminderDates | app/main.py:81-88 | truthy dates win and are used as a set; otherwise each valid offset gives the day that many days before the deadline; otherwise there are no dates; the dates are strictly ascending |
| Reminders.OffsetDatesNotAfterDeadline | app/main.py:84-86 | in offset mode no date falls after the deadline |
| Reminders.SortedDatesKept | app/main.py:82-83 | dates already strictly ascending are used as given |
| Sorting.InsertBy | app/main.py:225 | inserting into a key-sorted list keeps it sorted and adds exactly one copy of the element |
| Sorting.SortBy | app/main.py:225 | the result is sorted by key and is a permutation of the input |
| Sorting.PrefixBeforeRest | server.js:136-138 | in a key-sorted list, every element of a prefix has a key no larger than any element left out |
| Orders.Where | app/main.py:75-78 | the filter keeps exactly the reminders whose match equals `keep` |
| Orders.WhereAppend | app/main.py:75-78 | filtering distributes over concatenation |
| Orders.WhereCounts | app/main.py:220-224 | the filter keeps every copy of a matching reminder and no copy of any other |
| Orders.FindOrder | app/main.py:49-56 | no index exactly when no order has that id and that owner; otherwise the first such order |
| Orders.NextRowId | app/models.py:42 | the id SQLite gives a new row is larger than every id present, is 1 for an empty table, and is otherwise one more than an id present |
| Orders.NextRowIdAfterInsert | app/models.py:42 | after a row takes the next id, the next id is one more |
| Orders.InsertRemindersConsecutive | app/main.py:89-97 | inserting the reminders one by one, each with the next rowid, numbers them consecutively from the table's next rowid |
| Orders.ReplaceReminders | app/main.py:69-99 | the order's old reminders are deleted, then one unsent reminder per date is inserted; the new ids run consecutively from one more than the largest id left after the delete (1 if none), so freed ids can come back; everything else is kept |
| Orders.OrderRemindersReplaced | app/main.py:75-97 | afterwards the order's reminders are exactly the created ones |
| Orders.ReplacedRemindersNumbered | app/main.py:75-97 | the order's reminders afterwards are one per date, numbered from the next rowid of the rows the delete left |
| Orders.OtherRemindersUntouched | app/main.py:75-78 | reminders of other orders are kept, in order |
| Orders.WhereKeepsIdsDistinct | app/main.py:75-78 | filtering keeps ids distinct |
| Orders.ReplaceKeepsIdsUnique | app/models.py:39-53 | replacing reminders keeps reminder ids distinct, as the primary key demands |
| Orders.CreateOrder | app/main.py:108-124 | always succeeds; the new order carries the given fields and an id larger than every existing order's (1 in an empty table), is appended, and gets its reminders from the offsets alone |
| Orders.CreatedOrderFound | app/main.py:108-124 | the new order is the one found under its id for its user |
| Orders.CreateKeepsIdsUnique | app/main.py:108-124 | creating an order keeps reminder ids distinct |
| Orders.CreatedOrderReminders | app/main.py:121 | the new order's reminders are one unsent reminder per offset date, in date order, numbered from the next rowid of the reminders table |
| Orders.ApplyPatch | app/main.py:160-162 | fails exactly when a NOT NULL column is set to null; otherwise keeps id and owner, keeps unset fields and writes set ones |
| Orders.EmptyPatchIsIdentity | app/main.py:160-162 | an empty patch changes nothing |
| Orders.PatchIdempotent | app/main.py:160-162 | applying a patch twice is applying it once |
| Orders.OffsetsNotStored | app/main.py:160 | the reminder offsets of a patch never reach the order's columns |
| Orders.UpdateOrder | app/main.py:151-169 | 404 exactly when the order is not found; 500 exactly when it is found and the patch nulls a required column; success in every other case, and then the patched order is stored in place, with reminders replaced only when offsets were sent |
| Orders.SetOrderReminders | app/main.py:191-208 | 404 exactly when the order is not found; 400 exactly when it is found and neither offsets nor dates are truthy; success in every other case, and then the order's reminders are replaced |
| Orders.SetKeepsIdsUnique | app/main.py:191-208 | setting reminders keeps reminder ids distinct |
| Orders.SetRemindersReplaced | app/main.py:191-208 | after a successful set, the order's reminders are exactly the returned ones, and all other rows are kept in order |
| Orders.ReplacingAllRestartsAtOne | app/main.py:191-208 | when every reminder row belongs to the order, the new reminders are numbered 1, 2, … whatever the deleted rows' ids were |
| Orders.FreedIdReused | app/main.py:191-208 | with reminders 1 and 2 of order 1, setting the date 100 creates a new reminder 1 |
| Orders.RemindersDue | app/main.py:211-227 | ascending by day, with every copy of each unsent reminder of the user on or before the target day (`on`, else today) and nothing else |
| Orders.DueMembership | app/main.py:220-224 | a reminder is listed exactly when it belongs to the user, is unsent and is due by the target day |
| Orders.FindReminder | app/main.py:236-239 | no index exactly when no reminder has that id and that owner |
| Orders.MarkReminderSent | app/main.py:230-246 | 404 exactly when the reminder is not found, success exactly when it is found; then only that reminder changes, and it gets the sent time |
| Orders.MarkKeepsIdsUnique | app/main.py:242 | marking keeps reminder ids distinct |
| Orders.MarkedNoLongerDue | app/main.py:223 | once marked, a reminder is never listed as due again |
| Visitors.KeyOf | server.js:48-50 | a key exists exactly when the payload has a truthy user id |
| Visitors.Upsert | server.js:47-65 | with no user id, nothing changes; otherwise only that user's record changes: visits +1, first seen kept (or now for a new user), last seen now, and each profile field takes the new value if truthy |
| Visitors.VisitsCountVisits | server.js:47-65 | after a run of visits, a user is known exactly when known before or visiting, and the visit count grows by the number of the user's visits |
| Visitors.FirstSeenIsFirstVisit | server.js:52-60 | a new user's first-seen time is the time of their first visit |
| Visitors.UsernameIsLastTruthy | server.js:55 | the stored username is the last truthy one sent, or the earlier one |
| Visitors.HandleVisit | server.js:81-97 | 200 exactly when the body parses to an object with a truthy user id, and then the user is recorded; otherwise 400 with the store unchanged, and "invalid json" exactly when the body does not parse or is null |
| Bot.ToNumberOfIntToString | server.js:20 | `Number` of a rendered integer gives back the integer |
| Bot.AdminEntries | server.js:15-19 | the entries are the comma-separated pieces, trimmed, minus the empty ones; each is non-empty, comma-free and trimmed |
| Bot.AdminEntriesOfJoin | server.js:15-19 | comma-joined pieces give their trimmed non-empty pieces, in order |
| Bot.AdminIdsOfDecimals | server.js:15-21 | a comma-separated list of decimal ids gives exactly those ids |
| Bot.AdminEntriesOfDecimals | server.js:15-19 | the entries of a comma-joined list of decimals are those decimals |
| Bot.NumbersOfDecimals | server.js:20 | `Number` over decimal entries gives exactly their values |
| Bot.IsAdminAsWritten | server.js:99-101 | as written, a sender-less message passes the check exactly when the admin set holds `NaN` |
| Bot.UsernameEntryIsNaN | server.js:15-21 | an `@name` entry survives trimming and becomes `NaN` |
| Bot.AnonymousAdminAsWritten | server.js:99-101 | with `ADMIN_IDS=@alice`, a message without a sender passes the admin check as written |
| Bot.IsAdmin | server.js:99-101 | corrected: admin exactly when a sender is present and its id is listed; agrees with the code whenever a sender is present |
| Bot.FormatFullUser | server.js:127-131 | a user with every field set is shown as `id, first last, @username` |
| Bot.AtOnlyWithUsername | server.js:127-131 | without a username, the line has no `@` unless another field has one |
| Bot.UsersListing | server.js:135-138 | at most 50 users, by visits descending, drawn from the store, and none left out has more visits than any shown |
| Bot.TopByVisits | server.js:136-138 | the first entries of a list sorted by visits descending are the most visited |
| Bot.UsersReply | server.js:137-141 | the total, then the lines of the users `UsersListing` picks and the "first 50" note; the "empty" notice when those lines are empty |
| Bot.ReplaceFirst | server.js:218 | a leading match is removed, and the result is never longer than the input |
| Bot.BroadcastPayload | server.js:218 | the payload is the trimmed text after `/broadcast` |
| Bot.Broadcast | server.js:145-167 | empty text gives only the usage message; otherwise a start report, the text to every user in order, and a final report |
| Bot.SenderVisit | server.js:173-183 | a visit is recorded exactly when the sender has a non-zero id, and it is tagged `telegram` |
| Bot.HandleUpdate | server.js:169-221 | with the program's admin check: no message gives nothing; otherwise the sender is recorded; no chat gives no reply; `/start` gets the keyboard; `/users` and `/broadcast` get the listing or broadcast when the check admits the sender, and "no access" otherwise |
| Bot.ValuesIn | server.js:135 | the values follow the key enumeration, one per stored user |
| Bot.EnumerationCount | server.js:154 | an enumeration of the keys lists as many keys as there are users |
| Bot.NonAdminRefused | server.js:198-217 | `/users` and `/broadcast` from a sender the check refuses get only "no access" |
| Bot.EmptyBroadcastSendsUsageOnly | server.js:146-151 | `/broadcast` with a blank payload sends only the usage message |
| Bot.BroadcastReachesEveryUser | server.js:153-166 | an admin's non-empty broadcast reaches every stored user exactly once, and the first report counts them all |
| Bot.ChecksAgree | server.js:99-101 | the program's check and the corrected one dispatch alike when the sender's id is present or no admin entry is `NaN` |
| Bot.SenderlessListing | server.js:198-207 | with `NaN` among the admin ids, a sender-less `/users` gets the listing from the program and "no access" once corrected |
| Bot.AnonymousUsersAsWritten | server.js:198-207 | with `ADMIN_IDS=@alice`, the program answers a sender-less `/users` with the user listing |

## Left out

- **ASCII STL.** The `STLLoader` path for ASCII STL and all THREE.js geometry handling are not modelled. `Viewer.HandleFile` only reports that a non-binary buffer goes to the loader. If the loader throws, the program shows the same "could not read" status, and the model does not cover that. The bounding box and centering done for display are also left out.
- **Floats.** IEEE-754 single-precision decoding is a parameter: any function from four bytes to a real. Arithmetic is exact real arithmetic, so float rounding and `toFixed` formatting are not modelled.
- **I/O.** File reading, `FileReader` errors, the Telegram HTTP calls, the `setTimeout` pacing between broadcast messages, the JSON file persistence of users, the HTTP server and the database session are left out. Each handler returns its replies as data instead of sending them.
- **Key order.** The enumeration order of the users object is a parameter (`order`) of `Bot.HandleUpdate`, required to list every key exactly once. Which order JavaScript picks (integer-like keys first, ascending, then insertion order) is not derived.
- Bot.UsersListing: does not fix the order of users with equal visit counts, because it depends on the key-order parameter.
- Bot.ToNumber: only an optionally signed (`+` or `-`) run of decimal digits is read as a number; every other text is `NaN`. JavaScript's `Number` also accepts hex, binary and octal literals, exponents, fractions, `Infinity` and surrounding whitespace. Those forms do not occur in a list of Telegram ids.
- Visitors.Upsert: a user id spelled like a property of `Object.prototype` (`constructor`, `__proto__`) is stored like any other key. In JavaScript, `users["constructor"]` is already truthy, so the record loses `first_seen`, and `users["__proto__"] = …` sets the prototype instead of storing the user.
- Visitors.VisitsCountVisits: holds for visits applied one after another. `upsertUser` loads, changes and saves the file across `await`s without a lock, so two concurrent visits (from `/api/visit` and the webhook) can lose one count; concurrency is not modelled.
- Visitors.HandleVisit: a `user_id` is modelled as an integer or a string, the two JSON forms a client sends. `JSON.parse` also lets through `true` (key `"true"`), a fraction such as `1.5` (key `"1.5"`), an array (`[]` is truthy with key `""`, and `[7]` has key `"7"`, the same as `7`), an object, and integers past 2^53, which are rounded before `String` sees them. The profile fields are modelled as optional strings, although any JSON value is stored as sent. Nothing on this endpoint checks these types.
- Text.ToLower: folds ASCII letters only. JavaScript's `toLowerCase` folds all of Unicode, which matters only for non-ASCII names ending in `.stl`.
- Viewer.UnitScale: a unit name that is a key of `Object.prototype` (`"constructor"`, say) is treated as unknown. In JavaScript it would yield a non-number scale.
- **Timestamps.** The `created_at` and `updated_at` columns and the server clock are not modelled. `now` and `today` are parameters.
- Reminders.ReminderDates: the `OverflowError` Python raises for a date out of range is not modelled, because day numbers are unbounded.
- **Validation.** Request validation by the schemas (types, required fields, extra fields) happens before the handlers run and is not modelled. Ids are integers. Offsets are optional integers, since the code checks `is not None`.
- **Other endpoints.** These are not modelled: `list_orders` with its text search, `delete_order` with its cascade to reminders, the journal endpoints other than the tag encoding, the health endpoint and the static file server. `db.py` contributes only the fact that the database is SQLite. `storage.py` is not part of this model.
- Orders.NextRowId: SQLite picks a random unused rowid once the largest id is 2^63 − 1. Ids here are unbounded integers, so that case is not modelled.
- Bot.FormatUserLine: is specified by examples (`Bot.FormatFullUser`, `Bot.AtOnlyWithUsername`) rather than by a full contract.
- **The unit factor.** Scaling a millimetre volume by 0.001 is correct (1 cm³ = 1000 mm³), as `Viewer.SameObjectSameMetrics` proves; it is not a defect.

## Findings

| source | as written | input that shows it | evidently intended | confidence | as-written member | corrected member |
|---|---|---|---|---|---|---|
| server.js:99-101 | each `ADMIN_IDS` entry goes through `Number`, so an entry like `@alice` becomes `NaN`; `isAdmin` then calls `Set.has(Number(userId))`, and `Number(undefined)` is `NaN`, which `Set.has` matches | `ADMIN_IDS=@alice` and an update whose message has no `from` | only a present sender whose numeric id is listed is an admin | low, not executed | Bot.AnonymousUsersAsWritten | Bot.IsAdmin |
