# Verified model of core-go

This project models the parts of the sr.ht `core-go` library in which separately written pieces of
code have to agree, and proves that they do, or says exactly when they do not. It is written in
Dafny; `dafny verify dfyconfig.toml` checks all of it.

| modules | subject |
|---|---|
| `Bytes`, `Sorting`, `Sublists`, `Text`, `Arithmetic` | Go strings as byte sequences with their order, `sort.Slice` with ties in any order, `strings.Split` |
| `Quoting`, `Fields`, `RowQueries`, `FieldQueries`, `RowAlignment` | the field map of a model with its lazily built indexes; column lists and pointer lists built independently of each other |
| `Base64`, `Hex`, `Bare`, `Bearer`, `Grants` | bearer tokens and the grant language |
| `LegacyFilter` | the `LIKE` prefilter and the comma-separated check of legacy subscriptions |
| `Transactions`, `Delivery`, `DeliveryRuns`, `DeliveryTheorems` | `WithTx`, the two webhook queues as code and as a state machine, and whole runs of it |
| `LegacyScheduling`, `NativeScheduling` | scheduling by each of the queues: in two stages, and over subscriptions with stored authorities |
| `Signing` | payload signatures over Go slices that share a backing array |
| `AuthContexts`, `OAuth2Join`, `Handlers`, `Authority` | from a request to an authentication context, to a stored webhook authority, to the context a webhook runs in |
| `Validation` | assertion chains over a shared error log |

Code that changes state is modelled by classes and methods (`ModelFields`, `Database`,
`WebhookQueue`, `Exchange`, `Validation`), each method proved equal to a specification function or to
a property of the old and the new state; the theorems are about those functions and states. The
outside world is always an argument: what the network, the database and the clock do, in which order
a map is ranged over (`:|`), how a sort breaks ties (only its contract is used), and which goroutine
moves next. So each statement holds for every such outcome.

The authenticator and the signature scheme are arbitrary functions; all that is assumed of them is a
result of 32 bytes, and that verification accepts what signing makes.

## Where the code and its promises part

Each of these is stated with its exact condition, and has a lemma at an input that fails.

* `SelectAll` and `ScanAll` line up exactly when no SQL name is empty and no name, cut at its first NUL
  byte, extends another by a byte below `"` (0x22) (`RowQueries.AlignedExactly`, `RowQueries.MisalignedFields`).
* The `LIKE` prefilter loses nothing exactly when the event holds a comma, or its own pattern finds the
  event itself; no backslash is enough (`LegacyFilter.TwoStagesExactly`, `LegacyFilter.BackslashLoses`).
* Scheduling is all or nothing except when the commit of a complete transaction reports `ErrTxDone`,
  which `WithTx` turns into success, or the queue has shut down
  (`DeliveryTheorems.AllOrNothingExactly`, and over runs `OneRecordEachExactly`, `TxDoneLosesRecord`,
  `ShutdownOrphansRecord`).
* `OAuth2` also needs readable grants: a token with malformed grants that passes every check panics,
  and so does a suspended user without a suspension notice (`OAuth2Join.GoesOnExactly`,
  `OAuth2Join.UnreadableGrantsPanic`, `Handlers.SuspendedWithoutNoticePanics`).
* `internalAuth` answers 403 for a missing client or node identifier and then handles the request all
  the same (`Handlers.InternalGoesOnExactly`, `Handlers.UnidentifiedPayloadHandled`); an unknown legacy
  token is answered twice (`Handlers.LegacyGoesOnExactly`, `Handlers.UnknownTokenAnsweredTwice`).
* `internalAuth` accepts a remote address without port, but keeps the error of splitting it, which only
  the two lookups overwrite: an anonymous payload from such an address is answered 403
  (`Handlers.InternalGoesOnExactly`, `Handlers.BareAddressRefused`).
* An empty grant string is every permission, so adding another service's grants to it takes
  permissions away (`Grants.EmptyListIsAll`).
* An expiry beyond Go's calendar counts as passed, because the shift to it wraps around at 64 bits
  (`Bearer.ExpiredExactly`, `Bearer.FarExpiryHasPassed`).

What follows from scheduling in one transaction and from rebuilding each creator's authority in it: one
subscription whose creator's token has expired keeps the native queue from scheduling the event for
anybody, from then on (`NativeScheduling.ScheduledExactly`, `NativeScheduling.ExpiredSilencesEvent`).

## Model

| member | source | states |
|---|---|---|
| Sorting.SortedUnique | database/sq.go:118 | sorted lists of strings with the same elements are equal, so the outcome of `sort.Strings` is unique |
| Sorting.SortedKeysUnique | database/ql.go:44-46 | however `sort.Slice` places equal names, the list of names it leaves is the one sorted list |
| Bytes.LeqExactly | database/sq.go:125-127 | the order of the sorts is that of dictionaries by bytes: a prefix first, else the first byte that differs decides |
| Quoting.ReadWithAlias | database/ql.go:103-109 | read by SQL's rule for quoted identifiers, an aliased column is that column of that alias, whatever bytes the names hold (up to a NUL) |
| Quoting.TruncateExactly | database/ql.go:103-109 | what is cut off a name begins with its first NUL |
| Quoting.PlainWithAlias | database/ql.go:103-109 | names without quotation mark and NUL are each put in quotation marks, with a full stop between; the alias only if there is one |
| Quoting.WithAliasInjective | database/ql.go:103-109 | two aliased columns have the same text only if alias and name agree up to a NUL |
| Quoting.WithAliasOrder | database/ql.go:103-109 | for names in order, the aliased texts are in order exactly when the later name does not extend the earlier by a byte below 0x22 |
| Fields.ModelFields.BuildCache | database/sq.go:27-48 | builds both indexes and the anonymous list from the current order of the fields, once: a second call changes nothing and never doubles the anonymous list |
| Fields.ModelFields.GQL | database/sq.go:50-57 | gives the ordered sublist of the fields at build time with that non-empty name, and nothing exactly when it is empty |
| Fields.ModelFields.SQL | database/sq.go:59-66 | gives the ordered sublist of the fields at build time with that SQL name, and nothing exactly when it is empty |
| Fields.ModelFields.AnonymousFields | database/sq.go:72-75 | gives the fields at build time without GQL name, in order |
| Fields.IndexOfIsIndex | database/sq.go:34-47 | the loop's map has for each key the ordered sublist of the fields with that key, and no entry for an empty list |
| Fields.BucketInOrder | database/sq.go:34-47 | the list of a key is made of exactly the fields with that key, each once, in the order of the fields |
| Fields.SqlIndexPartitions | database/sq.go:43-46 | ranged over in any order, the SQL index holds every field exactly as often as the field list does |
| Fields.GqlIndexPartitions | database/sq.go:35-42 | ranged over in any order, the GQL index together with the anonymous list holds every field exactly as often as the field list does |
| Fields.IndexesHoldFields | database/sq.go:19-75 | in every valid state the two indexes, the GQL one with the anonymous list, hold the current fields, however these were reordered since |
| RowQueries.RangeColumns | database/sq.go:113-117 | for every order of ranging over the map, the columns are those of all fields, once per field |
| RowQueries.SelectAll | database/sq.go:109-121 | the sorted list of the aliased columns of all fields, and the fields and indexes are kept |
| RowQueries.ScanAll | database/sq.go:123-136 | sorts the shared field list in place by SQL name, ties in any order, gives the pointers of the named fields in that order, and leaves the indexes as they were |
| RowQueries.WithColumnInOrder | database/sq.go:130-134 | the named fields are exactly those with a non-empty SQL name, each once, in order |
| RowQueries.AlignedExactly | database/sq.go:109-136 | column i is the aliased name of the field of pointer i, for all i and with equal lengths, exactly when every name is non-empty and none extends another by a low byte |
| RowQueries.MisalignedFields | database/sq.go:109-136 | under any alias, the columns `a` and `a!` do not line up, nor does a field without column |
| RowQueries.PrintableNamesAlignable | database/sq.go:109-136 | non-empty names with all bytes above 0x22 line up |
| RowQueries.SelectThenScan | database/sq.go:109-136 | the two calls on one model line up exactly under a condition on the fields before the calls |
| FieldQueries.CollectFields | database/ql.go:14-31 | nothing outside GraphQL; else the children of the first field that is named `results`, byte by byte, or the whole selection if none is |
| FieldQueries.SelectedExactly | database/ql.go:19-28 | the selection that `Columns` and `Scan` work on is unwrapped exactly at its first `results` field |
| FieldQueries.ColumnReadBack | database/ql.go:82-98 | a column's text, read by SQL, is the field's column qualified by the alias, or by the table for anonymous fields without alias; the name of a named field is taken as it is when it holds a full stop |
| FieldQueries.Columns | database/ql.go:64-101 | the texts of the row of the selection: requested fields by sorted name, then the anonymous fields |
| FieldQueries.Scan | database/ql.go:33-62 | the pointers of that same row, computed by its own unstable sort |
| RowAlignment.ApplyAll | database/sq.go:27-136 | any program of calls on a model, `ScanAll` included, keeps built indexes and keeps the fields up to their order |
| RowAlignment.ColumnsThenScan | database/ql.go:33-101 | `Columns` and a later `Scan`, with any calls in between, give lists of equal length whose i-th entries come from the same field |
| RowAlignment.RowCount | database/ql.go:80-99 | a field is transferred once for each request of its name, an anonymous field once |
| RowAlignment.SelectionRow | database/ql.go:33-101 | while a GraphQL field is resolved, a field is transferred once for each request of its name in the unwrapped selection, an anonymous one once |
| RowAlignment.FullRow | database/ql.go:67-99 | outside GraphQL and for an empty selection, each field is transferred as often as the model has fields of its name |
| RowAlignment.RowOrder | database/ql.go:76-99 | the named fields come first, sorted by GQL name, and then the anonymous ones in their own order |
| RowAlignment.FullRowLength | database/ql.go:67-99 | outside GraphQL and for an empty selection, the length is the sum over distinct names of the squared number of fields with that name, plus the anonymous fields |
| Base64.RawRoundTrip | auth/bearer.go:44-48 | unpadded base64 decodes to what was encoded, for every length |
| Base64.RoundTrip | crypto/crypto.go:101-107 | padded base64 decodes to what was encoded, for every length |
| Base64.RawEncodeDigits | auth/bearer.go:44 | unpadded base64 of n bytes has ceil(4n/3) characters, all of the alphabet |
| Base64.RawEncodeGroup | auth/bearer.go:44 | each three bytes are written as the characters of the standard table for the four sixes of their 24 bits, the high ones first |
| Base64.EncodePadded | crypto/crypto.go:101-102 | padding adds equals signs, at most two, up to a multiple of four characters |
| Base64.LineBreaksSkipped | auth/bearer.go:48 | line feeds and carriage returns are left out of what is decoded, and nothing else |
| Base64.RawDecodeExactly | auth/bearer.go:48 | which texts decode without padding, and to how many bytes |
| Base64.RawDecodeGroup | auth/bearer.go:48 | each four digits decode to the three bytes of their 24 bits; bits that fill no byte are not looked at |
| Base64.DecodeExactly | crypto/crypto.go:107 | a padded text decodes exactly when, without line breaks, it is of a multiple of four characters and an unpadded one with at most two equals signs |
| Hex.RoundTrip | webhooks/context.go:56-59 | hexadecimal text decodes to what was encoded |
| Hex.EncodeAt | crypto/crypto.go:100 | each byte is written as two digits of the lower-case table, the high half first |
| Hex.DecodeExactly | webhooks/context.go:56 | a text decodes exactly when it is made of pairs of digits of either case, and to their bytes |
| Bare.UintRoundTrip | auth/bearer.go:31 | a variable-length number is read back, with whatever follows it |
| Bare.ReadUintBounded | auth/bearer.go:72 | a number that is read fits in 64 bits |
| Bare.I64RoundTrip | auth/bearer.go:32 | a little-endian two's-complement number is read back, with whatever follows it |
| Bare.StringRoundTrip | auth/bearer.go:33-35 | a length-prefixed string is read back exactly when it is valid UTF-8 |
| Bare.WriteUintExactly | auth/bearer.go:31 | a number is written as the shortest base-128 bytes that spell it, the low ones first |
| Bare.ReadUintSpells | auth/bearer.go:72 | a text begins with a number exactly when a prefix of at most ten bytes, of the tenth one bit, spells it |
| Bare.WriteI64Exactly | auth/bearer.go:32 | an expiry is written as eight bytes in two's complement, the low one first |
| Bare.ReadStringExactly | auth/bearer.go:33-35 | a string is read exactly where a number is followed by that many bytes of valid UTF-8 |
| Bare.ValidUtf8Exactly | auth/bearer.go:72 | the byte checks accept exactly the encodings of lists of Unicode scalar values |
| Bearer.ExpiredExactly | auth/bearer.go:22-24 | for every clock reading and timestamp: it has passed once the clock is past its second, or when it lies beyond the calendar's 64 bits |
| Bearer.FarExpiryHasPassed | auth/bearer.go:76 | the last second of 64-bit Unix time counts as passed in 1970 |
| Bearer.MarshalRoundTrip | auth/bearer.go:30-42 | a serialized token is read back exactly when its strings are valid UTF-8, whatever bytes follow it |
| Bearer.MarshalLayout | auth/bearer.go:30-39 | the bytes of a token: version, eight bytes of expiry, and with its length in front of each, the grants, the client and the user name |
| Bearer.UnmarshalExactly | auth/bearer.go:71-72 | exactly which bytes are read as a token, and as which |
| Bearer.TokenBytes | auth/bearer.go:43-44 | a token text is the unpadded base64 of its serialization followed by the authenticator of that |
| Bearer.TokenRoundTrip | auth/bearer.go:38-81 | decoding an encoded token gives that token exactly when it has version 0, valid UTF-8 and time left, and nothing otherwise |
| Bearer.EncodeInjective | auth/bearer.go:38-45 | two UTF-8 tokens with the same encoding are the same token |
| Bearer.AcceptedExactly | auth/bearer.go:47-81 | a token text is accepted as a token exactly when it is a non-empty body with that body's authenticator, and the body says that current, unexpired token |
| Bearer.EncodedTokenIsOAuth2 | auth/middleware.go:35-38 | every encoded token has ceil(4n/3) characters for its n >= 44 bytes, at least 59, matches the OAuth 2.0 pattern and not the legacy one |
| Bearer.PatternsExactly | auth/middleware.go:36-37 | the two patterns, character by character |
| Text.SplitJoin | auth/bearer.go:106-117 | splitting pieces that were joined gives the pieces back |
| Text.SplitCount | auth/bearer.go:112-115 | there is one more piece than there are separators |
| Grants.DecodeGrants | auth/bearer.go:96-133 | the loop gives the access map of the listed grants, or panics |
| Grants.PanicsExactly | auth/bearer.go:112-115 | decoding panics exactly when the text is not empty and some piece does not hold exactly one slash |
| Grants.HasScansFromRight | auth/bearer.go:135-155 | for every decodable text, `Has` answers by the last grant for this service and scope |
| Grants.PrintedGrants | auth/bearer.go:96-155 | for every non-empty list of well-formed grants, printing and decoding it answers by the last grant for this service and scope |
| Grants.PrintedText | auth/bearer.go:106-123 | the texts of that theorem are `service/scope` and `service/scope:access`, with single spaces between |
| Grants.WrittenMeans | auth/bearer.go:111-123 | a written grant is read as its service, scope and access, which is `RO` unless it is written |
| Grants.ParseLongGrant | auth/bearer.go:116-123 | what follows a second colon is not looked at |
| Grants.LastAccessExactly | auth/bearer.go:124-126 | the last access is that of a grant for service and scope which no later one is for |
| Grants.HasPanicsExactly | auth/bearer.go:136-138 | `Has` panics exactly on a mode other than `RO` and `RW` |
| Grants.OtherServicesIgnored | auth/bearer.go:124-126 | grants of other services, inserted anywhere into a non-empty list, change no answer |
| Grants.EmptyListIsAll | auth/bearer.go:97-104 | the empty list permits everything, a list of other services' grants nothing |
| Grants.ReadOnlyRemovesWrites | auth/bearer.go:135-155 | read-write includes read-only, and `ReadOnly` removes the read-write answers and no others |
| Grants.EncodeKeepsText | auth/bearer.go:157-159 | a decoded list prints as the text it was decoded from |
| LegacyFilter.FetchSubscriptions | webhooks/legacy.go:98-151 | the loop keeps the prefiltered rows whose list names the event, in row order |
| LegacyFilter.ListedInOrder | webhooks/legacy.go:124-143 | the selected subscriptions are exactly the rows whose list names the event, each once and in row order, with their id, creation, URL and split list |
| LegacyFilter.PrefilterInOrder | webhooks/legacy.go:110-113 | the database returns exactly the rows whose list is `LIKE` the event between two percent signs, in order |
| LegacyFilter.LikeOne | webhooks/legacy.go:112 | what the patterns of one character match |
| LegacyFilter.LikeInParts | webhooks/legacy.go:112 | a text matches a longer pattern exactly when a first part matches the first part of it and the rest the rest, wherever it is cut outside an escape |
| LegacyFilter.SelfMatchingFoundAnywhere | webhooks/legacy.go:112 | an event that its own pattern finds is found inside every text that holds it |
| LegacyFilter.TwoStagesExactly | webhooks/legacy.go:110-143 | prefilter and check select what the check alone selects, on every table, exactly when the event holds a comma or its pattern finds the event itself |
| LegacyFilter.NoBackslashLosesNothing | webhooks/legacy.go:110-143 | an event without backslash loses no row, `%` and `_` included |
| LegacyFilter.BackslashLoses | webhooks/legacy.go:112 | the event `a\b` loses a subscription to `a\b` |
| LegacyFilter.ListedMembers | webhooks/legacy.go:131-143 | a subscription is selected exactly when it holds the fields of a row whose comma-separated list names the event |
| Transactions.Database.WithTx | database/middleware.go:46-70 | the committed table, the identifiers and the result (nil, error, panic) for every outcome of connecting, beginning, the callback, rollback and commit |
| Transactions.Database.Run | webhooks/queue.go:93-109 | the callback's loop stops at the first failure, having inserted for the subscriptions before it |
| Transactions.InsertsExactly | webhooks/queue.go:95-108 | the loop inserts consecutive records for exactly the subscriptions before the first failing one, in order |
| Transactions.TxKeepsRecords | database/middleware.go:46-70 | no transaction removes a record, or changes one other than the record it responds to |
| Transactions.SequenceKept | webhooks/queue.go:177-185 | identifiers are given out in sequence, and not again after a rollback |
| Delivery.WebhookQueue.Plan | webhooks/queue.go:92-117 | transaction and enqueueing loop together: table and queue afterwards |
| Delivery.WebhookQueue.Schedule | webhooks/queue.go:72-121 | does in place what `LegacyScheduling.ScheduledExactly` and `NativeScheduling.ScheduledExactly` characterize |
| Delivery.WebhookQueue.DeliverPayload | webhooks/queue.go:205-270 | the recorded answer and the result of one attempt, for both queues |
| Delivery.WebhookQueue.Dispatch | webhooks/queue.go:191-193 | given a first-in first-out queue: the head is attempted, and its result, 'do not reattempt' and the retry bound decide whether it is queued again or finished |
| DeliveryRuns.StepKeepsBooks | webhooks/queue.go:92-117 | whatever an event and its environment do, identifiers stay unique and tasks and records stay in balance, up to the identifiers that `Lost` and `Orphaned` name |
| DeliveryRuns.RunKeepsBooks | webhooks/queue.go:72-270 | the same in every state that any run reaches |
| DeliveryTheorems.RunKeepsTies | webhooks/queue.go:95-108 | in every reachable state a queued or finished delivery that has a record has the record of its own subscription |
| DeliveryTheorems.OneRecordEachExactly | webhooks/queue.go:92-117 | after any run, deliveries and records match one to one, each with its own subscription's record, exactly when no event is a complete planning transaction that ends in `ErrTxDone` while the queue accepts, or commits after it has shut down |
| DeliveryTheorems.LosesExactly | database/middleware.go:64-69 | an event queues tasks without records exactly when a complete planning transaction ends in `ErrTxDone` while the queue accepts, and commits records without tasks exactly when it commits after the queue has shut down |
| DeliveryTheorems.LostInExactly | webhooks/queue.go:92-117 | a run has lost, or orphaned, nothing exactly when none of its events does |
| DeliveryTheorems.TxDoneLosesRecord | database/middleware.go:64-69 | one scheduled delivery whose commit reports `ErrTxDone` is a delivery without record |
| DeliveryTheorems.ShutdownOrphansRecord | webhooks/queue.go:115-117 | one delivery scheduled after shutdown is a record without delivery |
| DeliveryTheorems.OrdinaryRuns | webhooks/queue.go:72-270 | without shutdown and `ErrTxDone` on commit, every queued or finished delivery owns exactly one record and every record is owned |
| DeliveryTheorems.RecordsConserved | webhooks/queue.go:165-202 | after any run, pending, delivered, failed and orphaned add up to records and lost |
| DeliveryTheorems.RecordShowsLastAnswer | webhooks/queue.go:244-259 | along any run a record stays, and shows the last answer its own task received and recorded |
| DeliveryTheorems.RunKeepsAttempts | webhooks/queue.go:193 | no task is attempted more often than its bound |
| DeliveryTheorems.DispatchDecreases | webhooks/queue.go:191-193 | each dispatch lowers the measure of remaining attempts, unless a panic ends the process |
| DeliveryTheorems.PlanningPanicsExactly | webhooks/queue.go:92-109 | a planning transaction panics exactly when it begins and the loop reaches a subscription whose execution panics, or its commit (else its rollback) fails |
| DeliveryTheorems.CrashesExactly | webhooks/queue.go:72-270 | a run ends with the process down exactly when one of its events, in the state before it, meets a task that panics; a task is then left in the queue |
| DeliveryTheorems.Drains | webhooks/queue.go:191-193 | as many dispatches as the measure says empty the queue, whatever the network does, exactly when none of them takes the process down |
| DeliveryTheorems.DrainedRun | webhooks/legacy.go:154-266 | any ordinary history followed by enough dispatches empties the queue exactly when no event takes the process down, and then there is one delivered or failed delivery for each record |
| DeliveryTheorems.QuietRunsEnd | webhooks/legacy.go:154-266 | if no event brings anything that can panic, the process stays up and every record's delivery ends |
| DeliveryTheorems.AllOrNothingExactly | webhooks/queue.go:92-117 | either every subscription has a fresh record and, in order, its own task, or nothing is left behind, except exactly after `ErrTxDone` on commit or a shutdown |
| DeliveryTheorems.RetriedExactly | webhooks/legacy.go:225-265 | an attempt ends the process exactly when ending the recording transaction panics; else it is repeated exactly on a transport error or 502, 503, 504 with attempts left, in the legacy queue only if the transaction connected, began, was accepted and committed without error; else the delivery ends, as failed exactly on those without attempts left and on errors not worth repeating |
| DeliveryTheorems.EndsExplained | webhooks/queue.go:205-270 | along any run every finished delivery ended at one event, its own last attempt: a delivered one was answered, a failed one used up its attempts or met an error not worth repeating |
| LegacyScheduling.ScheduledExactly | webhooks/legacy.go:55-90 | scheduling queues one planning task behind all others exactly when there are subscriptions and the queue accepts, and touches nothing else |
| LegacyScheduling.PlanningExactly | webhooks/legacy.go:67-88 | one dispatch of a planning task in full: when it panics, which records and tasks there are afterwards, and when it is repeated or given up |
| LegacyScheduling.QueueAdvances | webhooks/legacy.go:86-89 | along any run tasks keep their order: as many dispatches as there are tasks in front bring a task to its turn |
| LegacyScheduling.LegacyScheduledExactly | webhooks/legacy.go:50-90 | after any history, a scheduled event is planned at the dispatch that follows those of the tasks before it, and gives every subscription its record and its task exactly when that transaction does all its work and commits for a queue that accepts |
| NativeScheduling.StageExactly | webhooks/queue.go:165-189 | preparing a delivery for a stored subscription fails exactly when its creator's token has expired, and else goes as the rest of it does |
| NativeScheduling.OtherMethodPanics | webhooks/context.go:52-54 | a configuration of another method than OAuth 2.0 panics when its turn comes |
| NativeScheduling.OneStopsAll | webhooks/queue.go:95-112 | one subscription that cannot be prepared, at whatever place, leaves every subscriber of the event without a delivery |
| NativeScheduling.ScheduledExactly | webhooks/queue.go:92-117 | every subscriber gets a record and a task exactly when no creator's token has expired at its turn, the rest of each preparation works, and the transaction commits for a queue that accepts; one expired token leaves nobody anything |
| NativeScheduling.ExpiredSilencesEvent | webhooks/context.go:61-67 | after the expiry of one token no run of firings that reach its subscription, fired by anybody, schedules a delivery for anybody |
| Signing.Append | crypto/crypto.go:102 | appends in place exactly when the capacity allows, writing only behind the visible bytes, else leaves the old array alone |
| Signing.SignWebhook | crypto/crypto.go:93-104 | keeps the visible payload, changes at most 16 bytes behind it, and returns a nonce and the base64 of the signature of payload and nonce, which verify for it |
| Signing.VerifyWebhook | crypto/crypto.go:106-112 | answers whether the header holds, in base64, a signature that verifies for payload and nonce, keeping the visible payload |
| Signing.Attempts | webhooks/legacy.go:218-220 | any number of attempts over one shared payload each send the original bytes with headers that verify for them |
| OAuth2Join.OAuth2 | auth/middleware.go:473-538 | on every interleaving of the two goroutines and the main thread: one reply, the same for all of them; `auth` and the counters are read only after both goroutines wrote for the last time |
| OAuth2Join.GoesOnExactly | auth/middleware.go:484-537 | when the request goes on, is answered 500, panics, or is answered 403 |
| OAuth2Join.UnreadableGrantsPanic | auth/middleware.go:533 | a live token with the grants `a` passes every check and panics |
| Handlers.Exchange.CookieAuth | auth/middleware.go:183-207 | the handler's steps give the replies that `CookieGoesOnExactly` characterizes, appended to those before |
| Handlers.CookieGoesOnExactly | auth/middleware.go:183-207 | a cookie goes on exactly when it names a user who is found and not suspended, as that user and no more; it panics exactly on bad JSON and a suspension without notice, and else is answered 403 |
| Handlers.SuspendedWithoutNoticePanics | auth/middleware.go:108-112 | a cookie that names any suspended user without a notice panics |
| Handlers.Exchange.InternalAuth | auth/middleware.go:223-287 | the loop over the networks and the steps after it give the replies that `InternalGoesOnExactly` characterizes, for addresses without port too, and the second one after a 403 included |
| Handlers.InternalGoesOnExactly | auth/middleware.go:223-287 | internal authentication goes on exactly from an internal network, with a readable payload, for an active user, or for nobody from an address with a port; and as the user that was looked up, by the OAuth client first, or as nobody |
| Handlers.InternalRefusesExactly | auth/middleware.go:223-280 | which answer internal authentication gives when it does not go on, and when a 403 comes before it |
| Handlers.UnidentifiedPayloadHandled | auth/middleware.go:256-286 | a payload for nobody without client and node identifier, from an internal address with a port, is answered 403 and then handled |
| Handlers.BareAddressRefused | auth/middleware.go:225-280 | every payload for nobody from an internal address without port is answered 403, twice if an identifier is missing, and not handled |
| Handlers.Exchange.LegacyOAuth | auth/middleware.go:541-626 | the steps give the replies that `LegacyGoesOnExactly` characterizes, from an expiry and scopes left at zero when there is no row |
| Handlers.LegacyGoesOnExactly | auth/middleware.go:541-626 | a legacy token goes on exactly when known, in time, unrestricted and its user active, as that user and no more; when it panics; and that it is answered 403 otherwise, twice exactly when unknown |
| Handlers.UnknownTokenAnsweredTwice | auth/middleware.go:575-607 | an unknown legacy token is answered twice and not handled |
| Handlers.Exchange.Serve | auth/middleware.go:670-725 | the dispatch, with every interleaving inside `OAuth2`, gives the replies that `GuardedRequests` and `IssuedTokenServed` are about |
| Handlers.OpenExactly | auth/middleware.go:672-678 | which paths need no authentication |
| Handlers.CookieBeforeHeader | auth/middleware.go:680-696 | a cookie decides whatever else the request carries; without one, a missing header is answered 401 and one without a space 400 |
| Handlers.SchemesExactly | auth/middleware.go:698-725 | which handler gets what follows the first word of the header, in any capitalization of that word, and what is answered 400 |
| Handlers.GuardedRequests | auth/middleware.go:670-725 | every guarded request gets one or two replies, the next handler at most once and last, with an admitted context, after an error exactly when internal authentication lacks an identifier |
| Handlers.IssuedTokenServed | auth/middleware.go:698-707 | a request with an encoded token gets one reply, and goes on as the holder of that very token exactly under the listed conditions |
| Authority.StoredAsDocumented | webhooks/config.go:13-62 | a stored configuration satisfies the documented invariants; only OAuth 2.0 contexts are stored |
| Authority.StoredExactly | webhooks/config.go:36-51 | a stored configuration holds the token hash in lower-case hexadecimal, the grants as written, the expiry, and the client if there is one |
| Authority.Exec | webhooks/context.go:50-69 | the copying loop and `WebhookAuth` give the rebuilt context, for every stored configuration |
| Authority.RebuiltExactly | webhooks/context.go:50-69 | when executing a stored configuration panics, when it has expired, and every part of the context it runs in otherwise |
| Authority.WebhookKeepsReadAuthority | auth/middleware.go:635-653 | a stored and unexpired authority is rebuilt with its token hash and client, is admitted for reading exactly where the original is, and for writing nowhere |
| Authority.RebuiltUntilExpiry | auth/middleware.go:638-640 | it is rebuilt exactly until the token's own expiry |
| Authority.DirectivesExactly | server/directives.go:12-77 | what each directive decides by the method of authentication and the client of the token, and when it panics |
| Authority.GrantsDecide | server/directives.go:61-69 | a token is admitted exactly where the last of its written grants for service and scope permits, a webhook only for reading |
| Authority.NoGrantsDecide | server/directives.go:61-69 | a token without grants is admitted everywhere, a webhook of its authority everywhere for reading |
| Authority.IssuedTokenAdmits | server/directives.go:35-77 | from the issued token to the resolver: its holder is admitted exactly where its last grant for service and scope permits, and to private resolvers exactly when it is no client's |
| Authority.DirectivesNeverPanic | server/directives.go:32-77 | no directive panics on a context that `Middleware` or `WebhookAuth` builds, for read-only and read-write access |
| Authority.ServedRequestsNeverPanic | server/directives.go:12-77 | the same from the request on |
| Authority.ServedTokenStoresItsAuthority | webhooks/config.go:36-51 | from a served token through storing to each later delivery: same hash, same client, the same read access, no write access |
| Validation.Validation.Error | valid/valid.go:162-173 | appends one entry with that message |
| Validation.Validation.Expect | valid/valid.go:177-183 | appends an entry exactly when the condition fails |
| Validation.Validation.Ok | valid/valid.go:57-59 | true exactly for an empty log |
| Validation.WithField | valid/valid.go:186-195 | sets the field of the chain's own entry and changes nothing else in the log |
| Validation.And | valid/valid.go:200-206 | considers the condition only if nothing failed before |
| Validation.Execute | valid/valid.go:162-206 | one instruction of a program of interleaved chains does to the heap what `Step` says |
| Validation.Program | valid/valid.go:43-206 | a whole program on a fresh log does what `Run` says |
| Validation.VerdictExactly | valid/valid.go:177-206 | a chain's error carries the first failing message and the last field attached after that failure |
| Validation.ChainsIndependent | valid/valid.go:177-206 | however chains are interleaved, each one's error is that of the chain by itself |
| Validation.OneEntryPerFailingChain | valid/valid.go:162-206 | the log has exactly one entry for each chain with a failing condition |
| Validation.EntriesOwned | valid/valid.go:162-195 | every entry of the log is the error of some chain |
| Validation.OkExactly | valid/valid.go:57-59 | from an empty log, `Ok` holds exactly when no condition of any chain failed |

## Left out

- Models whose `Fields` method returns a new object on every call: the model has one `ModelFields` per model, the case in which calls can disturb each other.
- GraphQL collection itself: a selection is given with the collected children of each of its fields.
- `Select` and `ExtendedModel` (database/sq.go:83-107): one `Columns` call per column list.
- Size limits of the BARE library, and bytes after the last field of a token, which the model ignores.
- Encrypted cookies and payloads are readable or not; JSON is well formed or not; networks contain the address or not.
- The keys by which users, clients and legacy tokens are looked up: each lookup's answer is given.
- Panics of database lookups (broken invariants of the user tables), and panics inside the two lookup goroutines.
- The scheme word of the Authorization header is lowered as ASCII; Go also lowers other alphabets.
- `FilterWebhooks` (webhooks/config.go:65-85): builds an SQL expression.
- Storing an `AuthConfig` in the database and reading it back is taken to change nothing.
- The rest of `Exec` (webhooks/context.go:71-103): GraphQL execution, here an outcome of preparing a delivery.
- Fetching the subscriptions of the native queue, an SQL condition; scheduling starts from the fetched list.
- Delivery.WebhookQueue.Dispatch: how the work library takes tasks from its queue and puts them back is a choice of the model (see the next line); the code only creates and enqueues them.
- The work queue is first in, first out, with a bound on attempts as a parameter; delays between attempts, and concurrent workers on one queue, are not modelled.
- A panic in a worker ends the process; a panic while scheduling reaches the caller and leaves the queue as it is.
- A commit that fails for another reason than `ErrTxDone` is taken to have changed nothing.
- Two `SignWebhook` calls over one payload at the same time, a data race.
- `Optional`, `OptionalString`, `NullableString` and `OptionalBool` (valid/valid.go:65-158): type switches before a callback.
- Reusing an earlier `ValidationError` of a chain after `And` returned a new one: an instruction always continues the latest.
- Mail, HTTP clients, Redis, S3, metrics and configuration.
