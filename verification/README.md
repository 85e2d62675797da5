# What this models

A verification model of the parts of git-ctx that carry real state, concurrency or a format:
the embedding runtime, the logical backup, the versioned settings and the adapter cache over
them, the platform's own keys, the limiters, and three loops with an exact specification.
`dafny verify dfyconfig.toml` checks all of it.

| files | part of the program |
|---|---|
| `EmbeddingModel`, `EmbeddingBreaker`, `EmbeddingRuntime`, `EmbeddingProtocol`, `EmbeddingScatter` | the circuit breaker, the vector cache and single flight behind one mutex; concurrent `Embed` calls interleaved one locked section at a time; batches; the OpenAI-compatible client |
| `BackupText`, `BackupWriter`, `BackupJson`, `BackupValues`, `BackupArchive`, `BackupSnapshot`, `BackupPrinter`, `BackupRestore`, `BackupRoundTrip`, `BackupCatalog`, `BackupService`, `Parts` | the streaming snapshot printer and its byte-limited writer, the value encoding, the restore transaction, the program's own table lists, sealing, size bounds, and the way from one database to another |
| `SettingsTree`, `SettingsStore`, `SettingsGuard`, `SettingsNormal`, `SettingsIssuer`, `AdapterCache` | masking and putting back secrets, versions under concurrent saves, what naming a version does, the program's normalization and what its validation reads, and the source adapters cached by version |
| `PlatformKeys` | which keys a start works with, over restarts, moves and rotations |
| `AttemptLimiter`, `RejectionCounter`, `ApiRates`, `ApiKeys` | the sliding window, the bounded rejection counter, the three fixed windows of an API key, and a key's life |
| `Pagination`, `BlockScalars` | complete-or-error paging and the search that stops early; masking of YAML block scalars |
| `Common` | options, results, counting, steps that lead from one world to another |

Where the program changes something in place the model is a class or a method over an array
with the same fields, branches and constants, and its contract says what the new state is in
terms of the old one. Where several callers interleave, each locked section, transaction or
database read is one step of a state machine over the same functions, and the results are
about every run. Where a method is proved against a function, a further statement says what
that function means in plain terms: bytes, indices, seconds, responses, log entries. Clocks,
identifiers, nonces, the provider, the server and what the database happens to pick are
parameters.

## Where the program does not do what it says

The members named here state it.

- *At most one probe* is not what the breaker keeps. In a run a runtime can take, the end of
  an attempt from before lets a second probe through beside one that is still out
  (`TwoProbesCanBeOutstanding`); `SecondProbeExactlyWhen` gives the condition. What holds is
  that an attempt ends between any two probes that are let through (`FinishBetweenProbes`).
- `platform_bootstrap` is both in the list a restore always empties and in the list a backup
  carries, so it comes back with the archives of the two latest releases, although the
  comment above `MigrateLogical` says bootstrap credentials are not copied
  (`TheBootstrapTokenComesBack`, of databases such as `SomethingIsRestorable` gives). An
  ephemeral table ends empty exactly when the archive does not list it or the source had no
  row in it (`EphemeralIsEmptyIff`).
- The second comparison of the logical size with the maximum in `Create` can never fire: the
  writer has already refused (`BackupService.Service.Pack`).
- A save that names no version can bring back a secret another administrator has just
  replaced (`AnUnguardedSaveCanReviveASecret`). Whatever happens after a request arrives, it
  replaces the row whose secrets it was given if and only if it names a version no newer than
  what there was (`MergesWhatItReplacesIff`).
- An imported document may carry `expectedVersion`, which a save strips and an import does
  not. Restoring its row names that version, and is refused even with nothing else going on
  (`AnImportedVersionRefusesItsRestore`, in the program's own terms
  `AnImportedDocumentCannotBeRestored`). `ARestoreIsRefusedForItsVersionIff` is the condition
  in all runs, and `OnlyImportsCarryAVersion` says where such rows come from.
- The literal mask can be stored. A single sign-on issuer that is the mask behind a space is
  not the mask when it arrives and is normalized to it (`ASpaceDisguisesTheMask`); validation
  reads field names in any case, the last one in order winning, so a second spelling with a
  good issuer gets it through (`ASecondSpellingStoresTheMask`, a whole run).
  `ADisguisedSettingPassesIff` says which such settings validation lets through, and
  `TheProgramStoresTheMaskIff` which runs store the mask; as long as nobody spells the name
  another way none does (`SettingsIssuer.ValidationKeepsTheMaskOut`).
- With neither a setting nor a bootstrap token stored, a start that has no working recovery
  key takes over with the keys its connection string gives, and managed secrets sealed under
  the old ones no longer open (`AStartCanOrphanSecrets`; the exact condition is
  `StartWithOtherKeysIff`).
- The limiter's removal of an idle key is undone on both paths (`AttemptLimiter.Limiter.Allow`
  has it), so keys accumulate (`KeysAccumulate`).
- Two rotations of one key at once can bring it back after the first of them has ended it
  (`ARotationCanReviveAKey`, exactly when: `ComesBackIff`). Revocation and the expiry a key
  was issued with hold all the same (`GoneIsForEver`).

One result has a condition on names that the program's own schema meets: a carried column with
a comma in its name makes a backup that completes and is refused on restore as soon as its
table has a row (`SnapshotRestores`).

## Model

| member | source | states |
|---|---|---|
| EmbeddingModel.CacheKeyInjective | internal/embedding/runtime.go:199-202 | for identities without a NUL, two questions share a cache key only if they are the same question |
| EmbeddingModel.CacheKeyCollides | internal/embedding/runtime.go:199-202 | a NUL in an identity makes two different questions share a key |
| EmbeddingModel.StoreIsBounded | internal/embedding/runtime.go:218-241 | after any store the cache holds at most the configured number of entries, the new one among them with its full time to live; no other entry changes, none goes while there is room, and a live one only when the expired ones did not make room |
| EmbeddingModel.StoreKeepsFaithful | internal/embedding/runtime.go:218-241 | a store, whatever it evicts, leaves every cached vector the provider's own answer to its key's question |
| EmbeddingModel.LookIsFaithful | internal/embedding/runtime.go:204-216 | a look hits exactly when there is an entry still in date; a hit is the provider's answer and counts once, a miss leaves no entry, and no other entry, flight or breaker changes |
| EmbeddingModel.RoomCanBeMade | internal/embedding/runtime.go:224-237 | the eviction always has a choice of victims that makes room |
| EmbeddingModel.TheDefaults | internal/embedding/runtime.go:23-37 | what a policy setting out of range becomes: two failures, a minute, no caching, a thousand entries |
| EmbeddingBreaker.BreakerIsItsHistory | internal/embedding/runtime.go:130-180 | the fields a breaker decides by as functions of the event history: failures since the last success, last failure plus cooldown, probe since the last end |
| EmbeddingBreaker.CountersAreTheHistory | internal/embedding/runtime.go:157-180 | its other fields: ends, failures, hits and coalesced calls counted, and the last success and failure |
| EmbeddingBreaker.FinishBetweenProbes | internal/embedding/runtime.go:130-180 | an attempt ends between any two probes let through |
| EmbeddingBreaker.SecondProbeExactlyWhen | internal/embedding/runtime.go:130-180 | a probe is let through beside one still out if and only if another attempt ended since, the failures are at the threshold, the last one's cooldown has run out and no probe was granted since the last end |
| EmbeddingBreaker.TwoProbesCanBeOutstanding | internal/embedding/runtime.go:157-172 | a run a runtime can take in which two probes are out at once, neither of them ended |
| EmbeddingBreaker.RefusedExactlyWhen | internal/embedding/runtime.go:130-146 | a call is refused exactly when enough failures follow the last success and the cooldown runs or a probe is out, until the cooldown ends or for a second; one let through is a probe exactly when there are that many failures |
| EmbeddingBreaker.SnapshotTellsTheVerdict | internal/embedding/runtime.go:283-308 | the status shown is open or half open exactly when a call would be refused at that instant, half open while a probe is out after the cooldown, idle when nothing has ended yet |
| EmbeddingBreaker.BreakersAreIndependent | internal/embedding/runtime.go:148-155 | with many identities behind one lock each breaker is the fold of its own events |
| EmbeddingRuntime.Runtime.Allow | internal/embedding/runtime.go:130-146 | the new breaker state and verdict of one call |
| EmbeddingRuntime.Runtime.Finish | internal/embedding/runtime.go:157-180 | the new breaker state after an attempt, under two clock readings, and its entry in the log that the breakers come to |
| EmbeddingRuntime.LogIsHistory | internal/embedding/runtime.go:148-180 | the breaker the log comes to is the fold of its identity's own entries |
| EmbeddingRuntime.RefusedByTheLog | internal/embedding/runtime.go:130-180 | after any calls, batches and flights, whoever asks next is refused exactly when the log has enough failures since the last success and the cooldown runs or a probe is out |
| EmbeddingRuntime.Runtime.Guard | internal/embedding/runtime.go:113-128 | what a caller is told and the state it leaves |
| EmbeddingRuntime.Runtime.Cached | internal/embedding/runtime.go:204-216 | a hit is a fresh copy; an expired entry is dropped and is a miss |
| EmbeddingRuntime.Runtime.StoreVector | internal/embedding/runtime.go:218-241 | keeps a fresh copy, after evicting expired entries and then as many others as it takes; what the log says was stored last is in the cache |
| EmbeddingRuntime.Runtime.MakeRoom | internal/embedding/runtime.go:224-237 | the two eviction loops end with room, dropping live entries only when expired ones do not suffice |
| EmbeddingRuntime.Runtime.BeginFlight | internal/embedding/runtime.go:243-254 | joins the open flight of a question or opens a new one |
| EmbeddingRuntime.Runtime.CompleteFlight | internal/embedding/runtime.go:256-263 | closes an open flight once, keeps a fresh copy of its result and takes it off the map |
| EmbeddingRuntime.Runtime.RunFlight | internal/embedding/runtime.go:354-375 | with other callers running in between, a flight lands with the provider's answer or a failure, in an array the cache does not hold; it asks exactly when the second look finds nothing in date, and then leaves one end in the log and, after a good answer, one entry stored |
| EmbeddingRuntime.Runtime.WaitFlight | internal/embedding/runtime.go:265-272 | a waiter gets what the flight landed with in a fresh array, neither the flight's nor the cache's |
| EmbeddingRuntime.Runtime.Listeners | internal/embedding/runtime.go:265-272 | any number of waiters of one flight get the same in arrays that are all different |
| EmbeddingRuntime.Runtime.Embed | internal/embedding/runtime.go:329-352 | a call's answer is the provider's, in an array that is the caller's alone; in the log it leaves one hit, or one join, or what its flight leaves |
| EmbeddingRuntime.Runtime.LookupAll | internal/embedding/runtime.go:377-395 | hits and misses partition the batch, misses in order with their places |
| EmbeddingRuntime.Runtime.FillIn | internal/embedding/runtime.go:419-423 | each answer goes to the place its question came from, a copy to the cache |
| EmbeddingRuntime.Runtime.EmbedBatch | internal/embedding/runtime.go:377-424 | on success each input's own non-empty answer at its own place, in arrays the cache does not hold, with other callers running in between; the log grows by its hits, by one end told to the breaker if anything was asked, and by its answers if that went well; the batch fails exactly when that was a failure |
| EmbeddingRuntime.WhatABatchLeaves | internal/embedding/runtime.go:377-424 | entry by entry what a batch leaves in the log: its hits, exactly one end if it asked for anything and none if not, then each answer stored, or nothing after a failure |
| EmbeddingRuntime.WhatAFlightLeaves | internal/embedding/runtime.go:354-375 | the same for a flight: a hit, or one end and after a good answer one entry stored |
| EmbeddingRuntime.EmbedAllSpeaks | internal/embedding/local.go:28-44 | asking one by one answers like a batch provider does |
| EmbeddingProtocol.StepKeepsInv | internal/embedding/runtime.go:243-272 | every interleaved step keeps the flight, truth and call invariants |
| EmbeddingProtocol.OneOpenFlightPerQuestion | internal/embedding/runtime.go:243-263 | in every run one open flight per question at most, on the map exactly while open, closed at most once |
| EmbeddingProtocol.EveryAnswerIsTheProviders | internal/embedding/runtime.go:329-375 | whatever vector a call returns, by any way, is the provider's answer to its question |
| EmbeddingProtocol.WaitersHearTheirLeader | internal/embedding/runtime.go:265-272 | callers of one flight are told what its goroutine landed with |
| EmbeddingProtocol.LandedIsForever | internal/embedding/runtime.go:256-272 | a landed flight's reply never changes |
| EmbeddingProtocol.QuietBooksBalance | internal/embedding/runtime.go:329-375 | at rest, calls of an identity are its hits, coalesced calls and requests |
| EmbeddingProtocol.RunBalances | internal/embedding/runtime.go:329-375 | at every instant the same, with the calls and flights not yet counted added |
| EmbeddingProtocol.FlightsOnlyAdvance | internal/embedding/runtime.go:354-375 | a flight's work only goes forward |
| EmbeddingProtocol.NoWaiterIsStranded | internal/embedding/runtime.go:265-272 | a waiting call's flight has landed or has a step to take |
| EmbeddingProtocol.AnEntryInDateAnswers | internal/embedding/runtime.go:329-367 | an entry in date answers a call that looks, and a flight that looks again, in place of the provider; a probe and a policy without caching do not look |
| EmbeddingProtocol.ABeginningJoins | internal/embedding/runtime.go:243-254 | a call that begins while its question's flight is open joins it, and otherwise opens one of its own |
| EmbeddingProtocol.AnEndIsTold | internal/embedding/runtime.go:157-180 | a flight's end is told to its breaker as the success, failure or cancellation it was; only a success goes on to the cache |
| EmbeddingProtocol.AnAnswerIsKept | internal/embedding/runtime.go:218-241 | a good answer is in the cache afterwards, for as long as the policy says |
| EmbeddingScatter.OntoIffOneToOne | internal/embedding/openai.go:150-171 | with as many items as slots, every slot is reached exactly when no two items share one |
| EmbeddingScatter.EmbedOnce | internal/embedding/openai.go:142-171 | succeeds exactly when the count is right, no vector is empty and no two items want one slot; then every vector, normalized, is in the slot its index names, or at its own position when the index names none |
| EmbeddingScatter.EmbedBatch | internal/embedding/openai.go:54-79 | the first good answer of at most three, each vector in the slot its index names; asked again only after status 429 or 500 and above or without a usable answer, and not when interrupted |
| BackupText.EncodeDecode | internal/backup/service.go:594-622 | a decoded rune encodes to its own bytes (section 4 of RFC 3629) |
| BackupText.DecodeEncode | internal/backup/service.go:594-622 | every scalar value's encoding decodes to it, whatever follows |
| BackupText.SanitizeValid | internal/backup/service.go:539-638 | replacing invalid bytes changes nothing exactly when the text is valid UTF-8 |
| BackupText.SanitizedIsValid | internal/backup/service.go:539-638 | the replaced text is valid UTF-8 |
| BackupText.UnescapeEscape | internal/backup/service.go:539-638 | reading an escaped text gives the input with each invalid byte replaced (section 7 of RFC 8259) |
| BackupText.JsonStringRoundTrip | internal/backup/service.go:539-638 | a JSON string reads back exactly if and only if the text is valid UTF-8 |
| BackupText.JsonStringIsValid | internal/backup/service.go:539-638 | the printed string is valid UTF-8 for every byte string |
| BackupText.EscapedIsFit | internal/backup/service.go:539-638 | no escaped text holds a control character, <, > or &, or one of the separators U+2028 and U+2029 |
| BackupText.TheEscapes | internal/backup/service.go:545-593 | which characters have a two-character escape, which four hexadecimal digits, and which stay |
| BackupWriter.CallsDeliverThePrefix | internal/backup/service.go:310-359 | over any sequence of calls exactly the first limit bytes arrive, and some call fails exactly when the total is over a positive limit |
| BackupWriter.WhatArrives | internal/backup/service.go:310-359 | within the limit everything arrives and no call fails; past it the first limit bytes arrive and some call says it was too much |
| BackupWriter.LimitWriter.Write | internal/backup/service.go:310-338 | delivers a prefix, all of it without an error; on a healthy destination the stream cut at the limit |
| BackupWriter.LimitWriter.WriteString | internal/backup/service.go:340-355 | the same through the scratch buffer, chunking invisible |
| BackupWriter.LimitWriter.WriteJSONString | internal/backup/service.go:539-638 | the run-flushing loop writes the simple escaper's string |
| BackupJson.ParsePrint | internal/backup/service.go:361-518 | printed JSON parses back, texts sanitized, and leaves what follows |
| BackupJson.DocumentRoundTrip | internal/backup/service.go:664-668 | a printed document parses to the value that was printed, texts sanitized |
| BackupJson.CleanValid | internal/backup/service.go:539-638 | and to exactly that value when every text is valid UTF-8 |
| BackupValues.ParseFormatInt | internal/backup/service.go:1093-1094 | an integer reads back exactly when it fits 64 bits |
| BackupValues.DigitsAreDecimal | internal/backup/service.go:1093-1094 | a number is its digits, most significant first, without a leading zero |
| BackupValues.IntegersAreDecimal | internal/backup/service.go:1093-1094 | and below zero a minus and the digits |
| BackupValues.DecodeEncode64 | internal/backup/service.go:1087-1088 | base64 decodes to what was encoded (section 4 of RFC 4648) |
| BackupValues.Base64Examples | internal/backup/service.go:1087-1088 | whole and short groups as in section 10 of RFC 4648, and the last two letters of the alphabet |
| BackupValues.ValueRoundTrip | internal/backup/service.go:1083-1123 | encode, carry through JSON, decode: the same value in its own type, text sanitized |
| BackupValues.ValueSurvivesIff | internal/backup/service.go:1083-1123 | a value is unchanged exactly unless it is text that is not UTF-8 |
| BackupValues.TheKinds | internal/backup/service.go:1083-1102 | the kind each type is written under |
| BackupValues.OnlyTheKindsAreRead | internal/backup/service.go:1104-1123 | a value of any other kind is not read |
| BackupArchive.ReadArchiveJson | internal/backup/service.go:132-144 | an archive's JSON reads back as the archive |
| BackupArchive.ArchiveRoundTrip | internal/backup/service.go:664-668 | printing, parsing and reading an archive gives it back, texts sanitized |
| BackupPrinter.WriteSnapshotValue | internal/backup/service.go:520-535 | writes the value object's JSON, or its prefix and an error |
| BackupPrinter.WriteRow | internal/backup/service.go:480-505 | writes the row's cells in order, up to the first that has no encoding, or a prefix of that and the writer's error |
| BackupPrinter.WriteTable | internal/backup/service.go:423-516 | the same for a table: everything before its first fault, which is the error |
| BackupPrinter.WriteSnapshot | internal/backup/service.go:361-518 | the streaming printer writes the archive's JSON within the limit; when there is none it writes everything before the first fault and returns it, or a prefix of that and the writer's error |
| BackupPrinter.SnapshotText | internal/backup/service.go:361-518 | the text built piece by piece is the JSON of the archive |
| BackupPrinter.SnapshotPieceIs | internal/backup/service.go:361-518 | what the printer has to print is the JSON of the archive if there is one, and has a fault if there is none |
| BackupPrinter.TheFaultIsTheFirst | internal/backup/service.go:423-505 | the fault names the first table that cannot be encoded: it is not there, or it holds a value without encoding |
| Parts.SplitJoinCount | internal/backup/service.go:718-719 | a joined list splits into as many parts exactly when none held the separator |
| Parts.JoinInjective | internal/backup/service.go:763-774 | comparing joined lists compares the lists, when no name holds the separator |
| BackupRestore.ClearTables | internal/backup/service.go:706-717 | empties exactly the ephemeral and the listed tables, if they are there and the constraints let each be emptied in that order |
| BackupRestore.InsertAll | internal/backup/service.go:718-735 | adds all decoded rows of a table, each let in by the constraints as things then stand, or fails |
| BackupRestore.Store.Validate | internal/backup/service.go:763-806 | a known table list, the same carried columns, the same migrations |
| BackupRestore.AcceptedMatches | internal/backup/service.go:763-806 | an accepted archive has the database's own migrations, in order; its columns are the table's carried ones and every row has a value for each that decodes; every table to be emptied is there |
| BackupRestore.Store.RestoreArchive | internal/backup/service.go:696-737 | succeeds exactly on acceptable archives whose every statement and commit the constraints permit, then every cleared table holds exactly what the archive has; otherwise nothing changed; one with other migrations is refused and changes nothing |
| BackupRoundTrip.RowGoesIn | internal/backup/service.go:718-735 | a carried row goes in exactly when no column name has a comma, each cell in its column and type |
| BackupRoundTrip.SnapshotRestores | internal/backup/service.go:361-737 | snapshot, print, parse, restore into another database: accepted exactly when no carried column of a table with rows has a comma and the constraints permit it; then every carried cell is reproduced, tables the archive lacks and unlisted ephemeral ones are empty |
| BackupRoundTrip.AcceptedTablesAreKnown | internal/backup/service.go:763-775 | in a database without line breaks in its own table names an accepted archive lists the current tables or one older format's |
| BackupCatalog.AnAcceptedListIsARelease | internal/backup/service.go:36-73 | for the program's own lists and such a database: an accepted archive lists exactly what one of its four releases wrote |
| BackupCatalog.WhatTheReleasesLack | internal/backup/service.go:36-92 | which tables each of the three releases before did not back up |
| BackupCatalog.OnlyTheSearchVectorIsLeftOut | internal/backup/service.go:739-761 | every column of every table is carried, but the search vector of the document chunks |
| BackupCatalog.EphemeralIsEmptyIff | internal/backup/service.go:706-717 | a table the restore always empties ends empty exactly when the archive lacks it or its source had no row |
| BackupCatalog.TheBootstrapTokenComesBack | internal/backup/service.go:26-73 | the program's catalog restores what any of its releases wrote, if the constraints permit; sessions and sign-ins end empty, the bootstrap row comes back from the two latest |
| BackupService.OpensIffKeyKnown | internal/backup/service.go:949-993 | a file opens as what was sealed exactly when its key is a candidate |
| BackupService.WhatOpens | internal/backup/service.go:966-993 | a file that opens has the format's name in front, then the nonce, then what one of the candidates opens |
| BackupService.SealedStarts | internal/backup/service.go:949-960 | a sealed file begins with the format's name and the nonce |
| BackupService.OwnKeyIsACandidate | internal/backup/service.go:942-973 | the sealing key, the recovery key if there is one, is always among the candidates: that key, the master key and those that only open |
| BackupService.Open | internal/backup/service.go:966-993 | the first candidate that opens the file decides |
| BackupService.Service.AlsoOpenWith | internal/backup/service.go:159-163 | adds a candidate without changing the sealing key |
| BackupService.Service.Pack | internal/backup/service.go:235-253 | sealed bytes exactly when payload and file are within the maximum |
| BackupService.Service.Create | internal/backup/service.go:203-268 | completes exactly when the configuration allows it and both sizes fit; then the file and its record, else which error it was, no file, and a failed record once there was one; the bounds of a configuration in numbers |
| BackupService.Service.ReadVerified | internal/backup/service.go:886-924 | the bytes exactly when they are within the maximum and size and hash are those of the completed record; without one exactly when the name is plain and the file is within the maximum |
| BackupService.WhatIsReadBack | internal/backup/service.go:640-670 | whatever is read back is a file that passed the checks on its name, size and hash, has the format's name in front, and holds an archive of this format |
| BackupService.Service.Restore | internal/backup/service.go:640-670 | restores exactly readable, acceptable archives; otherwise the database is unchanged |
| BackupService.CompletedIsReadable | internal/backup/service.go:235-265 | a completed backup passes every check on the way back, with its record or without, and reads back exactly when its key is known |
| BackupService.BackupRestoresTheDatabase | internal/backup/service.go:640-737 | the whole way from a source database through a file to a target |
| SettingsTree.MaskSecretPaths | internal/app/settings.go:997-1028 | the loop masks every hidden field and lists each masked path once |
| SettingsTree.MaskedTwice | internal/app/settings.go:997-1028 | masking is idempotent |
| SettingsTree.MaskedShowsNothing | internal/app/settings.go:997-1028 | under a secret's name only the mask, nothing or a reference remains, at every path |
| SettingsTree.SecretNameIff | internal/app/settings.go:1173-1178 | which names are secrets': six words anywhere in them and one at the end, in any mixture of cases, and one word on its own |
| SettingsTree.WhatIsShown | internal/app/settings.go:997-1028 | field by field: a reference stays, a secret's name shows the mask unless empty, an object under another name is looked into, all else stays |
| SettingsTree.PreserveMaskedPaths | internal/app/settings.go:1044-1069 | the loop puts stored values under masks and lists each unresolved mask once |
| SettingsTree.PreserveRestores | internal/app/settings.go:1030-1069 | sending a masked setting in gives the stored one back |
| SettingsTree.NothingMissing | internal/app/settings.go:1030-1069 | with nothing unresolved |
| SettingsTree.PreservedAt | internal/app/settings.go:1044-1069 | path by path: the stored value under a mask, the sent one everywhere else |
| SettingsTree.PreservedHasNoMask | internal/app/settings.go:1030-1069 | the literal mask never gets through when nothing stored is it |
| SettingsTree.ImportKeepsItsOwnSecrets | internal/app/settings.go:1240-1306 | export and import: every secret is the importing side's own, those missing are exactly those reported |
| SettingsStore.Settings.Save | internal/app/settings.go:296-336 | refused exactly on a named version other than the live one; else both rows under a number above every one used, and no other category touched |
| SettingsStore.Settings.Delete | internal/app/settings.go:392-408 | the category is no longer live, every other row and every history is the same |
| SettingsStore.TheGuardSent | internal/app/settings.go:248-254 | a number sent as the guard loses its fraction toward zero; anything else is no guard |
| SettingsStore.StepKeepsInv | internal/app/settings.go:260-336 | every interleaved save, import, restore and delete, under any normalization and validation, keeps versions increasing, the live row newest and each row what its request committed |
| SettingsStore.VersionsAreForGood | internal/app/settings.go:301-336 | a number once used stands for one value for ever; a live version is the newest |
| SettingsStore.OneSavePerVersion | internal/app/settings.go:317-324 | in every run, of all requests naming one version at most one is saved |
| SettingsGuard.GuardedSavesMergeWhatTheyReplace | internal/app/settings.go:260-324 | in every run, a request naming a version it could have read is merged with the row it replaces |
| SettingsGuard.MergesWhatItReplacesIff | internal/app/settings.go:260-324 | in every continuation of a run a request replaces the row it was merged with, if and only if it names a version that is positive and no newer than what there was |
| SettingsGuard.AnUnguardedSaveCanReviveASecret | internal/app/settings.go:260-336 | a run in which a save without a version undoes another's change of a token |
| SettingsGuard.AnImportedVersionRefusesItsRestore | internal/app/settings.go:1184-1222 | a run: a document is imported with a version, its row restored with nothing else going on, and the commit refused |
| SettingsGuard.ARestoreIsRefusedForItsVersionIff | internal/app/settings.go:244-324 | in every run a restore is refused for its version if and only if its row carries a positive one other than the live one |
| SettingsGuard.OnlyImportsCarryAVersion | internal/app/settings.go:244-255 | in every run, under a normalization that adds none, rows that carry a version were written by imports |
| SettingsNormal.ProgramAddsNoVersion | internal/app/settings.go:639-673 | the program's normalization is one that adds none |
| SettingsNormal.TheSearchMode | internal/app/searchconfig.go:33-41 | a search setting ends with one of three modes: the one it names, or what the old switch says, which goes |
| SettingsNormal.TheIssuer | internal/app/settings.go:648-666 | the issuer of a sign-on setting: from base address and realm together, else as given, and when it is refused |
| SettingsNormal.TheSignOn | internal/app/settings.go:666-672 | the addresses, modes and certificate check a sign-on setting ends with, and what goes |
| SettingsNormal.TheRestOfTheSignOn | internal/app/settings.go:666-673 | every other field of it stays |
| SettingsNormal.OthersAreLeftAlone | internal/app/settings.go:645-652 | other categories are left as they are, and a sign-on setting without a client is refused |
| SettingsNormal.TrimIs | internal/app/settings.go:648-653 | what trimming takes off is white space on both sides, and all of it |
| SettingsNormal.SlashesAreTrimmed | internal/app/settings.go:662-667 | and what is taken off an address is slashes at its end, and all of them |
| SettingsNormal.NormalizedTwice | internal/app/settings.go:639-673 | normalizing what is already normalized, with the same address, changes nothing |
| SettingsNormal.NormalizeLetsTheMaskInIff | internal/app/settings.go:639-673 | the program's normalization turns a setting without the mask into one with it exactly for an issuer that is the mask but for space around it, without base URL and realm |
| SettingsNormal.ASpaceDisguisesTheMask | internal/app/settings.go:653-666 | a concrete setting of that kind |
| SettingsNormal.NothingStoredIsTheMask | internal/app/settings.go:1030-1069 | with a normalization that turns nothing into the mask, no live or past value holds it at any path, in every run |
| SettingsNormal.TheMaskIsStoredIff | internal/app/settings.go:639-673 | in the program's runs the mask is stored somewhere exactly when a disguised setting was committed |
| SettingsIssuer.ExactlyOneIsRead | internal/app/settings.go:684-692 | of the spellings of the issuer's name that hold something, validation reads exactly one |
| SettingsIssuer.TheSpellings | internal/app/settings.go:684-692 | which names count as the issuer's: its letters in either case, and the long s for an s |
| SettingsIssuer.WhatPasses | internal/auth/oidc.go:108-146 | an issuer that passes is the last spelling in order, a text with scheme and host and neither user nor fragment, over https or on the machine itself |
| SettingsIssuer.OneGoodIssuerPasses | internal/auth/oidc.go:108-146 | one such text under the plain spelling passes |
| SettingsIssuer.ADisguisedSettingPassesIff | internal/app/settings.go:675-692 | validation lets a disguised setting through if and only if the spelling it reads is another one, with a good issuer, and every spelling decodes |
| SettingsIssuer.TheProgramStoresTheMaskIff | internal/app/settings.go:639-692 | in the program's runs the mask is stored exactly when such a setting was committed |
| SettingsIssuer.ASecondSpellingStoresTheMask | internal/app/settings.go:639-692 | a run in which one save leaves the mask in the live row |
| SettingsIssuer.ValidationKeepsTheMaskOut | internal/auth/oidc.go:108-146 | in the program's runs the mask is never stored as long as no setting spells the issuer's name another way |
| SettingsNormal.AnImportedDocumentCannotBeRestored | internal/app/settings.go:1264-1360 | with the program's normalization, a document imported with a version above one cannot be restored while it is the newest |
| AdapterCache.Adapters.SourceAdapter | internal/app/repositories.go:33-72 | one call on its own: a hit under the live version, else built from the live value and kept |
| AdapterCache.WhatACallDoes | internal/app/repositories.go:33-72 | a look finds exactly what is kept under the version read, a load takes the live setting, and what is built is kept under the version read before |
| AdapterCache.StepKeepsInv | internal/app/repositories.go:33-72 | every interleaved step keeps each entry's value one that was live under its label's version or a later one |
| AdapterCache.EveryAdapterWasLive | internal/app/repositories.go:33-72 | every adapter returned was built from a value live between the call's start and its return |
| AdapterCache.ASaveReachesTheNextCall | internal/app/repositories.go:74-81 | a call never returns anything older than what was live when it started |
| AdapterCache.AnAdapterCanOutrunItsLabel | internal/app/repositories.go:51-67 | a run that leaves an adapter cached under an older version than its value's |
| PlatformKeys.Installation.ResolveKeys | internal/app/platformkeys.go:73-116 | the pair and the row it leaves, case by case |
| PlatformKeys.TheKeyRowDecides | internal/app/platformkeys.go:73-116 | a row its own recovery key opens decides; one only the previous key opens decides and is wrapped again; else the connection string is all there is |
| PlatformKeys.Installation.SealedDataOpensWith | internal/app/platformkeys.go:136-169 | what a start takes as proof of a master key: its length, then the bootstrap token alone, else one setting, else nothing |
| PlatformKeys.Process.ReloadKeys | internal/app/platformkeys.go:194-225 | the keys a running process goes on with after a restore |
| PlatformKeys.StartWhileSealed | internal/app/platformkeys.go:73-116 | while something is sealed: exactly when a start succeeds, with the sealed pair, wrapped under its own recovery key; a refused one changes nothing |
| PlatformKeys.StartWithOtherKeysIff | internal/app/platformkeys.go:89-111 | exactly when a start goes on with other keys than those written down |
| PlatformKeys.AStartCanOrphanSecrets | internal/app/platformkeys.go:136-169 | managed secrets are not looked at and can be left unopenable |
| PlatformKeys.OnePairForEver | internal/app/platformkeys.go:73-170 | over any run of starts, reloads and writes with something sealed, one pair of keys |
| PlatformKeys.AFirstStartSettlesThePair | internal/app/platformkeys.go:107-111 | on an empty database a start with a usable key settles the pair such a run keeps, and another changes nothing |
| PlatformKeys.OnePairSinceTheFirstStart | internal/app/platformkeys.go:73-170 | from the first start on every process and every start that succeeds has that pair |
| PlatformKeys.AReloadFollowsARestore | internal/app/platformkeys.go:194-225 | after a restore a reload takes the process over to the restored pair exactly when a recovery key of its opens the row or it had that master key, and else changes nothing |
| PlatformKeys.AReloadTakesUsableKeys | internal/app/platformkeys.go:208-225 | a reload leaves a process with the keys in hand or with ones of a length AES takes, and touches no other |
| PlatformKeys.TheNextStartNeedsNoDsn | internal/app/platformkeys.go:83-87 | after a success the next start succeeds whatever its connection string gives |
| AttemptLimiter.FilterInPlace | internal/app/app.go:92-97 | keeps in place exactly the times inside the window, in order |
| AttemptLimiter.WithinAre | internal/app/app.go:92-97 | they are the times less than a window ago, each as often as it was there |
| AttemptLimiter.Limiter.Allow | internal/app/app.go:85-108 | refused exactly when the kept times reach the limit; the new list, with the removal of an emptied key on the way |
| AttemptLimiter.TheWindowHolds | internal/app/app.go:85-108 | in every run: refused exactly when limit admissions lie inside the window; limit + 1 take at least a window; no list grows beyond the limit |
| AttemptLimiter.KeysAccumulate | internal/app/app.go:99-106 | the tracked keys are all keys ever tried |
| RejectionCounter.Counter.Count | internal/app/app.go:156-194 | the whole new state and answer of one rejection |
| RejectionCounter.Counter.Sweep | internal/app/app.go:163-168 | drops exactly the expired windows |
| RejectionCounter.TheCounterIsBounded | internal/app/app.go:144-194 | in every run: at most 4097 entries, counts and notable answers (the 1st, 10th, 100th and 1000th) tallied from the log, sweeps at least an eighth of a window apart |
| RejectionCounter.CountedUnderOneEntry | internal/app/app.go:174-193 | each rejection is counted under one entry, its own or the shared one, and touches no other |
| RejectionCounter.ACountIsOneWindow | internal/app/app.go:180-187 | in every run an entry's count is of rejections less than a window after its first, and is given up or begun again only a whole window after it |
| RejectionCounter.AFullMapIsSwept | internal/app/app.go:163-173 | in every run, with 4096 entries and no sweep for an eighth of a window, nothing older than a window is left |
| ApiRates.Limiter.ApplyRateLimits | internal/apikey/service.go:363-388 | the first of minute, hour and day whose limit is used up refuses, and exactly the buckets up to it count the request, in numbers of seconds |
| ApiRates.AloneIsTheLoop | internal/apikey/service.go:363-388 | the interleaved checks of one request alone are that loop |
| ApiRates.BucketsCountWhoPassed | internal/apikey/service.go:371-385 | a bucket counts exactly the requests past the checks before it and lets exactly the first limit on |
| ApiRates.NeverMoreThanTwice | internal/apikey/service.go:363-388 | accepted requests: at most the limit in an aligned bucket, at most twice in any interval of that length |
| ApiRates.TheThreeLimits | internal/apikey/service.go:363-388 | the same with the three limits over 60, 3600 and 86400 seconds |
| ApiKeys.PrefixRoundTrip | internal/apikey/service.go:181-187 | the prefix of an issued credential is read back, underscores in the secret or not |
| ApiKeys.PrefixIsReadIff | internal/apikey/service.go:181-187 | a prefix is read from exactly the texts of a credential's shape with it |
| ApiKeys.Service.AuthenticateRequest | internal/apikey/service.go:193-222 | a credential proves a key exactly when it is its own, the key is active and the use is admitted |
| ApiKeys.Service.Create | internal/apikey/service.go:70-112 | a new key exactly under a name of allowed length, with valid scopes and restrictions and an unused prefix; no other key touched |
| ApiKeys.SoundIsValid | internal/apikey/service.go:394-410 | which restrictions are valid: no limit below zero, every range one, and every repository a project and a name with a slash between them and perhaps one in front |
| ApiKeys.Service.UpdateScopes | internal/apikey/service.go:146-166 | valid scopes only, and only those of a key not revoked, by its owner or an administrator |
| ApiKeys.Service.SetStatus | internal/apikey/service.go:337-362 | which status changes take and what they leave |
| ApiKeys.Service.Rotate | internal/apikey/service.go:302-336 | one rotation on its own: a replacement beside the old key, which ends with the overlap or before |
| ApiKeys.StepKeepsInv | internal/apikey/service.go:302-362 | every interleaved step keeps prefixes unique and every key's end no later than it was issued for |
| ApiKeys.GoneIsForEver | internal/apikey/service.go:302-362 | no interleaved run makes a key authenticate again that is revoked or past the expiry it was issued with |
| ApiKeys.DisabledUntilEnabled | internal/apikey/service.go:337-346 | in every interleaved run a key its owner disabled authenticates as nothing until it is enabled |
| ApiKeys.RevokedForGood | internal/apikey/service.go:347-349 | and one its owner revoked never again |
| ApiKeys.EnabledWorks | internal/apikey/service.go:337-362 | an enabled key, not revoked and not at its expiry, works at once |
| ApiKeys.ScopesAreSound | internal/apikey/service.go:74-166 | in every run every key has at least one scope, each of a tool there is, and none twice |
| ApiKeys.ComesBackIff | internal/apikey/service.go:309-335 | a step brings a key back exactly when it is the end of a rotation of that key, not revoked, that read an expiry still ahead |
| ApiKeys.ARotationCanReviveAKey | internal/apikey/service.go:309-335 | a run in which a key that a rotation has ended works again |
| ApiKeys.AloneIsTheCall | internal/apikey/service.go:302-336 | the three interleaved steps of a rotation alone are that call |
| ApiKeys.SecondEndIsLaterIff | internal/apikey/service.go:327-335 | exactly when the second of two rotations that read one row moves the key's end to later |
| ApiKeys.RotationOverlaps | internal/apikey/service.go:318-335 | both keys work during the overlap, the old one never longer than it would have |
| Pagination.Pages | internal/gitlab/client.go:733-769 | the whole chain's items, decoded, or an error; success only when the last response says there is no more, and an error only when it failed, its next page cannot be read or is not further on, fifty are read, or the items do not decode |
| Pagination.FollowsIsChain | internal/gitlab/client.go:755-766 | the requests made are page 1 and then each time the page the response before names, further on |
| Pagination.GatheredAt | internal/gitlab/client.go:744-754 | what is gathered is the items of every response, in the order of asking |
| Pagination.PagesGoUp | internal/gitlab/client.go:824-830 | page numbers strictly increase |
| Pagination.OneChain | internal/gitlab/client.go:781-807 | what the server advertises is one chain |
| Pagination.SearchQuery | internal/gitlab/client.go:458-486 | at most limit files (8 when the limit is out of range) of the pages read, each with path, snippet, commit and lines of its first hit; fewer only when the last response says there is no more |
| Pagination.FirstsAreHits | internal/gitlab/client.go:471-484 | a result has its first hit's path, snippet and commit, starts at its line but at least at 1, and ends as many lines on as the snippet breaks |
| Pagination.FirstsAreFirst | internal/gitlab/client.go:471-480 | each result is its file's very first hit, in first-occurrence order |
| Pagination.EveryFileOnce | internal/gitlab/client.go:471-480 | exactly the files with a hit are among the results |
| BlockScalars.MaskLines | internal/contentsecurity/sanitize.go:223-247 | the two loops mask exactly the non-blank lines some secret header reaches, nothing else |
| BlockScalars.MaskBlockScalars | internal/contentsecurity/sanitize.go:219-252 | the same on a whole content, guarded by the pattern on all of it: line by line, by indentation, what is masked and how |
| BlockScalars.MaskedByIndentation | internal/contentsecurity/sanitize.go:230-263 | a line is masked exactly when it is not blank and some secret header above it has only deeper non-blank lines from there down to it; what is left is its indentation, the mark and its carriage return |
| BlockScalars.ADedentEndsTheBlock | internal/contentsecurity/sanitize.go:239-242 | a non-blank line at or left of the header's depth ends the block: it and the lines after it, up to the next secret header, stay |
| BlockScalars.BlankAscii | internal/contentsecurity/sanitize.go:233-238 | which ASCII lines are blank; a line that shows an ASCII character is not (`ShownIsNotBlank`) |
| BlockScalars.RedactedKeeps | internal/contentsecurity/sanitize.go:233-243 | a masked line keeps indentation and carriage return |
| BlockScalars.MaskedTwice | internal/contentsecurity/sanitize.go:223-247 | masking lines is idempotent |
| BlockScalars.MaskingKeepsLines | internal/contentsecurity/sanitize.go:219-252 | as many lines after as before, each masked or untouched; masking the result changes nothing |

## Left out

- HTTP handlers, routing, OIDC, cookies, audit rows, metrics and the browser code: plumbing around the state modelled here.
- SQL: tables are maps and sequences and a transaction is one step, except in a restore, whose statements are steps. The schema's constraints are not spelled out: what they refuse is a parameter of a restore, so whether the order of tables meets the foreign keys is not decided here; of the others only the unique prefixes of API keys are modelled.
- Encryption, hashing, compression and random identifiers are parameters with the properties asked of them, which can be had (`SomethingIsIdeal`); truncated ciphertexts are a box that opens under nothing.
- Embedding runtime: the text of the last error and its clipping, the fallback counters, a nil runtime, and whether a caller that gives up had a good reason. An end to the half-open state is not claimed: a probe that is let through and never used ends nothing.
- Embedding client: the request itself, the length of the waits between attempts, and vector normalization, which is a parameter that keeps lengths.
- JSON: numbers, literals and the decoder's case-insensitive field names; a snapshot has none of the first two and spells its fields one way.
- Instants and floats are carried by conversion functions that are parameters; a value whose spelling does not read back is not `Carriable`.
- Values of derived columns, which the database computes for itself, and any conversion a database makes on a value it is given.
- Backups: the schedule slot, retention, listing, writing the file and its failures. `Create` is told an unused id.
- Settings: sealing and decryption failures, validation beyond the issuer (which may refuse anything), what references to managed secrets stand for (a parameter), the separate `database` category, retention of versions, and a backup restore that replaces the tables, after which versions may repeat.
- SettingsTree: the nested maps are values, so sharing between the trees is not modelled; key names are lowered for ASCII letters only; paths are lists of keys where the program joins them with dots and sorts them.
- SettingsStore: `settingDifference` is not modelled; an import that changes nothing is one of the requests that are refused.
- SettingsNormal: the letters of a retrieval mode are lowered for ASCII only, and reading and escaping URLs are parameters.
- AdapterCache: closing the connections of a replaced adapter.
- PlatformKeys: writing the key row does not fail; the recovery database, which has no keys of its own, is not modelled.
- RejectionCounter: the window is the same for every call, as it is in the program.
- API keys: address ranges are read by a parameter, lists are kept as lists and not joined with commas, and neither `last_used_at` nor the alert on a refused call is modelled.
- GitLab: the text of the two headers, requests and their retries; the search query is taken trimmed.
- Sanitize: the other patterns; the one for secret headers is a parameter that wants something on the line and does not match a masked line.
- `codeintel`, `calltrace`, argument parsing and the other pure helpers: easy members.
