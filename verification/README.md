# PMX-Cloud agents: model and proofs

This project models the stateful core of the PMX-Cloud node agents in Dafny and proves what that core
is for: envelopes run at most once, encrypted backups read back, audit logs are tamper evident, network
changes are all or nothing, hardening jobs survive a crash, and a few smaller transformations keep their
meaning. `dafny verify dfyconfig.toml` checks all of it.

## Components

| files | what they model |
|---|---|
| `ReplayCache.dfy`, `ReplayRuns.dfy`, `Envelope.dfy` | the bounded replay cache with its background purge, and envelope verification over it |
| `ReplayStore.dfy` | the console broker's replay file, one process per request |
| `EncryptedBackup.dfy` | the chunked encrypted backup format, writer and reader |
| `AuditLog.dfy`, `AuditRuns.dfy`, `AuditTampering.dfy`, `AuditExample.dfy` | the hash-chained audit log, its runs with failing appends and crashes, what tampering it shows, and a codec for it |
| `CanonicalCbor.dfy`, `SigningBytes.dfy` | deterministic CBOR and the bytes a signature covers |
| `InterfaceConfig.dfy`, `IfupdownStore.dfy` | managed interface files, their text and the directory that holds them |
| `KernelLinks.dfy`, `NetworkPlans.dfy`, `NetworkTransactions.dfy`, `NetworkAgreement.dfy` | live links under unreliable commands, what a command plan achieves, bridge and VLAN transactions, and whether stored files and live links agree over runs of them |
| `Hardening.dfy`, `HardeningProfiles.dfy`, `HardeningReconcile.dfy` | hardening jobs, their saved states and their reconciliation after a restart |
| `Retention.dfy` | the keep-set of backup retention |
| `S3Upload.dfy` | resumable multipart upload |
| `Ruleset.dfy`, `RulesetReading.dfy`, `Firewall.dfy` | nftables rulesets, their text read back, and the lockdown flag |
| `KernelCmdline.dfy` | the boot-line edit |
| `Bytes.dfy`, `Text.dfy` | little-endian words, lexicographic order, white space, lines, words |

Objects that the sources update in place are classes with the same fields; lists, maps and files are
values those classes reassign. Clock readings, read results and failures are parameters or arbitrary
choices; what a theorem needs of them, it says. Runs are sequences of states related step by step by
what one call's contract allows.

## Where the code and its promise differ

Each of these is proved with the exact condition, not assumed away.

- A broker replay is caught if and only if three things hold (`BrokerVerdict`, `BrokerRedelivery`). The job
  id has no surrounding white space, because ids are recorded trimmed and looked up untrimmed
  (`SpacedIdRunsTwice`). Some record of it was loaded within the TTL by every later process that got to
  rewriting the store file, which is truncated first, and written again by every one that stopped there
  (`CutLosesRecord`; `PostdatedRunsTwice` for an envelope issued for later, which outlives its record). And
  the lookup comes before the entry has lapsed that the process stamped while loading
  (`LateLookupRunsTwice`).
- An unexpired envelope that an agent accepted is accepted again exactly when the agent restarted since, the
  cache entry has lapsed at the lookup, or other ids have crowded it out (`RedeliveryVerdict`,
  `RestartAcceptsTwice`, `CrowdedCacheAcceptsTwice`). With the agents' TTL an entry lapses before the
  envelope expires only if the lookup comes late after the expiry check, for which the clock is read
  separately, or the envelope was issued for later (`AtMostOnce`, `LateLookupAcceptsTwice`,
  `PostdatedAcceptsTwice`).
- Opening the audit log is documented to cut off a partial last line; the code leaves it, so the next
  append verifies if and only if the crash fell between two lines (`AppendAfterCrash`, `CrashSpoilsLog`).
  After an append whose sync failed the writer's head is behind the file (`RunsVerifyIff`,
  `CoversLastHashIff`, `UnsyncedSpoilsLog`).
- An audit hash covers neither number nor previous-hash field nor field boundaries (`ReplacementUnnoticed`,
  `NumbersUncovered`, `BoundariesUncovered`).
- A backup cut exactly between two frames decrypts without an error (`Truncation`, `UnnoticedCutExample`).
- Reconciliation leaves a job that was caught between two operations running for good (`StillRunningIff`,
  `StuckExample`), and closes one whose last operation was caught under its check unit after the check
  passed as a success that is not noted as a no-op (`ReconciledSuccess`, `LostNoopExample`).
- A configuration write whose directory sync fails reports an error although the file changed; it is the
  one failure that does not restore the directory (`Create`, `PortAdd`, `PortRemove`, `DestroyBridge`).
- Stored specifications and live links part when a bridge is created with a port of another stored bridge,
  or a link is destroyed that another stored specification needs (`CreateAgreesIff`, `DestroyAgreesIff`,
  `SharedPortExample`, `ListedVlanExample`).
- Nested parameter maps are in deterministic CBOR order only if name lengths do not decrease
  (`NestedOrderIsDeterministicIff`, `NestedOrderExample`).
- Upload reuse compares part sizes only (`CompletesToFileIff`, `StalePartExample`).
- If the active-ruleset link cannot be written after nft loaded the rules, the lockdown flag is stale
  exactly when the command changed between lockdown and normal rules (`SyncStep`, `StaleFlagExample`).
- A chain declared twice repeats its rules (`EachRuleOnceIff`, `RepeatedChainExample`), and a required boot
  token that is not a word is added again by every run (`MergeTwice`, `BlankTokenExample`).

## Model

| member | source | states |
|---|---|---|
| `ReplayCaches.ReplayCache.constructor` | shared/envelope/replay.go:32-42 | an empty cache with index and list in step |
| `ReplayCaches.ReplayCache.Seen` | shared/envelope/replay.go:45-54 | answers whether an unexpired entry for the id is in the list, and changes nothing |
| `ReplayCaches.ReplayCache.Remember` | shared/envelope/replay.go:59-86 | moves a known id to the back, evicts the oldest entry of a full cache, keeps index and list in step |
| `ReplayCaches.ReplayCache.Purge` | shared/envelope/replay.go:122-138 | drops entries from the front up to the first fresh one, keeping index and list in step |
| `ReplayCaches.RememberedWellFormed` | shared/envelope/replay.go:59-86 | remembering keeps ids distinct, entries ordered by time and at most max(capacity, 1) of them |
| `ReplayCaches.PurgedWellFormed` | shared/envelope/replay.go:122-138 | purging keeps the same three invariants |
| `ReplayCaches.PurgeRemovesExactlyExpired` | shared/envelope/replay.go:122-138 | although the purge stops at the first fresh entry, an entry survives if and only if it is not expired |
| `ReplayCaches.SeenReadsTheMap` | shared/envelope/replay.go:45-54 | refinement: the cache answers as a plain map from ids to last times would |
| `ReplayCaches.RememberWritesTheMap` | shared/envelope/replay.go:59-86 | refinement: one key is written, and a key is lost only when a new id meets a full cache, and then the least recent one |
| `ReplayRuns.RunKeepsWellFormed` | shared/envelope/replay.go:45-138 | over every run of lookups, insertions, purges and restarts the cache invariants hold |
| `ReplayRuns.PurgingKeepsLiveEntries` | shared/envelope/replay.go:109-138 | a run with purges, between steps or inside an offer, and the same run without them hold the same unexpired entries at every step |
| `ReplayRuns.PurgeIsInvisible` | shared/envelope/replay.go:109-138 | over every run, with purges between steps and between lookup and insertion, each offered id is accepted or refused as if the purge never ran |
| `ReplayRuns.RememberIgnoresExpired` | shared/envelope/replay.go:59-86 | remembering gives the same live entries whether expired ones were purged first or not |
| `ReplayRuns.SeenIgnoresExpired` | shared/envelope/replay.go:45-54 | a lookup gives the same answer before and after a purge |
| `ReplayRuns.EntryIsTracked` | shared/envelope/replay.go:59-138 | over every run the entries behind an accepted id are exactly the other ids accepted since, and it is gone only once they fill the cache |
| `ReplayRuns.SeenUnlessCrowdedOut` | shared/envelope/replay.go:45-86 | while every step in between ends within its time to live, an accepted id is seen if and only if its time to live has not passed and fewer than the bound of other ids were accepted since |
| `ReplayRuns.EntryIsStamped` | shared/envelope/replay.go:45-138 | as long as an accepted id is not accepted again, the cache knows it by the time of that acceptance, and after a restart not at all |
| `ReplayRuns.SeenIff` | shared/envelope/replay.go:45-138 | without any bound on time: exactly when the last acceptance of an id is still seen: no restart since, its time to live not passed, fewer than the bound of other ids accepted since |
| `ReplayRuns.NotAcceptedBetween` | shared/envelope/replay.go:45-86 | within its time to live, without a restart and with too few other ids to crowd it out, an accepted id is not accepted again |
| `Envelopes.Verify` | shared/envelope/envelope.go:133-186 | accepted if and only if the version is supported, the expiry is at most 30 seconds past, the lifetime at most an hour, audience and host are the agent's own, the signature is good and no unexpired entry for the id is in the cache; each refusal exactly if its own check fails and all earlier ones pass; only an accepted envelope changes the cache, and then by one insertion |
| `Envelopes.StepIsVerify` | shared/envelope/envelope.go:133-186 | the step of the run model accepts and changes the cache exactly as the verification call does, purges inside it included |
| `Envelopes.PurgeChangesNoVerdict` | shared/envelope/envelope.go:133-186 | over every run the background purge changes no verdict, also when it runs inside a verification |
| `Envelopes.ReofferedVerdict` | shared/envelope/envelope.go:133-186 | the exact verdict on any envelope with a job id that was accepted before, for every run and every TTL: that of the other checks, else replayed if and only if there was no restart since, the entry has not lapsed at the lookup and other ids have not crowded it out, else accepted |
| `Envelopes.RedeliveryVerdict` | shared/envelope/envelope.go:133-186 | the exact verdict on an envelope delivered again, post-dated or not: expired, replayed, or accepted, with the condition for each |
| `Envelopes.AtMostOnce` | shared/envelope/envelope.go:133-186 | an accepted envelope that was not issued for later is never accepted again while the agent does not restart and fewer than the cache's bound of other ids are accepted in between, if its replay lookup follows its expiry check within the slack of the TTL |
| `Envelopes.LateLookupAcceptsTwice` | shared/envelope/envelope.go:133-186 | a concrete run in which a lookup long after the expiry check accepts an envelope again |
| `Envelopes.CrowdedCacheAcceptsTwice` | shared/envelope/envelope.go:133-186 | a concrete run in which another id crowds the first one out and its envelope is accepted again |
| `Envelopes.PostdatedAcceptsTwice` | shared/envelope/envelope.go:149-157 | a concrete run in which an envelope issued for later is accepted again when its entry has lapsed, because issue times are not compared with the clock |
| `Envelopes.RestartAcceptsTwice` | core/cmd/pmx-core/main.go:132 | a concrete run in which a restart forgets the cache, which is kept in memory, and an envelope is accepted again |
| `ReplayStores.ReplayStore.Open` | console-broker/cmd/pmx-console-broker/replay_store.go:28-53 | opening loads the young records and rewrites the file with them; one that stops in the rewriting leaves part of them, perhaps ending in a torn line, and fails |
| `ReplayStores.ReplayStore.Load` | console-broker/cmd/pmx-console-broker/replay_store.go:101-121 | the latest record per id among the readable lines that are young enough |
| `ReplayStores.LoadedMeans` | console-broker/cmd/pmx-console-broker/replay_store.go:101-121 | a load finds an id with time t if and only if the id is not blank, t is young enough, and a record of it at t is followed by no other record of it that is young enough |
| `ReplayStores.ReplayStore.RewriteActive` | console-broker/cmd/pmx-console-broker/replay_store.go:123-140 | the file is truncated first: to the end it lists exactly the loaded records, cut short after n records it lists at most n of them |
| `ReplayStores.ReplayStore.Remember` | console-broker/cmd/pmx-console-broker/replay_store.go:70-91 | appends the trimmed id with the time, refuses a blank id, and reports success only for a synced record |
| `Text.TrimSpaceMeans` | console-broker/cmd/pmx-console-broker/replay_store.go:71 | trimming takes nothing but white space off the two ends |
| `ReplayStores.ReplayStore.BuildCache` | console-broker/cmd/pmx-console-broker/replay_store.go:93-99 | the rebuilt cache holds exactly the recorded ids, observed now, with nothing evicted |
| `ReplayStores.ReadAndVerify` | console-broker/cmd/pmx-console-broker/main.go:191-232 | one broker process: load, rewrite, rebuild, verify, record; it may stop while opening; it runs the command only for an envelope that passes every check and whose trimmed id was synced as the last record of the file |
| `ReplayStores.RecordSurvives` | console-broker/cmd/pmx-console-broker/replay_store.go:28-140 | over any sequence of processes a record stays, if every process that got to rewriting the file loaded it within the TTL and every one that stopped there had written the record |
| `ReplayStores.RememberedIff` | console-broker/cmd/pmx-console-broker/replay_store.go:28-140 | exactly when an id is still remembered, in a file without records from the future at first: some process since recorded it, every later one that got to rewriting loaded it within the TTL, and every one that stopped there had written it |
| `ReplayStores.CutLosesRecord` | console-broker/cmd/pmx-console-broker/replay_store.go:123-140 | a concrete sequence in which a process stops after the truncation, the record is lost and the redelivery runs |
| `ReplayStores.ReplayedIffLoaded` | console-broker/cmd/pmx-console-broker/main.go:208-231 | a process refuses an id as replayed, once nothing else is wrong, exactly if its load finds the id and the entry stamped at the load has not lapsed at the lookup |
| `ReplayStores.LapsedWithin` | console-broker/cmd/pmx-console-broker/replay_store.go:93-99 | an entry is fresh if the lookup comes within the TTL of the load, and lapsed if it comes a TTL after the expiry check |
| `ReplayStores.RecordedIdIsRefused` | console-broker/cmd/pmx-console-broker/main.go:208-231 | within the TTL of a kept record no process whose lookup comes within the TTL of its load accepts any envelope with that job id |
| `ReplayStores.AlwaysTrimmed` | console-broker/cmd/pmx-console-broker/replay_store.go:70-91 | if the first file has only ids without surrounding white space, so has every later one |
| `ReplayStores.AlwaysPast` | console-broker/cmd/pmx-console-broker/replay_store.go:70-91 | if the first file has no record from the future, no process ever finds one |
| `ReplayStores.BrokerVerdict` | console-broker/cmd/pmx-console-broker/main.go:208-231 | the exact verdict on any envelope whose trimmed id was recorded, in a store whose first file has trimmed ids and no records from the future: replayed if and only if the id has no surrounding white space, because ids are recorded trimmed and looked up as they come, a record of it was loaded in time and spared by every later process, and the rebuilt entry has not lapsed at the lookup |
| `ReplayStores.BrokerRedelivery` | console-broker/cmd/pmx-console-broker/main.go:208-231 | the same for an envelope that ran before: expired, else replayed under exactly that condition, else accepted; for every TTL, every issue time and every lookup time |
| `ReplayStores.BrokerAtMostOnce` | console-broker/cmd/pmx-console-broker/main.go:208-231 | at most once across processes for envelopes that were not issued for later, with ids without surrounding white space and a TTL above lifetime and skew, if every process in between that stopped in rewriting had written the record and the lookup comes within the TTL of the load |
| `ReplayStores.SpacedIdRunsTwice` | console-broker/cmd/pmx-console-broker/main.go:208-231 | every id with surrounding white space can run in two processes one after the other |
| `ReplayStores.SpacedIdExample` | console-broker/cmd/pmx-console-broker/main.go:208-231 | the job id `" a"` run by two processes one after the other |
| `ReplayStores.LateLookupRunsTwice` | console-broker/cmd/pmx-console-broker/replay_store.go:93-99 | a concrete pair of processes in which the record is loaded, but the lookup comes a TTL after the load and the envelope runs again |
| `ReplayStores.PostdatedRunsTwice` | console-broker/cmd/pmx-console-broker/replay_store.go:101-121 | a concrete pair of processes in which an envelope issued for later outlives its record and runs again |
| `EncryptedBackups.EncryptToTemp` | backup/internal/sync/sync.go:256-336 | the file is the header and one frame per non-empty read, whatever the reads returned; a failed read gives no file |
| `EncryptedBackups.EncodedBytes` | backup/internal/sync/sync.go:283-319 | the file byte by byte: magic, nonce, chunk size, and per chunk its length in little-endian order and its text sealed under nonce prefix and chunk number |
| `EncryptedBackups.DecryptFile` | backup/internal/sync/sync.go:338-425 | writes the chunks in front of the first malformed frame and reports the first error; each header error exactly in its case |
| `EncryptedBackups.NextChunk` | backup/internal/sync/sync.go:384-420 | reads one length-prefixed frame: truncated length, invalid length, truncated chunk and integrity failure exactly in their cases, else the chunk and the next position |
| `EncryptedBackups.ReadsBack` | backup/internal/sync/sync.go:299-420 | reading frames gives back their chunks in order, from any chunk number on, across 32-bit wrap-around |
| `EncryptedBackups.RoundTrip` | backup/internal/sync/sync.go:283-420 | for every source, nonce and way the reads split it, decryption returns exactly the source |
| `EncryptedBackups.AcceptsExactlyTheFormat` | backup/internal/sync/sync.go:345-420 | the reader accepts a file if and only if it is a header and sealed frames of 1 byte to 16 MiB |
| `EncryptedBackups.Truncation` | backup/internal/sync/sync.go:384-420 | a cut file yields exactly the leading whole chunks, and the cut goes unnoticed if and only if it falls between two frames |
| `EncryptedBackups.UnnoticedCutExample` | backup/internal/sync/sync.go:384-420 | two chunks cut between their frames decrypt to the first one without an error |
| `EncryptedBackups.NoncesRepeatOnlyAtWraparound` | backup/internal/sync/sync.go:299-319 | two frames of a file share a nonce if and only if their numbers agree modulo 2^32 |
| `AuditLogs.Log.constructor` | shared/audit/audit.go:60-76 | opening restores head and number from the file and leaves the file as it is |
| `AuditLogs.Log.Replay` | shared/audit/audit.go:219-248 | head and number of the last entry before the first line that does not decode |
| `AuditLogs.Log.Append` | shared/audit/audit.go:90-132 | a whole synced line advances head and number; anything less leaves both, and the bytes that got through stay in the file; the line holds the caller's fields, the next number and the previous hash, and its hash is the digest of previous hash, job id, command, step, exit code, duration and time, in that order |
| `AuditLogs.Log.Verify` | shared/audit/audit.go:184-215 | recomputes every hash over the previous one and names the first entry that differs |
| `AuditLogs.VerifyMeansChained` | shared/audit/audit.go:184-215 | any text verifies if and only if each line decodes and each hash covers the hash before it |
| `AuditLogs.FirstFailure` | shared/audit/audit.go:184-217 | the first line that does not decode is answered as undecodable, and the first whose hash does not cover the one before as tampered, with its number |
| `AuditRuns.RunsVerify` | shared/audit/audit.go:60-132 | over every run of successful appends and reopens the log verifies, is numbered in order as 64-bit words, and the writer holds the last hash and number |
| `AuditLogs.NumberWraps` | shared/audit/audit.go:97 | the n-th entry has number n modulo 2^64 |
| `AuditRuns.RunsVerifyIff` | shared/audit/audit.go:90-132 | over every run of reopens and appends, cut off anywhere, synced or not: the log verifies if and only if every append that wrote anything found the file at the start of a line, got its whole entry through and covered the last hash in the file |
| `AuditRuns.CoversLastHashIff` | shared/audit/audit.go:90-132 | an append covers the last hash if and only if the writer holds it, or two different strings have one digest |
| `AuditRuns.ReopenRestores` | shared/audit/audit.go:219-248 | replaying a whole log restores exactly what the writer held |
| `AuditRuns.CrashReplay` | shared/audit/audit.go:219-248 | after a crash anywhere in a line, replay restores the last whole entry; an entry lacking only its newline counts as whole |
| `AuditRuns.AppendAfterCrash` | shared/audit/audit.go:58-132 | the documentation says a partial line is cut off on opening, the code does not: an append after a crash verifies if and only if the crash fell between two lines |
| `AuditExamples.CrashSpoilsLog` | shared/audit/audit.go:58-132 | a crash after one character, a reopening and a successful append give a log that does not verify |
| `AuditExamples.UnsyncedSpoilsLog` | shared/audit/audit.go:110-118 | two whole appends, the first one not synced, give a log that does not verify |
| `AuditExamples.ToyIsLines` | shared/audit/audit.go:90-132 | a codec with everything that is asked of the JSON encoding |
| `AuditTampering.SameHeadSameLog` | shared/audit/audit.go:184-267 | two texts that verification accepts, in whatever JSON form, with as many lines and the same last hash agree line by line on hash and hashed fields, or a search over them yields two different strings with one digest |
| `AuditTampering.ReplacementUnnoticed` | shared/audit/audit.go:257-267 | an entry that keeps its hash can be replaced unnoticed if and only if the concatenated hashed fields are the same, or two different strings have one digest |
| `AuditTampering.EditNoticed` | shared/audit/audit.go:257-267 | an entry of a verified log edited in exactly one of job id, command, step, exit code, duration and rendered time, with its hash kept, is noticed, or two different strings with one digest are at hand |
| `Text.DecimalInjective` | shared/audit/audit.go:263-264 | different numbers are written differently |
| `Text.DigitsRead` | shared/audit/audit.go:263-264 | the digits of a number stand for it and have no needless zero in front |
| `AuditTampering.NumbersUncovered` | shared/audit/audit.go:257-267 | number and previous hash of any entry of any verified log can change unnoticed |
| `AuditTampering.BoundariesUncovered` | shared/audit/audit.go:257-267 | a concrete pair of entries with characters moved between two fields, of which one can stand for the other |
| `CanonicalCbor.HeadUnique` | shared-rust/src/envelope.rs:107-158 | a CBOR head is read back uniquely from the front of any byte string (section 3 of RFC 8949) |
| `CanonicalCbor.HeadMeans` | shared-rust/src/envelope.rs:153-157 | the bytes of a head: major type and argument as section 3 of RFC 8949 places them, in the shortest form |
| `CanonicalCbor.EncodeMeans` | shared-rust/src/envelope.rs:153-157 | which bytes stand for null, booleans, integers, text, arrays and maps |
| `CanonicalCbor.EncodeAllInOrder` | shared-rust/src/envelope.rs:75 | array items follow each other in order |
| `CanonicalCbor.EncodePairsInOrder` | shared-rust/src/envelope.rs:76-83 | map entries follow each other in order, each key in front of its value |
| `Bytes.BeforeMeans` | shared-rust/src/envelope.rs:143-151 | bytewise order: the first difference decides, and a proper prefix comes first |
| `CanonicalCbor.EncodingUnique` | shared-rust/src/envelope.rs:58-158 | no encoding is a prefix of another: equal byte strings mean equal values and equal rests |
| `CanonicalCbor.KeyOrderIsEncodedOrder` | shared-rust/src/envelope.rs:143-151 | for text keys of any length, shorter-first-then-bytes order holds if and only if the encodings are in bytewise order |
| `CanonicalCbor.NestedOrderIsDeterministicIff` | shared-rust/src/envelope.rs:58-83 | members of a nested map, sorted by name, are in deterministic order if and only if their name lengths do not decrease |
| `CanonicalCbor.NestedOrderExample` | shared-rust/src/envelope.rs:58-83 | two names whose sorted order is not the deterministic one |
| `SigningBytes.ToCborInjective` | shared-rust/src/envelope.rs:58-83 | different parameters become different CBOR values, at any depth |
| `SigningBytes.ToCborMeans` | shared-rust/src/envelope.rs:58-83 | what each kind of parameter becomes, with items and members in their places |
| `SigningBytes.CanonicalBytes` | shared-rust/src/envelope.rs:107-158 | the bytes are the encoding of the sorted field map, whatever order the fields were collected in |
| `SigningBytes.SignedMapReads` | shared-rust/src/envelope.rs:116-141 | a reader of the signed map finds exactly nine entries: every field but the signature, under its own name |
| `SigningBytes.SortItems` | shared-rust/src/envelope.rs:143-151 | sorting gives the one sorted list with the given fields |
| `SigningBytes.SortedUnique` | shared-rust/src/envelope.rs:143-151 | a sorted list of keyed values is determined by the map it holds |
| `SigningBytes.SignedKeysDeterministic` | shared-rust/src/envelope.rs:143-158 | the signed map lists its keys in bytewise order of their encodings |
| `SigningBytes.SigningBytesInjective` | shared-rust/src/envelope.rs:107-158 | equal signing bytes mean equal version, ids, audience, host, command, parameters and rendered times |
| `InterfaceConfigs.ValidateSpec` | network/src/persistence.rs:248-280 | the loop over ports accepts exactly the valid specifications: names, at most 32 distinct ports, no self-reference, VLAN id 1..4094 |
| `InterfaceConfigs.IfNameMeans` | network/src/persistence.rs:316-322 | an interface name has 1 to 15 letters, digits, dashes, underscores and dots, no two dots next to each other |
| `InterfaceConfigs.Parse` | network/src/persistence.rs:169-187 | only a valid specification of the interface asked for is ever loaded |
| `InterfaceConfigs.ParseMeans` | network/src/persistence.rs:169-187 | how a file with a specification line is read, by its first such line, with each error in its case |
| `InterfaceConfigs.ParseWithoutSpec` | network/src/persistence.rs:169-187 | how a file without one is refused |
| `InterfaceConfigs.RenderedLines` | network/src/persistence.rs:282-314 | a rendered file has exactly the lines of the specification |
| `InterfaceConfigs.RenderedText` | network/src/persistence.rs:282-314 | the lines of a rendered file spelled out: marker, specification, stanza, address, ports or none, spanning tree on or off, parent |
| `InterfaceConfigs.RenderLoads` | network/src/persistence.rs:169-187 | loading a rendered valid specification gives it back |
| `InterfaceConfigs.RenderDefines` | network/src/persistence.rs:337-348 | a rendered file defines an interface if and only if it is its own one |
| `InterfaceConfigs.DefinesMeans` | network/src/persistence.rs:337-348 | a text defines an interface exactly if some line, up to a hash sign, begins with the words iface and its name |
| `IfupdownStores.IfupdownStore.NoForeignDefinition` | network/src/persistence.rs:215-240 | true exactly when neither the main file nor any other regular file defines the interface and all could be read |
| `IfupdownStores.IfupdownStore.Write` | network/src/persistence.rs:123-139 | succeeds exactly for a valid, unconflicted, new or replaceable file; each refusal has its reason; names the one failure that still changed the directory |
| `IfupdownStores.IfupdownStore.Remove` | network/src/persistence.rs:141-153 | succeeds exactly for a managed file; each refusal has its reason; names the one failure that still changed the directory |
| `IfupdownStores.IfupdownStore.Rollback` | network/src/persistence.rs:155-167 | restores the snapshot, or reports that it may not have |
| `IfupdownStores.LoadMeans` | network/src/persistence.rs:169-187 | a specification is loaded only from a readable file of its own name, valid and with that name; a file rendered for a specification gives exactly that one; each error in its case |
| `IfupdownStores.RollbackUndoesWrite` | network/src/persistence.rs:123-167 | a write followed by its rollback leaves the directory as it was, byte for byte |
| `IfupdownStores.RollbackUndoesRemoval` | network/src/persistence.rs:141-167 | a removal followed by its rollback leaves the directory as it was, byte for byte |
| `IfupdownStores.StoredLoads` | network/src/persistence.rs:123-187 | what was stored is loaded |
| `IfupdownStores.AlwaysUnique` | network/src/persistence.rs:123-240 | over every run of transactions no managed interface is defined by a second file |
| `ManagedFormat.FormatIsSound` | network/src/persistence.rs:282-348 | the concrete text format satisfies everything the store and the transactions rely on |
| `KernelLinks.Runner.Run` | network/src/netlink/mod.rs:20-36 | a command may or may not have taken effect, whatever it reported |
| `KernelLinks.EffectTouches` | network/src/bridge/mod.rs:217-257 | every command changes its own link alone, except that deleting a link takes the VLANs on top of it along, at any depth, and frees the members of what is gone |
| `KernelLinks.EffectKeepsGrounded` | network/src/bridge/mod.rs:217-257 | no command leaves a link with a master or a parent that does not exist |
| `NetworkPlans.PlanAchievesIff` | network/src/bridge/mod.rs:217-302 | if every command takes effect, the read-back confirms the specification if and only if its ports or parent exist and the kernel shows its address as written |
| `NetworkPlans.BridgePlanBrings` | network/src/bridge/mod.rs:217-257 | if every command takes effect, the bridge is up with its spanning-tree setting and address, every port that exists is up and its member, and every other link is as before |
| `NetworkPlans.VlanPlanBrings` | network/src/vlan/mod.rs:84-107 | if every command takes effect and the parent exists, the VLAN is up on its parent with its id and address, and every other link is as before |
| `NetworkPlans.PortsAttach` | network/src/bridge/mod.rs:240-247 | the port commands make every existing port a member that is up, and change no other link |
| `NetworkTransactions.VerifyBridge` | network/src/bridge/mod.rs:259-302 | a yes means an active bridge with every requested port and the address, a no means that it is not so |
| `NetworkTransactions.VerifyVlan` | network/src/vlan/mod.rs:109-168 | a yes means an active VLAN with the requested id and the address, a no means that it is not so |
| `NetworkTransactions.VerifyAddress` | network/src/bridge/mod.rs:304-337 | a yes or no answers whether the address and prefix are shown on the link |
| `NetworkTransactions.VerifyPortMaster` | network/src/bridge/mod.rs:339-365 | a yes or no answers whether the port has the expected master, or none |
| `NetworkTransactions.ApplyRuntime` | network/src/bridge/mod.rs:217-257 | success means all commands of the specification were given in order and the read-back confirms it, and with well-behaved commands that ports are up, the spanning-tree setting is the one asked for and a VLAN is on its parent; a failure means a command misbehaved, no answer came, or the plan cannot achieve the specification; no other link is touched |
| `NetworkTransactions.RollbackCreated` | network/src/bridge/mod.rs:374-387 | success means the link is gone |
| `NetworkTransactions.Create` | network/src/bridge/mod.rs:7-44 | all or nothing for bridges and VLANs: success means stored and live state agree, and with well-behaved commands that every port is up and a member, the spanning-tree setting is the one asked for and a VLAN is on its parent; a failure that is not a failed rollback leaves the directory as it was unless only the sync after the write failed, and the link's existence as before; protected ports are refused; every failure but a missing read-back has its reason; other links change at most in master and by being set up |
| `NetworkTransactions.RemoveManaged` | network/src/vlan/mod.rs:43-82 | success means file and link are gone; a failure that is not a failed restore leaves the directory as it was unless only the sync after the removal failed; the links are as before or as the delete command leaves them |
| `NetworkTransactions.DestroyBridge` | network/src/bridge/mod.rs:46-96 | as RemoveManaged, and only for a managed, unprotected bridge without members |
| `NetworkTransactions.DestroyVlan` | network/src/vlan/mod.rs:43-82 | as RemoveManaged, and only for a managed, unprotected VLAN |
| `NetworkTransactions.CheckPort` | network/src/bridge/mod.rs:98-114 | passes only an unprotected port, a managed bridge that lists it exactly if it is to be removed, and a kernel that agrees; every refusal but a missing read-back has its reason |
| `NetworkTransactions.PortAdd` | network/src/bridge/mod.rs:98-153 | all or nothing: success appends the port to the stored bridge and confirms its master; otherwise directory (same exception) and the port's master are as before; with well-behaved commands it is unconfirmed only if the bridge has no link |
| `NetworkTransactions.PortRemove` | network/src/bridge/mod.rs:155-215 | all or nothing: success removes the port from the stored bridge and confirms that it has no master; otherwise as before; with well-behaved commands it is never unconfirmed |
| `NetworkTransactions.WithoutPort` | network/src/bridge/mod.rs:179-180 | removing a port removes all its occurrences and nothing else |
| `NetworkTransactions.DetachedMore` | network/src/bridge/mod.rs:179-180 | the other ports keep their order |
| `NetworkAgreement.CreateAgreesIff` | network/src/bridge/mod.rs:7-44 | where every stored specification is confirmed by the links, a created link keeps it so if and only if no other stored bridge lists one of its ports; a failed creation keeps it in that case, and one whose directory sync failed always breaks it |
| `NetworkAgreement.DestroyAgreesIff` | network/src/vlan/mod.rs:43-82 | a destroyed link keeps the agreement if and only if no other stored specification needs it or a VLAN on top of it; a failed destruction if and only if the links are as before |
| `NetworkAgreement.PortAddAgreesIff` | network/src/bridge/mod.rs:98-153 | adding a port keeps the agreement if and only if it is not just the directory sync that failed |
| `NetworkAgreement.PortRemoveAgrees` | network/src/bridge/mod.rs:155-215 | removing a port keeps the agreement whatever fails, short of a failed rollback |
| `NetworkAgreement.AlwaysAgrees` | network/src/bridge/mod.rs:7-215 | over every run of such transactions the stored specifications stay confirmed by the links |
| `NetworkAgreement.AlwaysGrounded` | network/src/bridge/mod.rs:7-215 | over every run masters and parents exist, so a name that no link has is used by no link, which is what creating asks for |
| `NetworkAgreement.SharedPortExample` | network/src/bridge/mod.rs:7-44 | a second bridge takes the port of a stored one: both files remain, one bridge is no longer confirmed |
| `NetworkAgreement.ListedVlanExample` | network/src/vlan/mod.rs:43-82 | a VLAN that a stored bridge lists as its port is destroyed: the bridge is no longer confirmed |
| `HardeningJobs.ApplyTracker.constructor` | security/internal/hardening/state.go:54-87 | all operations queued, and the index finds each by name |
| `HardeningJobs.ApplyTracker.Update` | security/internal/hardening/state.go:89-125 | changes one operation, and what is saved keeps the shape success*, at most one running or failed, queued*, and is true to what became of the operations |
| `HardeningJobs.ApplyTracker.Finish` | security/internal/hardening/state.go:127-141 | changes the job's status alone; success is saved only when all operations succeeded |
| `HardeningJobs.ApplyOne` | security/internal/hardening/hardening.go:81-127 | one operation: without a lost save it succeeds exactly if it ends well, noted as a no-op exactly if its check passed, and else the failed job is what was saved last; whatever was saved on the way is well shaped |
| `HardeningJobs.ApplyOperations` | security/internal/hardening/hardening.go:61-132 | crash at any persist point: every saved job has the shape, its finished operations ended well and are noted as no-ops exactly if their checks passed, and its running one is under its check unit or, after a failed check, under its apply unit; success is saved once, last; the job succeeds if and only if no save is lost and every operation ends well, and otherwise the failure is saved last |
| `HardeningJobs.ReportSplits` | security/internal/hardening/hardening.go:79-131 | the applied and no-op lists together report every operation exactly once |
| `HardeningJobs.ReportIsTruthful` | security/internal/hardening/hardening.go:94-127 | a reported no-op passed its check, a reported application failed its check and ran well |
| `HardeningProfiles.ResolveOperations` | security/internal/hardening/hardening.go:154-175 | a request resolves to known operations without repetition: for a custom profile exactly those asked for, sorted, else those of the named profile |
| `HardeningProfiles.ProfilesAre` | security/internal/hardening/hardening.go:28-37 | which operations each profile has, and which operations there are |
| `Text.LowerMeans` | security/internal/hardening/hardening.go:155 | capital letters become small ones, and nothing else changes |
| `HardeningProfiles.DedupeSorted` | security/internal/hardening/hardening.go:194-206 | the sorted list of the distinct inputs |
| `HardeningProfiles.Apply` | security/internal/hardening/hardening.go:61-132 | a request succeeds if and only if it resolves, no save is lost and every operation it asks for ends well; a reported success covers exactly the operations of the request, each reported once, as applied or as a no-op; a request that does not resolve saves nothing; every saved job carries the request's job id, or local, and profile |
| `HardeningReconcile.ReconcileOne` | security/internal/hardening/state.go:268-324 | settles each running operation by its scope and reports changed, running and failed as they are |
| `HardeningReconcile.SettledMeans` | security/internal/hardening/state.go:268-324 | what becomes of one operation: untouched, still running, closed as a success only for exit code 0 or result success, and otherwise failed with the reason |
| `HardeningReconcile.ReconciledMeans` | security/internal/hardening/state.go:211-266 | what becomes of any saved job, well shaped or not: which status and error, and that id and profile stay |
| `HardeningReconcile.ReconcileApplyStates` | security/internal/hardening/state.go:211-266 | the pass succeeds if and only if every file decodes and every changed one can be written, and else stops at the first that does not; every file before is reconciled, later and finished ones never change |
| `HardeningReconcile.ReconcileTwice` | security/internal/hardening/state.go:211-324 | a second reconciliation with the same scope answers changes nothing |
| `HardeningReconcile.InterruptedVerdict` | security/internal/hardening/state.go:211-336 | an interrupted job stays running exactly while its scope is live, and ends as success exactly if the scope ended cleanly and the operation was the last; which error a failed one gets |
| `HardeningReconcile.ReconciledSuccess` | security/internal/hardening/state.go:268-336 | if clean scopes ran processes that ended well, a reconciled success means that every operation ended well; it is the job that would have been saved without the interruption if and only if the last operation's check had not passed, because one caught under its check unit is not noted as a no-op |
| `HardeningReconcile.LostNoopExample` | security/internal/hardening/state.go:268-336 | a concrete operation whose check passed, closed as a success but not as a no-op |
| `HardeningReconcile.StillRunningIff` | security/internal/hardening/state.go:211-336 | exactly which jobs stay running: a live scope, or a crash between two operations |
| `HardeningReconcile.StuckExample` | security/internal/hardening/state.go:211-266 | a concrete job caught between two operations stays running although nothing runs |
| `HardeningReconcile.ReconcileKeepsShape` | security/internal/hardening/state.go:211-336 | a reconciled job has the shape again, so success still means that all operations succeeded |
| `RetentionPolicies.ApplyRule` | backup/internal/retention/retention.go:92-145 | the loop adds exactly the paths the rule keeps |
| `RetentionPolicies.ComputeKeepSet` | backup/internal/retention/retention.go:92-145 | the union of what the three rules keep; a rule with a count of zero or less keeps nothing |
| `RetentionPolicies.KeepSetMeans` | backup/internal/retention/retention.go:92-145 | a path is kept if and only if an archive with it is the first of its day with fewer days in front than the daily count, or the same for weeks and the weekly, or months and the monthly count |
| `RetentionPolicies.KeptExactly` | backup/internal/retention/retention.go:92-145 | a rule keeps an archive if and only if it is the first of its bucket and fewer than N buckets come before it |
| `RetentionPolicies.LargerPolicyKeepsMore` | backup/internal/retention/retention.go:92-145 | a larger policy keeps a superset |
| `RetentionPolicies.Split` | backup/internal/retention/retention.go:171-177 | the loop separates kept and would-delete in list order |
| `RetentionPolicies.SplitPartitions` | backup/internal/retention/retention.go:171-177 | kept and would-delete partition the list as multisets |
| `RetentionPolicies.RecomputeKeepsAll` | backup/internal/retention/retention.go:92-177 | applying the policy to what it kept deletes nothing, for arbitrary bucket keys |
| `S3Uploads.PiecesTile` | backup/internal/s3/s3.go:140-144 | the parts joined in order are exactly the file |
| `S3Uploads.PieceAt` | backup/internal/s3/s3.go:140-153 | part n exists if and only if its offset of n-1 times 8 MiB is inside the file, and holds the 8 MiB from there or what is left |
| `S3Uploads.CompletesToFileIff` | backup/internal/s3/s3.go:145-151 | a completed upload holds the file if and only if every reused part does: reuse compares sizes only |
| `S3Uploads.StalePartExample` | backup/internal/s3/s3.go:145-151 | a concrete part of equal size and different content that goes through |
| `S3Uploads.Transfer.StartUpload` | backup/internal/s3/s3.go:113-129 | a new empty upload whose id is saved under bucket and key; a failure leaves the saved state |
| `S3Uploads.Transfer.UploadMissing` | backup/internal/s3/s3.go:140-172 | every part number ends up provided: the part found if it has the size and an entity tag, else this file's; on failure only parts found or parts of this file are there |
| `S3Uploads.Transfer.Push` | backup/internal/s3/s3.go:96-193 | success completes exactly the assembly of found and own parts; every outcome leaves parts that were found or are this file's; a run fails only if a request fails, the file has more than 10000 parts, bucket or key is blank, or the saved upload has vanished, and then without effect |
| `S3Uploads.ResumedUploadIsTheFile` | backup/internal/s3/s3.go:96-193 | however many runs on unchanged content were interrupted, and wherever, the next completing run produces exactly the file |
| `Rulesets.GroupRules` | network/src/nftables/mod.rs:256-272 | succeeds exactly when every rule renders and names a declared chain; each chain's list is its own rules in source order |
| `Rulesets.ExprTextMeans` | network/src/nftables/mod.rs:334-351 | which word each expression is written with; a jump needs a safe target |
| `Rulesets.RuleTextMore` | network/src/nftables/mod.rs:334-351 | a rule's text is the words of its expressions in order, one space apart |
| `Rulesets.RenderIsolationTable` | network/src/nftables/mod.rs:304-332 | fails exactly when an allowed source is no address; configured sources come first, then new ones once each |
| `Rulesets.AllowedKeeps` | network/src/nftables/mod.rs:305-310 | the allowed sources are the configured ones in front, then the others in their order, each once; as a set the union |
| `Rulesets.RenderRuleset` | network/src/nftables/mod.rs:256-302 | the error cases exactly, and otherwise a text with the isolation table in front |
| `Rulesets.IsolationIntact` | network/src/nftables/mod.rs:353-359 | the isolation check never fails on a rendered ruleset |
| `RulesetReadings.ChainsRead` | network/src/nftables/mod.rs:281-299 | reading the blocks of the table gives the declared chains in order, each with exactly its rules |
| `RulesetReadings.ChainBlockReads` | network/src/nftables/mod.rs:281-299 | a chain line by line: hook line with type, hook, priority and policy, their defaults, and then its rules |
| `RulesetReadings.RulesInOrder` | network/src/nftables/mod.rs:262-272 | a chain holds the rules that name it, in the order given |
| `RulesetReadings.IsolationReads` | network/src/nftables/mod.rs:304-332 | the isolation table line by line: established connections and ssh from the allowed sources, and the configured policy for the rest |
| `RulesetReadings.RenderedTextReads` | network/src/nftables/mod.rs:256-302 | reading back the text of a ruleset that passed the checks finds the isolation table first, then one other table with the declared chains and exactly their rules |
| `RulesetReadings.EachRuleOnceIff` | network/src/nftables/mod.rs:262-298 | each rule is written at least once, and the count of rule lines equals the count of rules if and only if no rule's chain is declared twice |
| `RulesetReadings.RepeatedChainExample` | network/src/nftables/mod.rs:262-298 | a chain declared twice holds its one rule twice |
| `Firewalls.Firewall.Load` | network/src/nftables/mod.rs:107-157 | which outcome an apply has, by what goes wrong first; only an acceptable ruleset is loaded, and then its rendered text; what each failure leaves of rules and flag |
| `Firewalls.Firewall.ApplyRules` | network/src/nftables/mod.rs:107-157 | the outcome, the loaded text, and the step of flag and rules that an apply takes |
| `Firewalls.Firewall.EmergencyLockdown` | network/src/nftables/mod.rs:178-227 | the outcome, the loaded text, and the step that a lockdown takes; without networks it is refused |
| `Firewalls.LockdownTextReads` | network/src/nftables/mod.rs:178-222 | read back, the text of a lockdown has one table behind the isolation table, with the one chain input: policy drop, one accepting rule per network in order, nothing else |
| `Firewalls.AcceptableMeans` | network/src/nftables/mod.rs:229-254 | what the checks in front of nft ask of a ruleset, spelled out |
| `Firewalls.LoadOutcomeMeans` | network/src/nftables/mod.rs:107-157 | which outcome an apply has, by what goes wrong first |
| `Firewalls.LockdownOutcomeMeans` | network/src/nftables/mod.rs:178-227 | which outcome a lockdown has |
| `Firewalls.ClearOutcomeMeans` | network/src/nftables/mod.rs:159-176 | which outcome a clear has |
| `Firewalls.Firewall.ClearRules` | network/src/nftables/mod.rs:159-176 | the outcome, the loaded text, and the step that a clear takes: refused exactly while the flag is on, and the flag never changes |
| `Firewalls.SyncStep` | network/src/nftables/mod.rs:107-227 | a completed command puts flag and rules in step from any state; a failed link keeps them in step if and only if lockdown and normal rules did not change places; a failed flag write never after an apply, and after a lockdown only if the flag was on and still is |
| `Firewalls.StaleFlagExample` | network/src/nftables/mod.rs:144-150 | normal rules loaded over a lockdown whose link fails: the flag stays on |
| `Firewalls.LockdownReachesNftIff` | network/src/nftables/mod.rs:178-222 | a lockdown gets as far as nft if and only if networks are given but not too many, its revision is valid, every network and configured source is an address, the flag can be read and the text can be staged |
| `Firewalls.FlagFollowsLastDone` | network/src/nftables/mod.rs:107-227 | over every command sequence in which the writes after nft succeed, the flag is on exactly when the last completed apply or lockdown was a lockdown |
| `Firewalls.ClearRefusedIff` | network/src/nftables/mod.rs:159-163 | in such a sequence a clear is refused if and only if that is so |
| `Firewalls.DoneResyncs` | network/src/nftables/mod.rs:107-227 | after failed writes the next completed command puts flag and rules in step again, and they stay so |
| `Firewalls.DamagedFlagSticks` | network/src/nftables/mod.rs:389-405 | a damaged flag file makes every later command fail without effect |
| `KernelCmdlines.MergeKernelCmdline` | hardware-installer/internal/sriov/sriov.go:132-166 | a line without the variable stays, one without two equal quotes around the value is an error; otherwise the words between the quotes are joined with the missing ones, and a change is reported exactly when one is missing |
| `KernelCmdlines.AddedCompletes` | hardware-installer/internal/sriov/sriov.go:153-161 | the added tokens complete the list and are required ones that were missing |
| `KernelCmdlines.AddedInOrder` | hardware-installer/internal/sriov/sriov.go:153-161 | tokens are added in the order in which they are required |
| `KernelCmdlines.AddedOnce` | hardware-installer/internal/sriov/sriov.go:153-161 | no token is added twice |
| `KernelCmdlines.MergedTokens` | hardware-installer/internal/sriov/sriov.go:132-166 | reading a merged line gives the old tokens in order and then the missing ones |
| `KernelCmdlines.MergeTwice` | hardware-installer/internal/sriov/sriov.go:132-166 | a second merge changes nothing if and only if every required token is a word |
| `KernelCmdlines.BlankTokenExample` | hardware-installer/internal/sriov/sriov.go:132-166 | an empty required token is lacking again after the merge |
| `KernelCmdlines.GrubDefaults.EnsureGrubTokens` | hardware-installer/internal/sriov/sriov.go:99-130 | which error or answer for which file: a malformed line fails the whole edit, a change is reported exactly when some matching line lacks a token; the file is replaced as a whole or not at all |
| `KernelCmdlines.RewrittenLine` | hardware-installer/internal/sriov/sriov.go:99-130 | a reader of the rewritten file finds as many lines, each matching one completed, every other one as it was less a carriage return |
| `KernelCmdlines.SecondRunChangesNothing` | hardware-installer/internal/sriov/sriov.go:99-166 | a second run finds a well-formed file that lacks nothing |

## Left out

- Cryptography, JSON and time formatting are parameters with the facts the proofs need: opening undoes sealing and opens only sealed texts, encoded audit entries decode to themselves and neither a piece of one nor several glued together decode, valid specifications decode to themselves on one line.
- Verifications that overlap: a run handles one envelope after the other, with the purge in between and inside.
- Address and match-expression validation of the firewall are parameters; reading the text back needs that what they return stays on one line.
- nft's own semantics: a loaded text is what counts as loaded, a failed transaction as not loaded.
- Audit time stamps outside the years 0 to 9999, which fail to encode before anything is written.
- Scanner line limits, invalid UTF-8 and text beyond ASCII in case folding.
- Write errors while encrypting a backup, and the removal of the partial file.
- Time stamps inside hardening job states, and the profile scripts themselves.
- A state file torn by a failed write: the upload state and the hardening states are replaced as a whole or not at all.
- Dangling symbolic links in the interface directory, and reads of interface files beyond the size bound, which count as unreadable.
- Interface read-backs that answer wrongly: a read-back fails or shows the links as they are.
- Encrypted uploads, which read differently on every run, so that content is not unchanged across runs.
- Retention's file names and sidecar files.
- The Rust replay cache, whose eviction does not follow insertion order, and the Rust audit log, which mirrors the Go one.
- Floats and integers beyond 64 bits in parameters.
- Package updater, WebSocket clients, TLS, command dispatch, collectors and the wrappers of system tools.
- ReplayCaches.ReplayCache.Remember: list elements are values here; the source shares list elements with its index and moves them in place.
- NetworkTransactions.Create: a failure may leave member ports without their former master or set up; the source neither records nor restores that.
- NetworkTransactions.RemoveManaged: a failure may leave the link deleted; the source does not create it again.
- NetworkTransactions.VerifyBridge: does not confirm the spanning-tree setting or that the ports are up; the source does not read them back.
