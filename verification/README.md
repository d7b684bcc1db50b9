# Verified models of FractalSQL's stateful cores

This project models, in Dafny, the parts of FractalSQL in which most of the state, the branching and the
text handling is: the append-only audit ledger, the session registry, the JSON text machinery around audit
records, the dispatch of the reason and embed tiers with its per-session configuration, the streaming
digest, the corpus parsers, and two components of the MCP server. Every operation that the source performs
in place is a method over fields, arrays or linked objects, proved against a function on values; what the
system promises is then proved about those functions, over all inputs and over whole runs.

`dafny verify dfyconfig.toml` checks the whole project.

## The components

**Ledger** (LedgerFormat, LedgerReader, LedgerChain, LedgerStore, HeadText, LedgerRuns, LedgerGuard). One file
interleaves the hash chains of up to 16 record kinds. A file is a byte sequence; `Records` and `Tail` say what
every reader sees of it. The class `Ledger` holds the two files on disk and performs the append (scan,
torn-tail repair in place, link, write, head update) and the verification. A crash is any prefix of the bytes
of an append reaching the disk, with the head file untouched. The main result is `CrashSafety`: after any run
of appends of any kinds, each finishing or crashing at a safe point, the next append succeeds, the file is
exactly the surviving records in order, and every kind verifies with its count. "Safe" leaves out one to three
bytes of a record and a partial file header, and `AppendReadBack`, `StrayHidesRecord` and `HeaderCrash` say
exactly what happens there. `AcknowledgedIsGuarded` is the point of the head file: no file with a record less
passes verify beside it. `TipFixesContents` and `TamperIsSeen` need no assumption that the hash is injective
(no 32-byte digest is): where the conclusion fails, two inputs that these very records hold collide, or one of
them hashes to zero. LedgerGuard writes out what a verification guarantees, byte by byte and as an
equivalence, and what the head file's MACs are worth once it has been edited (`EditedCountFails`). `HeadText`
takes the head file down to its characters: what a run leaves in it is what the next reader parses.

**Digest** (Sha256). The context class with its 64-byte buffer against FIPS 180-4 sections 5.1.1, 5.3 and
6.2.2 on whole messages, and HMAC against RFC 2104 section 2. The block function, its initial value and its
output form are a parameter, so no claim depends on the round constants or on the strength of the hash.

**Sessions** (SessionModel, SessionRegistry, SessionProtocol, SessionEffects, Latch). SessionRegistry is the
heap: 1024 bucket chains and a doubly linked list through the same entries, unlinked and relinked pointer by
pointer. Every public operation is proved to compute a function on the list of entries, and SessionProtocol
proves what follows over every interleaving of acquires, releases, closes and flag writes: exclusion in both
directions, one context for the lifetime of a hold, refusal only for the stated reasons, and eviction of the
least recently used unpinned entry. SessionEffects reads every call session by session, field by field, and
says when a session can disappear at all. Latch is the ring of locked ids and says exactly how long an id
stays.

**JSON** (JsonSyntax, JsonScan, JsonEscapes, JsonValidator, JsonRedactor, JsonRedaction, JsonPrivacy,
JsonKeys, JsonBuild, AuditRecord, AuditDocument, AuditMeaning, AuditActor, AuditNul). A document is a concrete
syntax tree, white space included, whose print is its text. `Strict` picks the trees with the shape of JSON:
keys that are strings, one value for each, and any byte behind a backslash. The one-pass stack machine accepts
exactly the documents of its loose grammar of depth at most 64. The redactor, a pointer walk over text, is
proved to terminate and to perform a rewriting of the tree; JsonPrivacy says what is left of a sensitive text,
and exactly which documents the result cannot tell apart. The key finder and the number readers agree with the
tree of every printed object. An audit record is the print of a document built from its payload's;
`WellFormedRecord` gives the exact condition under which the validator accepts it again, and `OnlyActorIff`
the one under which its attribution stands alone.

**Configuration and dispatch** (ConfigKeys, Overlay, OverlayTable, OverlayHistory, OverlayJson, BridgeEnv,
Fingerprint, Dispatch, DispatchSettings, DispatchWindow, Cognition, Sentinel). The overlay is 256 slots with
stamps, proved to be a bounded map that gives up its least recently touched session. A loaded instance has the
plugin path and the environment of its load baked in. A call is several steps: publish and load, dispatch, and
the end of its bracket variable by variable; overrides, resets and the writes of other tiers may come between
them. `DispatchIsOwn` and `DispatchIsBaked` say, over every such interleaving, that a call is served by an
instance with its own effective configuration baked in. DispatchSettings follows every single setting from the
boot environment or the pushed file to the variable it ends in. DispatchWindow says exactly what becomes of
the environment meanwhile. Cognition is the same state machine as the source keeps it: static fields,
fingerprints with valid flags, and the environment written variable by variable. Sentinel is the
partial-result document.

**Parsers and MCP** (Corpus, Concurrency, ConfFile). Both corpus notations are read as the same rows, and the
growing store holds them inside its bounds. The concurrency manager's counts equal its live tokens over every
run. An accepted configuration map is written and read again unchanged exactly when a file could have given
it, and no key or value can produce a line of its own.

Helpers: ByteStrings, Texts, SeqFacts, Wrappers.

## Where the code and its documentation differ

The model follows the code.

- The record reader calls its first return value "no bytes read at all", but one to three stray bytes are
  taken for the end of the file too (src/fractalsql_enterprise.c:1826-1827). An append behind such bytes is
  acknowledged and then not readable; `AppendReadBack` gives the exact condition for any file.
- The head file's counter "never goes down", except that a head file that does not parse is replaced for all
  kinds at once (src/fractalsql_enterprise.c:1482-1487): `DamagedHeadForgotten`, beside `HeadMonotone`.
- "With a key configured every head record MUST carry a MAC" (src/fractalsql_enterprise.c:1229-1231), but while
  the ledger file itself is missing verify looks at the count alone: `VerifiedIff`.
- Two fingerprints are said to be equal "exactly when the plugin would read the same configuration"
  (src/fractalsql_config.h:262-265). Hash collisions apart, that fails for a variable whose value is the name
  of the next one while that one is unset; `TellsApart` says that this family is the only exception, and
  `DispatchIsBaked` that no two environments a tier publishes fall into it.
- The comment above the audit record's format strings says that the document's outer shape is unchanged
  (src/fractalsql_enterprise.c:3329-3331). The validator lets a NUL byte stand behind a backslash, and
  "%.*s" stops at it: `NulSpoilsRecord` and `WellFormedRecord`.
- "_actor" is said to be reserved for the attribution block (src/fractalsql_enterprise.c:3292), but the name is
  looked for as it is written. A payload may spell it with escapes: `SpelledActor` is one, and `OnlyActorIff`
  the exact condition. The redactor compares its sensitive names in the same way: `EscapedKeyIsNotSensitive`.
- The comment on the embed bracket says that every other tier's publish needs the lock that the call holds
  (src/fractalsql_cognition.c:1008-1012). That lock is static in its file (line 394), and the text-to-SQL tiers
  have their own (src/fractalsql_textsql.c:249). They share only the environment lock, which is released before
  the dispatch. `TextToSqlSpoilsEmbed` and `GenerateSpoilsReason` show what a dispatch then finds,
  `OwnEnvironmentIff` is the exact condition, and `BracketLosesWrites` and `LateWriteStays` are about its end.
  The instance that serves the call is not affected (`DispatchIsBaked`).
- Overrides are looked up in buffers of the longest value a key may have (src/fractalsql_config.c:396-485), but
  integers are accepted at any length: `LongIntegerIsCut`, and `OverridesFit` for every other kind. The guard
  in front of the SQL function (src/fractalsql_config_udf.c:208) is not part of this model.

## Model

| member | source | states |
|---|---|---|
| LedgerFormat.HeaderRoundTrip | src/fractalsql_enterprise.c:2334-2342 | the 116 header bytes decode to the fields and the blob length that were encoded |
| LedgerFormat.ReadEncoded | src/fractalsql_enterprise.c:2334-2343 | a complete record in front of anything is read back as it was written, and the rest is what stands behind it |
| LedgerFormat.ReadOnto | src/fractalsql_enterprise.c:1816-1838 | only the bytes of a complete record are read as one: reading and encoding are inverse in this direction too |
| LedgerFormat.ReadEncodedAll | src/fractalsql_enterprise.c:2906-2939 | any list of encoded records in front of any bytes reads as that list, and then as those bytes do |
| LedgerFormat.Decompose | src/fractalsql_enterprise.c:2004-2041 | every file is its complete records followed by a tail at which no record starts |
| LedgerFormat.PrefixIsTorn | src/fractalsql_enterprise.c:2004-2041 | no proper prefix of a record reads as a record, at any cut point |
| LedgerFormat.OfKindAppend | src/fractalsql_enterprise.c:1893-1976 | the projection to one kind distributes over concatenation |
| LedgerReader.File.Read | src/fractalsql_enterprise.c:1816-1838 | a read returns the next n bytes, or comes up short and leaves the stream at its end |
| LedgerReader.ReadRecordHeader | src/fractalsql_enterprise.c:1816-1838 | end of file exactly when fewer than 4 bytes remain, a header exactly when 116 do, and the fields at their offsets |
| LedgerReader.ReadRecord | src/fractalsql_enterprise.c:2906-2938 | header, length check and blob, in place on the stream, agree with the reading function in every outcome |
| LedgerReader.ScanLatestTwo | src/fractalsql_enterprise.c:1893-1976 | succeeds exactly on a clean file, and returns the last two records of the kind and both counts |
| LedgerChain.ChainAppend | src/fractalsql_enterprise.c:2906-2977 | a chain verifies with one more record exactly when it verifies and the record links to its newest hash |
| LedgerChain.WalkFile | src/fractalsql_enterprise.c:2906-2977 | the verifier's loop reports what the walk function reports, row numbers and reasons included |
| LedgerChain.WalkVerifies | src/fractalsql_enterprise.c:2906-2977 | the walk succeeds exactly on a clean file whose records of the kind chain up from the genesis hash, and then returns their number |
| LedgerChain.WalkNamesFirstFault | src/fractalsql_enterprise.c:2907-2975 | a failing walk names the first record, counted over all kinds, that breaks its chain, with the reason |
| LedgerChain.VerifyLatest | src/fractalsql_enterprise.c:2580-2656 | on an open file the O(1) check accepts exactly when the newest record of the kind passes every check against the one before it |
| LedgerChain.FullImpliesTip | src/fractalsql_enterprise.c:2571-2657 | whatever the full walk accepts, the tip check accepts |
| LedgerChain.TipFixesBodies | src/fractalsql_enterprise.c:2300-2310 | two verified chains with one newest hash have the same blob-and-MAC bodies in the same order, or the failing hash inputs are returned |
| LedgerChain.TipFixesContents | src/fractalsql_enterprise.c:2943-2973 | with a key configured the newest hash fixes every blob and every MAC separately |
| LedgerChain.KeyForcesMac | src/fractalsql_enterprise.c:2943-2948 | with a key every record of a verified chain carries a MAC that matches its blob |
| LedgerChain.TamperIsSeen | src/fractalsql_enterprise.c:2857-3013 | any edit, deletion, insertion or reordering before an unchanged newest record makes the full walk fail, or exhibits a failure of the hash |
| LedgerStore.Ledger.OpenForRead | src/fractalsql_enterprise.c:1855-1871 | opens exactly the files with magic and version, positioned behind them, and tells a missing file from a bad header |
| LedgerStore.Ledger.FindTear | src/fractalsql_enterprise.c:2004-2041 | the offset of the first record that does not read, or -1 on a clean file |
| LedgerStore.Ledger.RepairTornTail | src/fractalsql_enterprise.c:2004-2073 | truncates in place to the complete records and leaves every other file as it was |
| LedgerStore.RepairedIsClean | src/fractalsql_enterprise.c:2043-2073 | a repaired file is clean and holds the same records; if it was torn it is exactly those records |
| LedgerStore.Ledger.HeadUpdate | src/fractalsql_enterprise.c:1475-1527 | the head after an append: high-water count, MAC, the slot found or added, an unparsable file started anew |
| LedgerStore.Ledger.ScanForAppend | src/fractalsql_enterprise.c:2239-2288 | scan, repair on failure and rescan: the repaired file, the newest record of the kind and its count |
| LedgerStore.Ledger.BuildRecord | src/fractalsql_enterprise.c:2282-2310 | the record that links to the newest of its kind, with MAC and entry hash |
| LedgerStore.Ledger.OpenForAppend | src/fractalsql_enterprise.c:2090-2237 | every refusal leaves the file alone; a new file gets its header, of which any prefix may survive a crash |
| LedgerStore.Ledger.AppendRecord | src/fractalsql_enterprise.c:2239-2375 | the repaired file with the surviving prefix of the new record, and the head touched only by a finished append |
| LedgerStore.Ledger.WriteEntry | src/fractalsql_enterprise.c:2076-2375 | the whole append is the transition that the run theorems are about |
| LedgerStore.Ledger.VerifyKind | src/fractalsql_enterprise.c:2857-3013 | missing file, bad header, walk, head check and row comparison, in that order |
| LedgerStore.Ledger.VerifyLatestFile | src/fractalsql_enterprise.c:2571-2657 | the whole O(1) check: a missing file passes, a bad header does not, and otherwise the newest record decides |
| LedgerStore.VerifiedIsLatestOk | src/fractalsql_enterprise.c:2571-3013 | whatever the full verification accepts on a disk the O(1) check accepts |
| LedgerRuns.ChainedAppend | src/fractalsql_enterprise.c:2282-2310 | a record linked to its own kind's tip keeps every interleaved chain intact |
| LedgerRuns.ReadAppended | src/fractalsql_enterprise.c:2333-2343 | what a file reads as after any prefix of one more record |
| LedgerRuns.HeadHasRoom | src/fractalsql_enterprise.c:1489-1499 | the 17 slots of the head file never run out on a sound disk |
| LedgerRuns.HeadCounts | src/fractalsql_enterprise.c:1475-1527 | after an append the head counts exactly the chain, and every record in it still authenticates |
| LedgerRuns.StepSound | src/fractalsql_enterprise.c:2076-2375 | one append, finished or cut short at a safe point, keeps the disk sound and adds exactly the surviving record |
| LedgerRuns.RunSound | src/fractalsql_enterprise.c:2076-2375 | every run keeps the disk sound, and the file holds exactly the surviving appends in order |
| LedgerRuns.SoundVerifies | src/fractalsql_enterprise.c:2857-3013 | on a sound disk verify accepts exactly when no tear is waiting for repair, with the right count |
| LedgerRuns.HeadNeverAhead | src/fractalsql_enterprise.c:1541-1563 | on a sound disk no head record fails its check or counts more rows than its chain has |
| LedgerRuns.AdmissibleIffAccepted | src/fractalsql_enterprise.c:2090-2156 | on a sound disk an append is refused exactly for its kind, its size or the cap, never for what the file holds |
| LedgerRuns.CrashSafety | src/fractalsql_enterprise.c:2076-2375 | over every run of appends and safe crashes the next append succeeds, the file is exactly the surviving records, and every kind verifies with its count |
| LedgerRuns.TruncationIsSeen | src/fractalsql_enterprise.c:2979-2997 | whatever becomes of the file, with fewer records of a kind than the head has counted verify fails |
| LedgerRuns.AcknowledgedIsGuarded | src/fractalsql_enterprise.c:1463-1527 | after any run, once an append has finished, no file with a record of its kind less passes verify beside that head |
| LedgerRuns.StrayHidesRecord | src/fractalsql_enterprise.c:1826-1827 | a record behind one to three stray bytes is never read back as itself |
| LedgerRuns.AppendReadBack | src/fractalsql_enterprise.c:1826-1827 | on any file an acknowledged append is read back behind the old records exactly when the file did not end in one to three stray bytes |
| LedgerRuns.HeaderCrash | src/fractalsql_enterprise.c:2214-2237 | a crash inside the 9-byte file header shuts out every later append exactly when some byte of it survived, with whatever size cap |
| LedgerRuns.HeadOthers | src/fractalsql_enterprise.c:1475-1527 | an update for one kind leaves count and check of every other kind as they were |
| LedgerRuns.HeadMonotone | src/fractalsql_enterprise.c:1501-1503 | no recorded count ever goes down while the head file parses |
| LedgerRuns.KindsIndependent | src/fractalsql_enterprise.c:2857-3013 | appending one kind leaves the complete verify report of every other kind unchanged, failures included |
| LedgerRuns.DamagedHeadForgotten | src/fractalsql_enterprise.c:1482-1487 | an unparsable head file fails every verify, and the next append of any kind silently drops the other kinds' counts |
| LedgerGuard.ChainOkIs | src/fractalsql_enterprise.c:2906-2977 | a chain verifies exactly when every record carries the hash of the one before it, its own digest over that hash, its blob and its MAC, and under a key the MAC of its blob |
| LedgerGuard.VerifiedIff | src/fractalsql_enterprise.c:2857-3013 | verify accepts a file exactly when its header is right, nothing is torn, the chain holds, the head file parses, and the first head record of the kind carries the MAC over "kind=<n> rows=<n>" and counts no more rows than there are; without a file, exactly when no row was counted |
| LedgerGuard.BareCountFails | src/fractalsql_enterprise.c:1552-1556 | under a key a head record without a MAC fails every verification of its kind |
| LedgerGuard.CountTextTells | src/fractalsql_enterprise.c:1449-1461 | the text a head MAC is taken over fixes the kind and the count |
| LedgerGuard.ForgedCountFails | src/fractalsql_enterprise.c:1541-1563 | a MAC made for another kind or another count fails verify beside any ledger file, unless the two texts, which differ, have one MAC |
| LedgerGuard.EditedCountFails | src/fractalsql_enterprise.c:1541-1563 | over every run under a key: with the count of a kind changed in the head file that the run left, and any MAC of that file or none in its record, no ledger file passes verify, unless two different head texts have one MAC |
| LedgerGuard.RecordLayout | src/fractalsql_enterprise.c:2334-2343 | the place, the width and the byte order of every field of a record on disk |
| LedgerGuard.NextIs | src/fractalsql_enterprise.c:1816-1838 | when a record can be read, by the bytes there are and the length they name, and which of the four failures it is otherwise |
| LedgerGuard.RefusedIff | src/fractalsql_enterprise.c:2090-2237 | an append is refused exactly for a kind outside 1 to 16, a blob above 64 MiB, a full file or a wrong header |
| LedgerGuard.AppendLeaves | src/fractalsql_enterprise.c:2282-2343 | the record that a finished append adds, field by field |
| LedgerGuard.CrashLeaves | src/fractalsql_enterprise.c:2214-2375 | a crash after w bytes leaves exactly the first w bytes of what was to be written, behind the repaired file, and the head as it was |
| LedgerGuard.SafeFateIs | src/fractalsql_enterprise.c:1816-1838 | which crash points the run theorems leave out: one to three bytes of a record, and a partial file header |
| HeadText.HeadParse | src/fractalsql_enterprise.c:1292-1359 | the parsing loop, both line forms included, computes the parse function on any line |
| HeadText.HeadRead | src/fractalsql_enterprise.c:1367-1387 | the reading loop over fgets lines, comments and blanks, stops at 17 records or at a line that does not parse |
| HeadText.HeadWrite | src/fractalsql_enterprise.c:1407-1447 | one line per record, in order |
| HeadText.RecReadsBack | src/fractalsql_enterprise.c:1422-1432 | a printed record, with or without a MAC, parses to itself |
| HeadText.HeadReadsBack | src/fractalsql_enterprise.c:1367-1387 | every list of records the file has room for survives writing and reading |
| HeadText.PairReadsBack | src/fractalsql_enterprise.c:1303-1321 | the bare pair of older head files is read as a record without a MAC |
| HeadText.FileHolds17 | src/fractalsql_enterprise.c:1367-1387 | up to 17 records of 32-bit kinds and 64-bit counts survive writing and reading, and no file gives more than 17 |
| HeadText.SignReadsBack | src/fractalsql_enterprise.c:1323-1341 | numbers are read with either sign |
| HeadText.CommentIsSkipped | src/fractalsql_enterprise.c:1376-1381 | a comment line changes nothing of what is read |
| HeadText.RunHeadReadsBack | src/fractalsql_enterprise.c:1475-1527 | in every run of the ledger the head that an append leaves is what the next reader parses from the file |
| Sha256.PadZeros | src/fractalsql_hmac.h:110-134 | the padding is the least that fills the last block: fewer than 64 zeros, and the total a multiple of 64 |
| Sha256.FoldAppend | src/fractalsql_hmac.h:94-107 | folding whole blocks and then the rest is folding it all |
| Sha256.PadOneBlock | src/fractalsql_hmac.h:114-118 | when at most 55 bytes are pending the padding closes the block that is being filled |
| Sha256.PadTwoBlocks | src/fractalsql_hmac.h:119-124 | when 56 to 63 bytes are pending it takes one block more |
| Sha256.Context.Put | src/fractalsql_hmac.h:94-107 | one byte into the buffer, with the block folded in when it is full |
| Sha256.Context.Update | src/fractalsql_hmac.h:94-107 | a context that was fed a message knows the message so far, however it was cut into pieces |
| Sha256.Context.PadZero | src/fractalsql_hmac.h:110-124 | the in-place padding leads to the fold of the padded message, in the one-block and in the two-block case |
| Sha256.Context.StoreLength | src/fractalsql_hmac.h:127-134 | the eight stores, each shifted a byte further, are the bit count, most significant byte first |
| Sha256.Context.Final | src/fractalsql_hmac.h:110-147 | the digest of everything fed |
| Sha256.DigestIs | src/fractalsql_hmac.h:110-147 | that digest is the fold of any text that is the message, 0x80, fewer than 64 zero bytes and the bit length, most significant byte first, and fills whole blocks: FIPS 180-4 sections 5.1.1 and 6.2.2 |
| Sha256.Hash | src/fractalsql_hmac.h:157-163 | the one-call form computes the same digest |
| Sha256.PadKey | src/fractalsql_hmac.h:187-195 | the 64-byte key block with every byte changed in place |
| Sha256.HmacSha256 | src/fractalsql_hmac.h:170-206 | the formula of RFC 2104 section 2, for keys up to a block and for longer ones |
| Sha256.HmacIs | src/fractalsql_hmac.h:170-206 | the formula with its two key blocks given byte by byte, xored with 0x36 and 0x5c, the key hashed when it is longer than 64 bytes |
| SessionModel.LastUnpinned | src/fractalsql_session.c:216-230 | the unpinned entry nearest to the old end, or none when all are pinned |
| SessionRegistry.Entry.Share | src/fractalsql_session.c:310-325 | the end of a plain acquire: the context it has or gets, one more shared hold, or the reference given back |
| SessionRegistry.Entry.Take | src/fractalsql_session.c:440-456 | the end of an exclusive acquire: busy and a context, or the reference given back |
| SessionRegistry.Registry.constructor | src/fractalsql_session.c:92-95 | an empty table and an empty list in step |
| SessionRegistry.Registry.IdsUnique | src/fractalsql_session.c:131-139 | no two entries share an id |
| SessionRegistry.Registry.FindEntry | src/fractalsql_session.c:131-139 | the walk of one bucket chain finds the entry with the id if any bucket holds it |
| SessionRegistry.Registry.BucketUnlink | src/fractalsql_session.c:142-149 | takes exactly this entry out of the hash table and leaves every chain well linked |
| SessionRegistry.Registry.LruUnlink | src/fractalsql_session.c:152-165 | takes exactly this entry out of the doubly linked list, at either end or in the middle |
| SessionRegistry.Registry.LruPushFront | src/fractalsql_session.c:168-175 | puts an entry in front of the list |
| SessionRegistry.Registry.BucketInsert | src/fractalsql_session.c:266-268 | adds exactly this entry to its own bucket |
| SessionRegistry.Registry.SweepStale | src/fractalsql_session.c:195-211 | both structures stay in step while at most `limit` entries from the old end are looked at and the stale ones dropped |
| SessionRegistry.Registry.EvictOneLru | src/fractalsql_session.c:216-230 | drops the unpinned entry nearest to the old end, and fails exactly when there is none |
| SessionRegistry.Registry.FindOrCreateEntry | src/fractalsql_session.c:239-273 | hash table and list together compute the find-or-create step, evicting first when the table is full |
| SessionRegistry.Registry.SessionAcquire | src/fractalsql_session.c:280-326 | the heap operation is the plain acquire of the value model, result and whole new state |
| SessionRegistry.Registry.SessionAcquireExclusive | src/fractalsql_session.c:412-457 | the same for the exclusive acquire, telling busy from unavailable |
| SessionRegistry.Registry.SessionRelease | src/fractalsql_session.c:663-675 | the same for a plain release |
| SessionRegistry.Registry.SessionReleaseExclusive | src/fractalsql_session.c:463-472 | the same for an exclusive release |
| SessionRegistry.Registry.SessionSetPartial | src/fractalsql_session.c:479-491 | the flag is written to the session's entry, made for it if need be and not held afterwards |
| SessionRegistry.Registry.SessionSetDiversify | src/fractalsql_session.c:509-519 | likewise |
| SessionRegistry.Registry.SessionGetPartial | src/fractalsql_session.c:493-501 | the flag of the session, false without an entry, and no entry is made for it |
| SessionRegistry.Registry.SessionGetDiversify | src/fractalsql_session.c:521-529 | likewise |
| SessionRegistry.Registry.SessionClose | src/fractalsql_session.c:689-699 | drops the entry exactly when nobody has it pinned |
| SessionProtocol.SweepShrinks | src/fractalsql_session.c:195-211 | a sweep removes only entries that nobody had pinned, and changes no other |
| SessionProtocol.SweepIs | src/fractalsql_session.c:195-211 | a sweep takes out exactly the stale entries among the places it looks at, in order |
| SessionProtocol.CloseIs | src/fractalsql_session.c:689-699 | a close forgets the session exactly when nobody has it pinned, and never another |
| SessionProtocol.FoundOrCreated | src/fractalsql_session.c:239-273 | what each id looks up to after find-or-create, for this session and for every other |
| SessionProtocol.StepInv | src/fractalsql_session.c:280-326 | every event keeps the counters of every session equal to its outstanding holds |
| SessionProtocol.ExclusionAndLifetime | src/fractalsql_session.c:412-472 | over every interleaving: refcount is shared plus busy, an exclusive hold excludes every other hold of its session, and every hold still has its own context |
| SessionProtocol.AcquireTurnedAway | src/fractalsql_session.c:250-297 | with memory to spare a plain acquire fails only for an exclusive hold on the session or with 4096 holds outstanding |
| SessionProtocol.BusyExactlyWhenHeld | src/fractalsql_session.c:412-436 | an exclusive acquire is answered "busy" exactly when somebody holds the session, in either way |
| SessionProtocol.RunOrdered | src/fractalsql_session.c:239-273 | under a monotone clock the list stays ordered by last use over every run |
| SessionProtocol.EvictsOldest | src/fractalsql_session.c:216-230 | in every such run eviction takes the least recently used unpinned entry |
| SessionEffects.SweptReads | src/fractalsql_session.c:195-211 | a sweep forgets exactly the sessions among the eight last places that nobody holds and that have been idle for 21600 seconds |
| SessionEffects.FindOrCreateReads | src/fractalsql_session.c:239-273 | what find-or-create does to every session: with a place free no other one goes, in a table of 4096 exactly one does, the unheld one nearest to the old end, and the session itself field by field |
| SessionEffects.AcquireReads | src/fractalsql_session.c:280-326 | a plain acquire on every session and in every outcome: sweep, refusal, room, context, counters and time |
| SessionEffects.ExclusiveReads | src/fractalsql_session.c:412-457 | the same for the exclusive acquire |
| SessionEffects.ReleaseReads | src/fractalsql_session.c:663-675 | a release takes one off both counters of its session and nothing else |
| SessionEffects.ReleaseExclusiveReads | src/fractalsql_session.c:463-472 | an exclusive release ends the exclusive hold and takes one reference |
| SessionEffects.PartialReads | src/fractalsql_session.c:479-501 | a written flag is read back, the other flag and every other field stay |
| SessionEffects.DiversifyReads | src/fractalsql_session.c:509-529 | likewise for the second flag |
| SessionEffects.GoesOnlyWhen | src/fractalsql_session.c:195-273 | over every run under a monotone clock another session goes only when nobody holds it and it has been idle for six hours, or 4096 are left after the sweep, a new one comes, and no unheld one was used less recently |
| Latch.Ring.LockDestructive | src/fractalsql_session.c:539-552 | the ring written in place is a queue of 16384 ids, and an id already there keeps its place |
| Latch.Ring.DestructiveLocked | src/fractalsql_session.c:554-563 | true exactly for the ids in the queue |
| Latch.StaysFor | src/fractalsql_session.c:539-552 | how many insertions an id at any place outlives, as an equivalence |
| Latch.LockedUntilOverwritten | src/fractalsql_session.c:531-552 | a locked id stays locked exactly until 16384 further ids have been inserted |
| JsonSyntax.StrictIsLoose | src/fractalsql_enterprise.c:3070-3075 | every JSON document is in the validator's grammar |
| JsonSyntax.ScanStringOnto | src/fractalsql_enterprise.c:3106-3113 | what is read as string content has no bare quote and no control character |
| JsonSyntax.NumberPrinted | src/fractalsql_enterprise.c:3180-3205 | a printed number in front of a delimiter is read in full |
| JsonSyntax.NumberOnto | src/fractalsql_enterprise.c:3180-3205 | whatever is read as a number is one |
| JsonValidator.AcceptsValue | src/fractalsql_enterprise.c:3103-3207 | a value of the grammar takes the stack machine over exactly its text |
| JsonValidator.RejectsDeepValue | src/fractalsql_enterprise.c:3123-3131 | a value that nests past the 64 places of the stack stops it, wherever that happens |
| JsonValidator.AcceptedIffShallow | src/fractalsql_enterprise.c:3077-3208 | a document of the grammar is accepted exactly when it nests at most 64 deep |
| JsonValidator.AcceptedIsGrammar | src/fractalsql_enterprise.c:3077-3208 | from every state of the stack, accepted text completes a document whose print is the whole text |
| JsonValidator.AcceptsExactlyTheGrammar | src/fractalsql_enterprise.c:3070-3208 | the machine accepts a text exactly when it prints a document of the loose grammar at most 64 deep |
| JsonValidator.Containers.Open | src/fractalsql_enterprise.c:3123-3131 | the two fixed arrays and sp hold the stack with one container more |
| JsonValidator.Containers.Mark | src/fractalsql_enterprise.c:3123-3165 | brackets and separators move the arrays as they move the stack, and are refused when out of place |
| JsonValidator.NumberEnd | src/fractalsql_enterprise.c:3180-3205 | the number loop agrees with the number scan on every text |
| JsonValidator.WellFormed | src/fractalsql_enterprise.c:3077-3208 | the one-pass loop over the text returns true exactly for the documents of the grammar |
| JsonEscapes.Escape | src/fractalsql_enterprise.c:3020-3047 | at most six characters for one, the bound that every buffer is sized by |
| JsonEscapes.ShortEscapes | src/fractalsql_enterprise.c:3020-3047 | the seven two-character escapes, and every other control character by its code |
| JsonEscapes.OnlyControlsEscaped | src/fractalsql_enterprise.c:3020-3047 | every other character stays as it is |
| JsonEscapes.EscapeRoundTrip | src/fsql_audit_redact.h:262-286 | unescaping what was escaped returns every byte string |
| JsonEscapes.EscapedIsRaw | src/fsql_audit_redact.h:262-286 | escaped text can stand between quotes |
| JsonEscapes.PairsDecode | src/fsql_audit_redact.h:291-365 | the surrogate pair of every code point above the basic plane decodes to its UTF-8 form (RFC 3629 section 3) |
| JsonEscapes.AppendedReads | src/fractalsql_config.c:629-662 | the writer with fewer short escapes is read back too |
| JsonEscapes.EntJsonEscape | src/fractalsql_enterprise.c:3020-3047 | writes the escaped text, and fails exactly when it does not fit |
| JsonEscapes.UnescapeDup | src/fsql_audit_redact.h:291-365 | never writes past len + 1 bytes, fails exactly on malformed escapes, and terminates the text |
| JsonScan.ContentPrinted | src/fsql_audit_redact.h:163-182 | the span of a printed string is its content |
| JsonScan.SkipWsAt | src/fsql_audit_redact.h:155-158 | stops at the first character that is not white space |
| JsonScan.StringSpanAt | src/fsql_audit_redact.h:163-182 | content length and end position, failing exactly on an unterminated string |
| JsonRedactor.FingerprintFits | src/fsql_audit_redact.h:72-101 | hash and truncated forms always fit the 128-byte buffer, so no sensitive text is kept for want of room |
| JsonRedactor.KeyIsSensitive | src/fsql_audit_redact.h:246-259 | the scan of the list decides membership in the set of sensitive names |
| JsonPrivacy.TruncatedIs | src/fsql_audit_redact.h:78-86 | in truncate mode a prefix of at most 64 characters is left, and the whole text only of one that short |
| JsonPrivacy.HashedIs | src/fsql_audit_redact.h:87-96 | in hash mode what is left is "sha256:", 64 lower-case digits that decode to the digest, " len=" and the decimal length |
| JsonPrivacy.SameReplacement | src/fsql_audit_redact.h:72-101 | two texts get one replacement exactly when the mode cannot tell them apart: equal digests and lengths, or 64 characters in common |
| JsonRedactor.BalanceAt | src/fsql_audit_redact.h:200-225 | the bracket scan, strings passed over, ends where the balance function says |
| JsonRedactor.ValueSpanAt | src/fsql_audit_redact.h:187-244 | the raw span of the value at p, for every kind of value and every malformed one |
| JsonRedactor.EmitRedacted | src/fsql_audit_redact.h:370-387 | appends the redacted form of the decoded text as a JSON string |
| JsonRedactor.RedactContainer | src/fsql_audit_redact.h:393-459 | the recursive walk terminates and appends exactly what the walk function computes on any text, or fails where it does |
| JsonRedactor.RedactMember | src/fsql_audit_redact.h:404-433 | one member: key copied, value hidden or walked, position moved on |
| JsonRedactor.RedactItems | src/fsql_audit_redact.h:402-458 | the loop over items and separators |
| JsonRedactor.RedactJson | src/fsql_audit_redact.h:477-494 | nothing in the mode that keeps texts and on malformed input, otherwise the walk's text |
| JsonRedaction.BalanceContainer | src/fsql_audit_redact.h:200-225 | a printed container is balanced whatever follows it |
| JsonRedaction.SpanPrinted | src/fsql_audit_redact.h:187-244 | the span of a printed value in front of a delimiter is that value |
| JsonRedaction.VeilPrinted | src/fsql_audit_redact.h:370-387 | what is written under a sensitive key is the print of the veiled value |
| JsonRedaction.RedactionCommutes | src/fsql_audit_redact.h:393-472 | on every JSON document, white space and escapes of any sort, the text walk writes the compact print of the redacted tree |
| JsonRedaction.RedactedIsStrict | src/fsql_audit_redact.h:393-472 | a redacted document is a JSON document |
| JsonRedaction.ChildRedacted | src/fsql_audit_redact.h:393-459 | keys, order and arity stay, and a child is veiled exactly when its own key is sensitive |
| JsonRedaction.ExposedStays | src/fsql_audit_redact.h:393-459 | whatever no sensitive key stands above is at the same path afterwards |
| JsonRedaction.SensitiveGoes | src/fsql_audit_redact.h:246-259 | the first sensitive member on the way down any path is veiled |
| JsonPrivacy.SensitiveSays | src/fsql_audit_redact.h:366-459 | and what is left of it is a string that reads as a prefix of at most 64 characters, or as digest and length, of its decoded text; a number or a word stays |
| JsonPrivacy.PathsLead | src/fsql_audit_redact.h:393-459 | the paths of these statements lead to every value of every array and every member of every object |
| JsonPrivacy.SameTree | src/fsql_audit_redact.h:393-472 | two documents are redacted to one tree exactly when they differ only in white space and in texts under sensitive keys that the mode cannot tell apart |
| JsonPrivacy.AlikeRedactSame | src/fsql_audit_redact.h:393-494 | so the redactor writes one text for such documents |
| JsonRedaction.EscapedKeyIsNotSensitive | src/fsql_audit_redact.h:246-259 | a member whose key reads as a sensitive name is veiled exactly when the key is spelled without escapes |
| JsonKeys.JsonFindKey | src/fractalsql.c:331-381 | the scan loop stops where the search function stops, on any text |
| JsonKeys.FindPastContainer | src/fractalsql.c:331-381 | a nested container is passed over whatever keys are in it |
| JsonKeys.FindsTheMember | src/fractalsql.c:318-381 | on every printed object the scan finds the first top-level member with the raw key, or nothing |
| JsonKeys.JsonNumberEnd | src/fractalsql.c:391-413 | the end of the number token at a position, of any text |
| JsonKeys.NumberTokenPrinted | src/fractalsql.c:391-413 | a printed number in front of a delimiter is one token, and strtol reads its whole part with its sign |
| JsonKeys.JsonGetInt | src/fractalsql.c:429-462 | the integer at the key's value, or the fallback: no key, no token, no delimiter, too long, out of range |
| JsonKeys.JsonGetU64 | src/fractalsql.c:470-490 | likewise for an unsigned 64-bit plain integer |
| JsonKeys.ReadersAgree | src/fractalsql.c:429-490 | on every printed object both readers return the first top-level member's number when they can hold it, and the fallback otherwise |
| JsonKeys.NumbersTaken | src/fractalsql.c:429-490 | which numbers those are: of at most 31 characters, one in 32 bits by its whole part, the other plain and in 64 bits |
| AuditRecord.RecordFits | src/fractalsql_enterprise.c:3343-3358 | the buffer computed before formatting is always large enough for the record |
| AuditRecord.Memmem | src/fractalsql_enterprise.c:3056-3068 | true exactly when the needle stands somewhere in the text |
| AuditRecord.TrimAt | src/fractalsql_enterprise.c:3332-3334 | the payload between its outer white space |
| AuditRecord.Splice | src/fractalsql_enterprise.c:3335-3358 | the three ways the attribution is spliced in or around the payload |
| AuditRecord.AuditLog | src/fractalsql_enterprise.c:3252-3365 | a record exactly for acceptable arguments, the destructive latch and the required actor included, and the text it hands to the ledger |
| AuditDocument.TrimPrinted | src/fractalsql_enterprise.c:3332-3334 | trimming a printed document leaves the print of its value |
| AuditDocument.ShapeOfPrint | src/fractalsql_enterprise.c:3335-3341 | the first and last characters tell an object, and an empty one, from everything else |
| AuditDocument.RecordIsDocument | src/fractalsql_enterprise.c:3329-3358 | for every payload of the grammar without a NUL byte the record is the print of a document of the grammar, of the depth stated; a JSON payload gives a JSON record |
| AuditDocument.TypeReadsBack | src/fractalsql_enterprise.c:3347-3358 | the record's first "type" unescapes to the type string that was given, whatever its bytes |
| AuditDocument.AttributionIsOurs | src/fractalsql_enterprise.c:3292-3293 | in the entry of an accepted JSON payload the one member whose key is written "_actor" is the attribution block |
| AuditActor.EntryActors | src/fractalsql_enterprise.c:3335-3358 | the members of an entry whose key reads as "_actor", escapes resolved, are those of the payload and then the attribution block |
| AuditActor.OnlyActorIff | src/fractalsql_enterprise.c:3292-3358 | for every accepted JSON payload the attribution block is the only such member exactly when no top-level key of the payload reads as "_actor"; it is always the last |
| AuditActor.SpelledActor | src/fractalsql_enterprise.c:3292-3293 | the payload {"\u005factor":true} is accepted and its entry has a caller's own such member in front of the attribution block |
| AuditMeaning.RecordSays | src/fractalsql_enterprise.c:3347-3358 | the record has two members, the type, which reads as it was given, and the entry |
| AuditMeaning.EntrySays | src/fractalsql_enterprise.c:3329-3358 | the entry has the payload's own members as they were, or the payload under "value", and the block behind them |
| AuditMeaning.BlockSays | src/fractalsql_enterprise.c:3303-3327 | the block has the session's number or 0, whether there was a session, and the actor, which reads as it was given |
| AuditMeaning.AcceptableIff | src/fractalsql_enterprise.c:3252-3327 | the exact conditions, in bytes, under which a record is written |
| AuditNul.CutRejected | src/fractalsql_enterprise.c:3347-3358 | accepted text cut at a NUL byte and continued as the format string does is rejected from every machine state |
| AuditNul.NulSpoilsRecord | src/fractalsql_enterprise.c:3347-3358 | a payload with a NUL byte is accepted by the validator and its record is not |
| AuditNul.WellFormedRecord | src/fractalsql_enterprise.c:3252-3365 | the record of an accepted payload is accepted again exactly when the payload has no NUL byte and stays within the depth |
| ConfigKeys.KeyIdFrom | src/fractalsql_config.c:102-110 | a key with the name, or none when no key has it |
| ConfigKeys.PathIs | src/fractalsql_config.c:130-174 | a path is accepted exactly when it is absolute, below 8192 characters and has no two dots in a row |
| ConfigKeys.MembersAre | src/fractalsql_config.c:328-343 | the words of a list are what stands between its bars |
| Overlay.StoreReads | src/fractalsql_config.c:396-458 | a stored value reads back; its session's other keys stay, and so does every other session but the least recently touched one of a full table |
| Overlay.UnsetReads | src/fractalsql_config.c:396-458 | an unset key reads as nothing and everything else stays |
| Overlay.ResetReads | src/fractalsql_config.c:703-722 | a reset session overrides nothing and every other session stays |
| Overlay.LookedReads | src/fractalsql_config.c:460-485 | a lookup changes nobody's overrides, only the order of eviction |
| Overlay.SetValueOk | src/fractalsql_config.c:396-458 | one entry per session, at most 256, only validated values of session-allowed keys, whatever is set |
| OverlayHistory.OldestTouchGoes | src/fractalsql_config.c:239-280 | over every history a full table gives up the session whose last stored value, unset value or successful lookup lies furthest back |
| OverlayHistory.AcceptedIff | src/fractalsql_config.c:102-110 | exactly which calls are taken: the six session keys by either name, texts below 8192 characters, integers in the bounds of their key, flag words, and the empty text |
| OverlayHistory.DaemonWideIff | src/fractalsql_config.c:396-416 | a call is refused as daemon-wide exactly for the other twelve names |
| OverlayHistory.DaemonValues | src/fractalsql_config.c:345-394 | what a path key and the list key take |
| OverlayHistory.IntegerBetweenIff | src/fractalsql_config.c:316-326 | an integer is white space, a sign or none, and digits, over the whole text |
| OverlayHistory.StoredValues | src/fractalsql_config.c:396-458 | over every history what a session overrides a key with is such a value, and not the empty one |
| Overlay.OverridesFit | src/fractalsql_config.c:396-485 | whatever a session could set, a lookup into a buffer of the longest value returns it whole unless its key is an integer |
| Overlay.LongIntegerIsCut | src/fractalsql_config.c:396-485 | an integer behind enough white space is accepted and stored, and a lookup returns white space only |
| OverlayTable.FullTable | src/fractalsql_config.c:239-280 | the list of entries is full exactly when every slot is in use |
| OverlayTable.Slots.FindEntry | src/fractalsql_config.c:218-225 | the slot of the session, or none |
| OverlayTable.Slots.Oldest | src/fractalsql_config.c:268-271 | the slot with the smallest stamp holds the session that is first to go |
| OverlayTable.Slots.NewEntry | src/fractalsql_config.c:239-280 | the session's own slot, a free one, or the oldest, cleared |
| OverlayTable.Slots.SetValue | src/fractalsql_config.c:396-458 | slots, stamps and counter compute the map operation, refusals included |
| OverlayTable.Slots.Lookup | src/fractalsql_config.c:460-485 | the override, cut to the caller's buffer, and the touch when there is one |
| OverlayTable.Slots.FreeEntry | src/fractalsql_config.c:283-294 | the slot is free, the counter down, and no other slot has the session |
| OverlayTable.Slots.ResetSession | src/fractalsql_config.c:703-722 | the map operation, and how many overrides it dropped |
| OverlayJson.AppendString | src/fractalsql_config.c:629-662 | the string as a JSON string's content |
| OverlayJson.SessionJson | src/fractalsql_config.c:669-701 | the rendered overrides of the session, or an empty object |
| OverlayJson.RenderedReadsBack | src/fractalsql_config.c:669-701 | the rendered text is a JSON object whose members decode to exactly the stored map, in key order |
| BridgeEnv.Put | src/fractalsql_cognition.c:790-830 | setenv or unsetenv of one variable and no other |
| BridgeEnv.PublishesEffective | src/fractalsql_cognition.c:790-858 | whatever the environment held, publishing leaves every variable as the tier's configuration and the session's overrides say |
| BridgeEnv.ReasonOverrides | src/fractalsql_config.c:724-744 | the loop over the key table overrides exactly three variables of the reason tier |
| BridgeEnv.EmbedOverrides | src/fractalsql_config.c:724-744 | and exactly one of the embed tier |
| BridgeEnv.OverridesKeepRows | src/fractalsql_config.c:724-744 | publishing changes no session's overrides |
| BridgeEnv.RestoreReads | src/fractalsql_cognition.c:904-919 | variable by variable: a copied or unset one is back, one whose copy failed is left as published |
| BridgeEnv.BracketRestores | src/fractalsql_cognition.c:888-919 | with every copy taken the bracket restores the environment exactly, whatever was published in it |
| BridgeEnv.FailedBracketRestores | src/fractalsql_cognition.c:1013-1036 | with nothing published the restore changes nothing even where copies failed |
| Fingerprint.TellsApart | src/fractalsql_config.c:795-823 | the hashed byte stream tells an environment from every other exactly when no two neighbouring variables are one unset and the other set to the second's name |
| Fingerprint.EmptyStream | src/fractalsql_config.c:795-823 | the ten names that are hashed, in order, each with a NUL behind it |
| Fingerprint.SparseSameStream | src/fractalsql_config.c:809-823 | environments that differ in no two neighbouring variables never share a stream |
| Fingerprint.FingerprintDecides | src/fractalsql_config.c:809-823 | for such environments equal fingerprints mean agreement, or a collision of the hash on two named streams |
| Dispatch.StepInv | src/fractalsql_cognition.c:952-1058 | every step keeps a valid fingerprint the fingerprint of its instance's own environment, current plugin and current configuration, and a call that is ready keeps its tier's fingerprint that of the environment it wants |
| Dispatch.RunInv | src/fractalsql_cognition.c:688-1058 | so does every run |
| Dispatch.DispatchIsOwn | src/fractalsql_cognition.c:952-1058 | in every run, whatever other tiers write to the environment between the steps of a call, a dispatched call is served by an instance of the configured plugin loaded under the fingerprint of the call's own effective configuration |
| Dispatch.DispatchIsBaked | src/fractalsql_cognition.c:931-990 | and unless the hash collides on the two streams that instance has exactly that configuration baked in, in every variable, over all those interleavings |
| DispatchWindow.WhileHeld | src/fractalsql_cognition.c:953-1066 | between a call's publish and its end other threads change nothing but the environment, by their own writes, and the overlay |
| DispatchWindow.EnvironmentAtDispatch | src/fractalsql_cognition.c:986-1066 | the environment at a dispatch is what the call published with the writes of other tiers since then on top |
| DispatchWindow.OwnEnvironmentIff | src/fractalsql_cognition.c:986-1045 | it is the call's own effective configuration exactly when no other tier has left a different value in some variable since the publish |
| DispatchWindow.TextToSqlSpoilsEmbed | src/fractalsql_textsql.c:727-824 | a text-to-SQL publish between an embedding call's publish and its dispatch always leaves that dispatch without the embedding mode it wants |
| DispatchWindow.GenerateSpoilsReason | src/fractalsql_textsql.c:859-887 | behind a generate publish a reasoning dispatch has its own response mode exactly when that mode is "code" too |
| DispatchWindow.EmbedLeavesEnv | src/fractalsql_cognition.c:992-1066 | an embedding call leaves the environment as it found it, whatever is written inside its bracket when every copy was taken, and with a copy missing when nothing is |
| DispatchWindow.BracketLosesWrites | src/fractalsql_cognition.c:904-919 | what another tier writes inside the bracket survives it exactly when it is the value that had been there before |
| DispatchWindow.LateWriteStays | src/fractalsql_cognition.c:1060-1066 | the closing bracket holds no environment lock: a variable ends as it was put back exactly when no other tier writes another value to it afterwards |
| Dispatch.FailedLoadKeepsInstance | src/fractalsql_cognition.c:968-1056 | a call of either tier whose copies or load fail leaves both tiers' instances and fingerprints |
| Dispatch.NoNeedlessReload | src/fractalsql_cognition.c:943-1045 | a call of either tier whose configuration is already baked in is ready without a load |
| Dispatch.LastPushIsInForce | src/fractalsql_cognition.c:688-771 | over every run the configuration in force is the last one pushed, with the keys it leaves out as they were in the boot snapshot |
| DispatchSettings.CapturedIs | src/fractalsql_cognition.c:548-588 | which variable feeds which setting of the boot snapshot, and that the plugin's own name wins when it is not empty |
| DispatchSettings.SnapshotOfRun | src/fractalsql_cognition.c:548-613 | in every run the snapshot is that of the environment at the first step with memory for it, and stays |
| DispatchSettings.ConfigureFills | src/fractalsql_cognition.c:591-613 | the configuration is filled in once, from the snapshot, and never over a pushed one |
| DispatchSettings.PushIsWhole | src/fractalsql_cognition.c:688-771 | a push is taken whole or not at all, and leaves both instances without a valid fingerprint |
| DispatchSettings.PushedSettings | src/fractalsql_cognition.c:688-858 | after a push, until the next one, every variable that a tier publishes has the value of its own key in the file, or the boot value when the file leaves it out |
| DispatchSettings.ServedSettings | src/fractalsql_cognition.c:688-990 | and so has every variable baked into the instance that serves a call, loaded from the pushed plugin path or the boot one |
| DispatchSettings.BootSettings | src/fractalsql_cognition.c:591-613 | without a push every variable has its boot value |
| Dispatch.ProviderSticks | src/fractalsql_cognition.c:591-613 | over any run without another push, calls, overrides and late initialisation leave the pushed configuration in force |
| Cognition.Tiers.ApplyReasonEnv | src/fractalsql_cognition.c:790-830 | the variable-by-variable writes are the reason tier's environment |
| Cognition.Tiers.ApplyEmbedEnv | src/fractalsql_cognition.c:838-858 | and the embed tier's |
| Cognition.Tiers.ApplyEnvOverrides | src/fractalsql_config.c:724-744 | the loop over the keys, environment and touched table together |
| Cognition.Tiers.EnvFingerprint | src/fractalsql_config.c:795-823 | the byte-by-byte hash is the fold over the stream |
| Cognition.Tiers.EmbedEnvSave | src/fractalsql_cognition.c:888-901 | the saved slots, and whether every copy was taken |
| Cognition.Tiers.PutBackNext | src/fractalsql_cognition.c:904-919 | one turn of the restoring loop is one release step of the state machine |
| Cognition.Tiers.EmbedEnvRestore | src/fractalsql_cognition.c:904-919 | every slot put back in turn, when no other write comes in between |
| Cognition.Tiers.CaptureEnvFb | src/fractalsql_cognition.c:548-588 | the boot snapshot is taken once |
| Cognition.Tiers.EnsureEnvConfig | src/fractalsql_cognition.c:591-613 | the configuration comes from the snapshot unless a provider has been applied |
| Cognition.Tiers.ApplyProviderCfg | src/fractalsql_cognition.c:688-771 | a pushed configuration is taken over entirely or not at all, and then no fingerprint is valid |
| Cognition.Tiers.ReasonEnvAndReload | src/fractalsql_cognition.c:953-990 | publish, compare fingerprints, load on a difference |
| Cognition.Tiers.EmbedEnvOpen | src/fractalsql_cognition.c:1018-1058 | save, publish, compare, load; nothing published when a copy failed |
| Cognition.Tiers.BeginReason | src/fractalsql_cognition.c:1257-1259 | taking the lock, publishing and loading is the first step of a reasoning call |
| Cognition.Tiers.BeginEmbed | src/fractalsql_cognition.c:1375-1394 | and of an embedding call, the saved copies kept for its end |
| Cognition.Tiers.DispatchAi | src/fractalsql_cognition.c:1264-1265 | a dispatch shows the tier's instance and the environment in place |
| Cognition.Tiers.FractalReason | src/fractalsql_cognition.c:1257-1266 | the locked region of a reasoning call that nobody comes between is begin, dispatch and release of the state machine |
| Cognition.Tiers.FractalEmbed | src/fractalsql_cognition.c:1375-1400 | likewise for an embedding call, its bracket closed on every path |
| Sentinel.DocumentReadsBack | src/fractalsql_cognition.c:291-324 | the sentinel is a JSON object whose one member reads back as the text to be shown |
| Sentinel.EscapeInto | src/fractalsql_cognition.c:271-288 | in a buffer of any size, the escapes of the text up to the first place that leaves no room for the longest escape |
| Sentinel.WholeIsTaken | src/fractalsql_cognition.c:271-288 | with room for the worst case that is the whole text |
| Sentinel.ShownSays | src/fractalsql_cognition.c:291-324 | what is shown: all of up to 512 bytes, else the longest part of at most 512 that is cut at a UTF-8 boundary, with "...[truncated]" behind it |
| Sentinel.PartialSentinel | src/fractalsql_cognition.c:291-324 | the buffer sized for it takes the whole document, cut at a UTF-8 boundary and marked when it was long |
| Corpus.VectorPrinted | src/fractalsql_parse.c:118-203 | a printed row is read back when it has at most 1048576 elements, and refused when it has more |
| Corpus.NotationsAgree | src/fractalsql_parse.c:206-303 | both notations of a row list are read as the same rows, and rows of different lengths are refused |
| Corpus.DecimalsAreFaithful | src/fractalsql_parse.c:118-203 | decimal integers are such elements |
| Corpus.MulOk | src/fractalsql_parse.c:49-54 | the division test is true exactly when neither product exceeds the largest size_t |
| Corpus.ParseVector | src/fractalsql_parse.c:118-203 | the loop with its growing buffer returns exactly the elements, or fails where the grammar does |
| Corpus.FlatAt | src/fractalsql_parse.c:281-297 | row k of the flat store is at k * dim, inside the store |
| Corpus.RowStore.Grow | src/fractalsql_parse.c:281-294 | doubling succeeds exactly when the size product does not wrap, and keeps the rows |
| Corpus.RowStore.Append | src/fractalsql_parse.c:295-297 | one row is copied behind the others, inside the store |
| Corpus.ParseCorpus | src/fractalsql_parse.c:206-303 | the whole parser: on success the store holds exactly the rows of the text, and a malformed answer means that there are none |
| Concurrency.Semaphore.TryAcquire | mcp/src/concurrency.h:27-35 | takes a slot exactly when one is free at the end of the wait |
| Concurrency.Manager.AcquireClientSlot | mcp/src/concurrency.h:111-118 | the client's count, its entry created by the lookup |
| Concurrency.Manager.ReleaseClient | mcp/src/concurrency.h:119-131 | one less, and no entry left when idle |
| Concurrency.Manager.Acquire | mcp/src/concurrency.h:89-108 | client slot first, then the global one, the first given back when the second fails |
| Concurrency.Token.Release | mcp/src/concurrency.h:73-79 | gives back exactly what the token holds, once |
| Concurrency.Token.MoveFrom | mcp/src/concurrency.h:64-71 | the target's holdings are given back and the source's taken over |
| Concurrency.StepConserves | mcp/src/concurrency.h:49-132 | every step keeps each count equal to the live tokens that hold it |
| Concurrency.AlwaysConserved | mcp/src/concurrency.h:49-132 | over every run, acquires interrupted by other threads included, counts equal live tokens and stay within their limits, and no idle entry stays |
| Concurrency.RefusedExactlyWhenFull | mcp/src/concurrency.h:89-108 | in every run an acquire is refused exactly when live tokens already fill one of its limits |
| Concurrency.NothingLeft | mcp/src/concurrency.h:119-131 | when every token has been given back the manager is as new |
| Concurrency.AcquireIsTwoSteps | mcp/src/concurrency.h:89-108 | an undisturbed acquire is an entry and its finish |
| ConfFile.ReadConf | mcp/src/conf_file.cpp:107-134 | the line loop with its index scans computes the read function on any text |
| ConfFile.WriteConf | mcp/src/conf_file.cpp:156-198 | one line per pair, or nothing at all when some key or value fails the check |
| ConfFile.RoundTripIff | mcp/src/conf_file.cpp:107-198 | an accepted map is read again unchanged after it has been written exactly when every pair is one that a line can give |
| ConfFile.RoundTrip | mcp/src/conf_file.cpp:107-198 | every map that was read and passes the line-break check is read again unchanged after it has been written |
| ConfFile.OneLineEach | mcp/src/conf_file.cpp:172-197 | an accepted map is written as one line per pair and no other |
| ConfFile.NoInjection | mcp/src/conf_file.cpp:159-185 | every pair read back from an accepted map is that of one written pair's own line, the last one that gives the key |
| ConfFile.OnlyWriter | mcp/src/conf_file.cpp:107-185 | when every pair is one that a line can give, only the key's own pair gives it |
| ConfFile.ExtraLines | mcp/src/conf_file.cpp:55-64 | without the check the file would have one line more for every line feed in a key or value |

## Left out

- The SHA-256 round function and its constants: a parameter. Collision resistance is never assumed; where it would matter, a lemma returns the colliding inputs.
- The CSV mirror, its base64 text and the anchor log: written after the chain, never read back by it.
- File modes, fsync, rename, locks and threads: each locked region is one atomic step (but for the calls of Dispatch, which are several), and the rename that replaces the head file or the configuration file is atomic.
- Failing system calls other than a write that is cut short; an append whose flush fails behaves like a crash.
- Allocation failure is a parameter where the source leaves state behind (session entries and contexts, environment copies, configuration copies) and left out elsewhere.
- Ed25519 signatures, plugin loading, the vendored search core, UDF argument handling, result formatting: foreign code. Whether a plugin loads is a parameter; a failed load keeps the previous instance.
- The clock is read once per session operation, and a time is any integer; the source may read it again within the same locked call.
- C strings are Dafny strings with one character for each byte.
- The counters `refcount` and `shared` are natural numbers; their wrap after 2^31 outstanding holds of one session is not modelled.
- The overlay's stamp counter is a natural number; the source's would wrap after 2^64 touches.
- Sha256.Context.Update: the source's loop counter has 32 bits, so a message of 2^32 bytes or more would never finish; the precondition excludes those.
- The text-to-SQL and review tiers appear in Dispatch only as writes to the environment and lookups, one variable or key a step, at any time; their own instances and calls, and the loaded flags of the tier registry, are not modelled.
- A publish, its lookups of overrides and the load behind it are one step, as is `capture_env_fb`. That other tiers keep out of a publish is the environment lock's doing; that nobody sets an override between two of its lookups is not promised by the source.
- Dispatch.DispatchIsOwn: an embedding call is taken only while an endpoint is configured. A provider reload that removes it between the check and the bracket is not followed, since the source then passes a null value to setenv.
- FNV-1a is a fold with an arbitrary step function; its arithmetic is not modelled.
- Corpus.NotationsAgree: elements are whatever an abstract lexer reads back in front of a comma or at the end; strtod, the range and finiteness checks and the interrupt poll are inside it or left out. The binary vector form and `parse_index_csv` are left out.
- `json_get_double`, `json_get_bool`, `json_has_key` and `json_get_str`: more readers on the same scan.
- `fractal_config_get_value` and the hiding of secrets, `fractal_config_lookup_long` (its 64-byte buffer), and the Windows forms of a path.
- `writeConf` from the temporary file to the rename, its retries, and `pathProblem`.
- JsonRedaction.RedactionCommutes: keys are compared as they are written, as the source compares them; a string with an escaped NUL is redacted by its text up to there.
- Concurrency.Semaphore.TryAcquire: the wait itself is not modelled, only the state in which it ends.
- ConfFile.RoundTrip: `isspace` is that of the "C" locale.
