# Warpin verified model

A Dafny model of nine state-carrying parts of Warpin, with proofs about all inputs, all runs and all reachable states.

Wherever the program works step by step, the project has three layers: a *specification* (functions
on values), a *machine* (classes and loops that update fields as the program does, each method proved equal to the
specification), and *theorems* about the specification. The `ensures` of the machine's methods connect the two, so a
theorem about one call, or about a run of calls on one object, is a theorem about the loops.

Three groups of theorems interleave several parties and are about the step functions only:

* `ConcurrentWrites`: its create and readback steps are the relations that the contract of
  `ObjectStore.VerifiedObjectStorage.PutImmutable` states of one undisturbed call; the interleaving itself has no machine.
* `TokenRefreshProofs`: each critical section and each publication is a method of `TokenRefreshMachine` proved equal to
  its step; which of them comes next is chosen by the run.
* `MqttProofs`: each call of a client is a method of `MqttMachine` proved equal to its step on one session; the numbering
  of sessions, for which the program uses a shared owner object, exists in the specification only.

| part | specification | machine | theorems |
|---|---|---|---|
| verified object storage | `Identity`, `Storage` | `ObjectStore` | `Storage`, `ConcurrentWrites` |
| authenticated chunked files | `ChunkFormat`, `ChunkParts`, `Reader` | `ChunkWriter`, `ChunkReader` | `ChunkParts`, `ChunkWriter`, `ReaderForms`, `ReaderProofs`, `RoundTrip` |
| strict JSON parsing | `JsonValue`, `JsonGrammar`, `JsonParser` | `JsonMachine` | `JsonLexing`, `JsonCompleteness`, `JsonSoundness`, `JsonTheorems` |
| JSON numbers | `Lexeme`, `Decimal`, `Numbers` | (`number.rs` has no state) | `Numbers`, `ProfileNumbers` |
| budgeted serializer | `Serializer` | `SerializerMachine` | `SerializerProofs`, `SerializerForms`, `SerializerCompleteness`, `SerializerRoundTrip` |
| durable event attestation | `Framing`, `Attestation` | `AttestationMachine` | `Framing`, `HeaderProofs`, `AttestationProofs`, `AttestationForms` |
| single-flight token refresh | `TokenRefresh` | `TokenRefreshMachine` | `TokenRefreshProofs` |
| MQTT sessions | `Mqtt` | `MqttMachine` | `MqttProofs`, `MqttHistory` |
| SigV4 request paths | `SigV4Path` | `SigV4Path` (methods) | `SigV4Path` |

Several modules state in plain terms what a shared definition comes to (`SerializerForms`, `ReaderForms`,
`AttestationForms`, `MqttHistory`, and lemmas whose names end in `Iff`), so that the theorems do not rest on a definition
alone. Those that only list bounds and characters have no row below: `Identity.DigestIff`, and `DomainText`, `TopicIff`,
`IdentifierIff`, `HeaderIff`, `RecordIff` and `SettingsIff` of `AttestationForms`.

`dafny verify dfyconfig.toml` checks everything.

## What is assumed

Everything outside the modelled code is a parameter, never an axiom.

* **SHA-256** is an arbitrary function. It is *not* assumed injective, which no function into 32 bytes is. The reader's
  theorems assume only that no answer of the store exhibits a different preimage of a digest the writer stored
  (`ReaderProofs.NoCollision`).
* **The store** may answer every read with anything (`Storage.GetReply`). Where honesty is needed it is a hypothesis
  (`HonestGet`, `HonestPut`, the `honest` flag of `VerifiedObjectStorage`). Each await is a separate call whose answer is
  chosen freely; a failing or cancelled await is an answer, or a cut of the run (`ChunkWriter.CutRunsAreGuarded`). What
  must succeed when everything answers is stated under the `available` flag. A `proper` store hands out complete tags if
  it is managed, and none longer than an optional `tagLimit`.
* **JSON index encoding** is a pair of functions of which decoding undoes encoding (`ChunkFormat.Faithful`).
* **String decoding and number conversion** of the JSON parser are functions (`JsonGrammar.Tokens`); rounding to binary64
  is a function from lexemes.
* **Ed25519** is a pair of functions. Round trips assume that it verifies what it signs (`AttestationProofs.Works`);
  authenticity assumes only that the signature of the delivery at hand is no forgery (`AttestationProofs.NoForgery`),
  which holds of everything a signer made (`AttestationProofs.AttestedIsNoForgery`).
* **Clocks** are parameters. Strings of the JSON and storage parts are byte strings, one character per byte.

## Findings

* **A written file is not always readable.** `put_chunked` stores whatever version and ETag the store reports, while
  `Pointer::receipt` refuses an empty one and one above 2048 bytes (`RoundTrip.WriterKeepsAnyTag`). So a successful write
  to an honest store, managed or not, can be unreadable: `RoundTrip.OverlongTagBreaksReading` gives a one-chunk file whose
  chunk got a version of 2049 bytes and of which no range can be read. `RoundTrip.ReadCompletesIff` gives the exact
  condition for every range: the tags of all pages, and of all chunks listed by the pages the range needs, are absent or
  1 to 2048 bytes long.
* **A duplicate completion can hide an answer from its waiters.** The answer is published outside the lock, so a second
  `complete` of the same operation can publish its error first, for any operation in flight and whatever its worker
  produced (`TokenRefreshProofs.DuplicateHidesAnswer`). The cache is not affected. `TokenRefreshProofs.FirstAnswersStandIff`
  gives the exact condition: all waiters hear the first answer in every publication order if and only if no operation is
  completed again after an answer other than that error. The client completes each operation once.
* **A parsed number may be refused when it is captured again.** In the safe profile, a number that is no integer reaches
  the float path, where the parser does not repeat the check that capturing makes. `ProfileNumbers.HalfAboveSafeRange` is
  9007199254740992.5; `ProfileNumbers.ParsedNumberIsCapturedAgainIff` proves that this happens exactly for a number that
  denotes no integer and rounds to an integer outside the safe range.
* **The node cap implies the item cap** in both JSON paths: nodes are always one more than items when counting is on
  (`JsonTheorems.NodesExceedItems`, `SerializerProofs.CapturedTreeIsPaidFor`).

## Model

| member | source | states |
|---|---|---|
| Identity.LocationInjective | warpin-object-storage/src/storage.rs:807-824 | two context and key pairs share a physical location only if they are the same pair, whatever the configured prefix |
| Identity.LocationPlaced | warpin-object-storage/src/storage.rs:807-824 | an object lies below the configured prefix, in the directory of its context, under its key, and nothing stands between |
| Identity.PrefixesAreApart | warpin-object-storage/src/storage.rs:807-824 | two deployments share a location only if one prefix continues the other at a path separator |
| Identity.ValidKeyIff | warpin-object-storage/src/contract.rs:5-23 | a key is valid if and only if it is proper segments joined by slashes, and at most 1024 bytes |
| Identity.PartKeyIff | warpin-object-storage/src/streaming.rs:147-157 | whether a derived part key is valid depends only on the length of the file's key, so one early check covers all chunks and pages |
| Identity.PartKeyPlaced | warpin-object-storage/src/streaming.rs:147-157 | a part lies below the key of its file and its name ends in its kind and its digest |
| Storage.AbsorbMeaning | warpin-object-storage/src/storage.rs:649-740 | the growing read buffer ends as exactly the concatenated body if and only if no piece is broken and the announced size is not exceeded |
| Storage.ReadReceiptAuthentic | warpin-object-storage/src/storage.rs:743-805 | against any answer, a released object has the pinned digest and size and is the body that was sent |
| Storage.ReadReceiptIff | warpin-object-storage/src/storage.rs:743-805 | a pinned read releases given bytes if and only if they are what was sent, unbroken and of the announced size, with the pinned size, digest, ETag and version, the declared digest where one is stored, and on a managed store accepted evidence and both tags |
| Storage.DeliveredVerifies | warpin-object-storage/src/storage.rs:649-740 | an honest answer verifies exactly when size, declared digest, version and content digest match |
| Storage.HeldReceiptReads | warpin-object-storage/src/storage.rs:743-805 | an object a store holds as its receipt says is read back whole |
| Storage.ReceiptIsHeld | warpin-object-storage/src/storage.rs:421-514 | on an honest store a receipt is issued only for an object really held, nothing else changes, and it is a replay exactly if the object was there before |
| Storage.FirstWriteSucceeds | warpin-object-storage/src/storage.rs:421-514 | an answered create-only write is refused if and only if a different object is already there |
| Storage.WriteAcceptedIff | warpin-object-storage/src/storage.rs:885-912 | a write is accepted if and only if its content type is 1 to 255 of the allowed characters without outer spaces, its content is within the limit and hashes to the stated digest |
| Storage.PutOutcomeIff | warpin-object-storage/src/storage.rs:462-514 | a write gets a given receipt if and only if the backend serves content of the written digest and type under what its put answered; the receipt carries the tags that were read back |
| ObjectStore.VerifiedObjectStorage.ReadVerifiedBounded | warpin-object-storage/src/storage.rs:649-740 | the buffering loop computes the verified read of its answer |
| ObjectStore.VerifiedObjectStorage.ReadReceiptBounded | warpin-object-storage/src/storage.rs:743-805 | the receipt-pinned read of its answer |
| ObjectStore.VerifiedObjectStorage.PutImmutable | warpin-object-storage/src/storage.rs:421-514 | validation before any effect, one logged put, the outcome of create and readback; an honest store only grows, by at most the object written, which lies below the prefix under its key, and holds what the receipt says; when it answers, the write fails exactly if a different object is in the way |
| ObjectStore.VerifiedObjectStorage.DeleteVerified | warpin-object-storage/src/storage.rs:537-621 | nothing changes before verification has succeeded, whatever the error; on an honest store only a readable object of the verified digest and version, lying below the prefix under its key, is then removed, success means absence, `AlreadyAbsent` exactly reports prior absence, an error after verification is a backend error; when it answers, a readable object is deleted exactly if it matches |
| ConcurrentWrites.RunInvariant | warpin-object-storage/src/storage.rs:421-514 | in every interleaving of create and readback steps every issued receipt is held |
| ConcurrentWrites.ContentNeverChanges | warpin-object-storage/src/storage.rs:421-514 | over any interleaving of writers, what a location holds once it holds for ever |
| ConcurrentWrites.ReceiptsAgree | warpin-object-storage/src/storage.rs:421-514 | two receipts for one key and context agree on digest, version and ETag, and at most one is not a replay |
| ConcurrentWrites.WriterCanFinish | warpin-object-storage/src/storage.rs:421-514 | from every reachable interleaving a waiting writer can finish in two steps, and then it gets a receipt if and only if its location was free or held a matching object |
| ConcurrentWrites.ContextsAreIsolated | warpin-object-storage/src/storage.rs:807-824 | writers of other keys or contexts never change what is readable at a location |
| ConcurrentWrites.ConcurrentDeletes | warpin-object-storage/src/storage.rs:537-621 | once one of any number of concurrent deletes of a pinned object succeeds it is absent and stays so, at most one of them removed it, an object that does not match is never removed; who hears `Deleted` is the store's answer, so a store that reports success for a missing object may tell several callers |
| ConcurrentWrites.WritersKeepAnswers | warpin-object-storage/src/storage.rs:421-514 | in every interleaving a writer puts once and finishes once |
| ConcurrentWrites.DeleterCanFinish | warpin-object-storage/src/storage.rs:537-621 | a deleter can always finish: it removes a matching object or reports that there is none |
| ChunkFormat.PointerRoundTrip | warpin-object-storage/src/streaming.rs:83-118 | a receipt survives becoming a pointer and back exactly when each tag is absent or 1 to 2048 bytes long |
| ChunkFormat.ChunkExists | warpin-object-storage/src/streaming.rs:165-167 | chunk k starts inside the file if and only if k is below the chunk count |
| ChunkFormat.SizeBound | warpin-object-storage/src/streaming.rs:23-28 | a file has at most 4096 pages if and only if it is not longer than 4096 full pages, which is at most 2^44 bytes |
| ChunkParts.CompletedIsNotBlocked | warpin-object-storage/src/streaming.rs:216-282 | once the root is journalled no part of the file can be named that was too long or refused: what an honest store holds determines every pointer, page and root |
| ChunkParts.ClearStays | warpin-object-storage/src/streaming.rs:147-157 | storing a part puts nothing foreign in the place of any other part of the file, because a part's key determines its kind and digest |
| ChunkParts.ClearIsNotBlocked | warpin-object-storage/src/streaming.rs:216-276 | when every part fits the limits under the tags the store can hand out and nothing foreign is in its place, no part can be refused |
| ChunkParts.CompleteHasPart | warpin-object-storage/src/streaming.rs:216-276 | where the whole file is stored, every part that a second write comes to is in its place and welcome |
| ChunkParts.CompleteIsNotBlocked | warpin-object-storage/src/streaming.rs:216-276 | there no part can be too long or refused, for any limit |
| ChunkParts.RootCompletes | warpin-object-storage/src/streaming.rs:263-276 | putting the root over stored pages, its answer lost or not, turns a store that is clear for the file into one that holds all of it |
| ChunkWriter.WriteChunkPart | warpin-object-storage/src/streaming.rs:285-325 | intent, put and receipt are logged in that order and a failure cuts the list; a returned receipt names the bytes written |
| ChunkWriter.CutRunsAreGuarded | warpin-object-storage/src/streaming.rs:177-283 | both guarantees of a run hold of every prefix of it, so of a run cancelled at any await |
| ChunkWriter.RootGuarded | warpin-object-storage/src/streaming.rs:263-276 | the root put comes after every chunk and page receipt is journalled and the input was read to its end |
| ChunkWriter.AcceptableIff | warpin-object-storage/src/streaming.rs:165-203 | a request is accepted if and only if the chunk size is a power of two from 2^16 to 2^24, there are at most 2^20 chunks within the size limit, the type is 1 to 256 printable ASCII characters, and every part below the key can be named |
| ChunkWriter.StoreNext | warpin-object-storage/src/streaming.rs:211-250 | one pass of the chunking loop keeps: chunks and pages built so far are those of the bytes read so far, page i starts at chunk 256 i, all but the last are full; when everything answers it fails only if the input ends or a part of this file, over parts already stored, is too long or refused |
| ChunkWriter.WriteTree | warpin-object-storage/src/streaming.rs:204-250 | the loop stores the tree of the whole input, every part journalled, or stops at the end of the input or, when everything answers, at a part of this file that is too long or refused |
| ChunkWriter.StoreRoot | warpin-object-storage/src/streaming.rs:263-282 | the root is written last and its receipt commits to the input; when everything answers it fails exactly if a part is too long or refused, and then changes nothing; the file stays clear or becomes complete, and over a complete file the root is a replay |
| ChunkWriter.PutChunked | warpin-object-storage/src/streaming.rs:177-283 | for any input, journal and store: every put has an earlier intent, a root put is guarded, a returned receipt commits to exactly the input (size, end of input and digest checked); an honest store then holds the whole tree; when store, journal and input answer, it fails if and only if the request is bad, the input is not the one announced, or a part of this file over stored parts has an overlong index or is refused. Writing again is safe: however a run ends, an honest proper store that was clear for the file is still clear for it or holds all of it, one that held all of it is unchanged and its root a replay, and from either, with room for the parts, an answered write succeeds |
| Reader.StepInRange | warpin-object-storage/src/streaming.rs:435-503 | whatever root and pages were accepted, every product, index and difference the next step computes is in range |
| Reader.NextValid | warpin-object-storage/src/streaming.rs:425-503 | every call keeps the reader valid, even against adversarial pages |
| Reader.ReadStep | warpin-object-storage/src/streaming.rs:435-503 | the exact effect of a call that releases a chunk |
| ReaderForms.OpenIff | warpin-object-storage/src/streaming.rs:330-387 | opening succeeds if and only if the file is within the limit, the answer is the object the receipt pins, it decodes to a root of this format, key, context, digest, size and type with just enough pages, each page pointer is readable, bounded and named by its digest, and the range lies inside the file; the reader then stands at the first chunk of the range |
| ReaderForms.LoadPageIff | warpin-object-storage/src/streaming.rs:446-480 | a page is loaded if and only if the answer is the object its pointer pins and decodes to a page of this format that starts at chunk 256 index, lists up to 256 chunks and all that are left if fewer, each of the right length and named by its digest |
| ReaderForms.PagesCoverIff | warpin-object-storage/src/streaming.rs:352-353 | a root has the right number of pages if and only if they hold the file and one fewer would not |
| ReaderProofs.FailureIsSticky | warpin-object-storage/src/streaming.rs:415-433 | a failed reader releases nothing more and never reports a verification |
| ReaderProofs.RunEnds | warpin-object-storage/src/streaming.rs:435-503 | a reader is finished or failed after one call per chunk of the range and one more |
| ReaderProofs.WholeDigestMeaning | warpin-object-storage/src/streaming.rs:391-424 | `WholeDigestVerified` means, for any receipt and any store, that the released bytes hash to the receipt's content digest |
| ReaderProofs.OpenAuthentic | warpin-object-storage/src/streaming.rs:330-387 | an accepted root is the one the receipt commits to, positioned at the range |
| ReaderProofs.PageAuthentic | warpin-object-storage/src/streaming.rs:449-486 | an accepted page is the page the writer stored |
| ReaderProofs.ChunkAuthentic | warpin-object-storage/src/streaming.rs:486-503 | a released chunk is that chunk of the written file, cut to the range |
| ReaderProofs.ReleasedBytesAuthentic | warpin-object-storage/src/streaming.rs:330-503 | for any receipt that commits to D, any range, any store and any number of calls, the released bytes are a prefix of D[range], and D[range] itself once the end is reported |
| RoundTrip.HonestOpen | warpin-object-storage/src/streaming.rs:330-387 | on an honest store opening succeeds exactly for a file within the size limit, a range inside it and usable page tags |
| RoundTrip.HonestRunSucceeds | warpin-object-storage/src/streaming.rs:425-503 | no call fails on an honest store that holds the tree, if the tags the range needs are usable |
| RoundTrip.DrainRoundTrip | warpin-object-storage/src/streaming.rs:330-503 | draining any acceptable range of a written file whose needed tags are usable, or the whole file, empty or of many pages, yields exactly its bytes and the matching verification |
| RoundTrip.CompletedReadNeedsTags | warpin-object-storage/src/streaming.rs:93-117 | a read that completes, on any store, has found usable every chunk tag of the pages its range needs |
| RoundTrip.ReadCompletesIff | warpin-object-storage/src/streaming.rs:93-117 | after a successful write a read of any range of an honest store completes if and only if the file is within the size limit, the range inside the file, the page tags are usable, and so are the chunk tags of the pages that hold a chunk of the range |
| RoundTrip.WholeNeedsEveryPage | warpin-object-storage/src/streaming.rs:435-486 | for a whole read that condition covers every tag of the tree |
| RoundTrip.WriterKeepsAnyTag | warpin-object-storage/src/storage.rs:462-514 | the write of an object succeeds under whatever tags an honest store reports, while its pointer is accepted exactly if both are usable |
| RoundTrip.OverlongTagBreaksReading | warpin-object-storage/src/streaming.rs:93-104 | a one-chunk file whose chunk got a version of 2049 bytes: a store holds its whole tree, and no read of any range of it completes |
| ChunkReader.ChunkedObjectReader.CheckPage | warpin-object-storage/src/streaming.rs:449-480 | the checking loop accepts the pointers of a page exactly when there are as many as its place demands and each one is right |
| ChunkReader.CheckPagePointers | warpin-object-storage/src/streaming.rs:357-364 | the loop over the page pointers accepts a root exactly when each one can be read within the index limit and is named by its digest |
| ChunkReader.ChunkedObjectReader.FetchPage | warpin-object-storage/src/streaming.rs:446-480 | the page the specification loads |
| ChunkReader.ChunkedObjectReader.EnsurePage | warpin-object-storage/src/streaming.rs:444-482 | a page is fetched only when another one is loaded, and replaced only by a checked one |
| ChunkReader.ChunkedObjectReader.Release | warpin-object-storage/src/streaming.rs:488-503 | hash, position and released slice of one verified chunk |
| ChunkReader.ChunkedObjectReader.ReadNext | warpin-object-storage/src/streaming.rs:444-503 | page, chunk and released bytes as specified, fields updated in place |
| ChunkReader.ChunkedObjectReader.NextInner | warpin-object-storage/src/streaming.rs:435-503 | one step of the reader as specified |
| ChunkReader.ChunkedObjectReader.NextChunk | warpin-object-storage/src/streaming.rs:425-433 | one step, with the first error remembered |
| ChunkReader.OpenChunked | warpin-object-storage/src/streaming.rs:330-387 | opening as specified, on the one root answer |
| JsonLexing.NumberScanned | warpin-integrity/src/json.rs:196-232 | the scanner reads back every number the grammar can write, before any character that may follow it |
| JsonLexing.NumberFound | warpin-integrity/src/json.rs:196-232 | whatever it scans is a number of the grammar |
| JsonLexing.TokenParsed | warpin-integrity/src/json.rs:171-194 | every string token is scanned whole, escapes included, then bounded and decoded |
| JsonLexing.TokenFound | warpin-integrity/src/json.rs:171-194 | whatever is scanned as a string is a string token |
| JsonLexing.BlanksSkipped | warpin-integrity/src/json.rs:250-254 | exactly the four blanks of the grammar are skipped |
| JsonCompleteness.ValueParsed | warpin-integrity/src/json.rs:79-169 | on the text of any syntax tree, in any context, the parser returns the tree's meaning, stops at its end and counts its nodes and items, exactly if it is within every limit |
| JsonCompleteness.ItemsParsed | warpin-integrity/src/json.rs:115-134 | the array loop returns all elements in order |
| JsonCompleteness.MembersParsed | warpin-integrity/src/json.rs:136-169 | the object loop returns all members in order, if no decoded name repeats |
| JsonCompleteness.KeyParsed | warpin-integrity/src/json.rs:147-158 | a member name is accepted exactly if it is short enough, decodes, and is new |
| JsonSoundness.ValueFound | warpin-integrity/src/json.rs:79-169 | whatever is accepted is the text of a well-formed syntax tree, and the rest is untouched |
| JsonSoundness.ItemsFound | warpin-integrity/src/json.rs:115-134 | an accepted array body derives from the grammar |
| JsonSoundness.MembersFound | warpin-integrity/src/json.rs:136-169 | an accepted object body derives from the grammar |
| JsonTheorems.AcceptedIffDerived | warpin-integrity/src/json.rs:39-65 | for any limits, the result is v if and only if the whole text derives a tree of sections 2 to 7 of RFC 8259 that means v and is within the limits |
| JsonTheorems.DocumentParsed | warpin-integrity/src/json.rs:39-65 | on any derivation of the text the result is its meaning, cut by the limits |
| JsonTheorems.GrammarUnambiguous | warpin-integrity/src/json.rs:39-65 | all derivations of one text mean the same |
| JsonTheorems.BoundedCutsUnbounded | warpin-integrity/src/json.rs:12-65 | the bounded parser returns v if and only if the unbounded one does and length, depth 128, node count and token lengths are within the limits; names are unique at every depth |
| JsonTheorems.NodesExceedItems | warpin-integrity/src/json.rs:83-88 | with counting on, an accepted text ends with nodes == items + 1 |
| JsonGrammar.NodesAndChildren | warpin-integrity/src/json.rs:234-242 | every value but the root is one element or member |
| JsonMachine.Parser.SkipWhitespace | warpin-integrity/src/json.rs:250-254 | the loop moves the index past exactly the leading blanks |
| JsonMachine.Parser.ConsumeDigits | warpin-integrity/src/json.rs:244-248 | the loop moves the index past exactly the leading digits |
| JsonMachine.Parser.Literal | warpin-integrity/src/json.rs:102-113 | a literal is matched whole or not at all |
| JsonMachine.Parser.String | warpin-integrity/src/json.rs:171-194 | the escape-tracking loop finds the closing quote the specification finds |
| JsonMachine.Parser.Numeral | warpin-integrity/src/json.rs:196-232 | the number steps scan, bound and convert as specified |
| JsonMachine.Parser.ClaimCollectionItem | warpin-integrity/src/json.rs:234-242 | the item counter moves or refuses as specified |
| JsonMachine.Parser.Value | warpin-integrity/src/json.rs:79-100 | the index and both counters end where the specification says, with its value |
| JsonMachine.Parser.ParseArrayAt | warpin-integrity/src/json.rs:115-134 | the loop over elements equals the specification |
| JsonMachine.Parser.ParseObjectAt | warpin-integrity/src/json.rs:136-169 | the loop over members with its set of seen names equals the specification |
| JsonMachine.ParseWithByteBudget | warpin-integrity/src/json.rs:39-65 | the whole run equals the specification that the theorems are about |
| Numbers.NormalizedIntegerExact | warpin-integrity/src/number.rs:146-194 | digits times 10^scale is the integer m up to 2^53-1, a larger integer, or no integer, exactly as reported |
| Numbers.SafeProfileClassifies | warpin-integrity/src/number.rs:80-127 | under the safe profile every JSON number whose exponent and scale fit 64 bits is classified by its mathematical value |
| Numbers.SpellingDoesNotMatter | warpin-integrity/src/number.rs:80-127 | two spellings of one safe integer are captured alike |
| Numbers.ExponentSplits | warpin-integrity/src/number.rs:135-144 | the cut at the marker finds the grammatical mantissa and the exponent's value |
| Numbers.ExactBinary64Meaning | warpin-integrity/src/number.rs:129-133 | the bit test holds if and only if n is m 2^e with m below 2^53 |
| Numbers.TypedIntegersExact | warpin-integrity/src/number.rs:15-55 | a typed integer is accepted exactly when the profile carries it; it stays an integer if 64 bits are enough and becomes the equal float otherwise |
| ProfileNumbers.ProfilesAreStable | warpin-integrity/src/number.rs:15-78 | under both profiles a captured number captures to itself, and every byte to itself |
| ProfileNumbers.TypedFloatsExact | warpin-integrity/src/number.rs:57-66 | a typed float is captured as itself if and only if it is finite and, in the safe profile, no integer beyond 2^53-1 |
| ProfileNumbers.RfcProfileRounds | warpin-integrity/src/number.rs:80-89 | in the RFC 8785 profile a lexeme is accepted if and only if it rounds to a finite binary64; it then stands for that number and is captured again unchanged |
| ProfileNumbers.ParsedNumberIsCapturedAgainIff | warpin-integrity/src/number.rs:57-127 | a number parsed in the safe profile is captured again unchanged, unless it denotes no integer and rounds to an integer outside the safe range, when it is refused |
| ProfileNumbers.FloatsDenoteNoInteger | warpin-integrity/src/number.rs:111-127 | a number parsed in the safe profile becomes a float if and only if it denotes no integer |
| ProfileNumbers.HalfAboveSafeRange | warpin-integrity/src/number.rs:57-127 | 9007199254740992.5 is such a number |
| SerializerProofs.CaptureSound | warpin-integrity/src/capture.rs:230-495 | a captured value is what the calls describe, the counters moved by exactly its nodes, its items and the bytes the caller claims, and every level reached and every string is within bounds |
| SerializerProofs.PushSound | warpin-integrity/src/capture.rs:522-545 | one element of a sequence that has not failed |
| SerializerProofs.InsertSound | warpin-integrity/src/capture.rs:624-654 | one member of an object that has not failed, with a new name |
| SerializerProofs.MapCallsSound | warpin-integrity/src/capture.rs:673-710 | keys and values alternate in every map that finishes |
| SerializerProofs.KeySound | warpin-integrity/src/capture.rs:744-862 | an accepted key is the text the key described |
| SerializerProofs.FailureIsFinal | warpin-integrity/src/capture.rs:522-557 | after a failed element a sequence captures nothing, spends nothing and cannot finish, whatever is called |
| SerializerProofs.MapFailureIsFinal | warpin-integrity/src/capture.rs:649-710 | the same for maps and their keys |
| SerializerProofs.CapturedTreeIsPaidFor | warpin-integrity/src/capture.rs:230-246 | for any caller, also one that ignores errors: a returned tree is what it said, no claim was wasted (the counters equal its nodes and items), its string and name bytes are at most those claimed, and it is within every limit with unique names |
| SerializerProofs.MeaningShape | warpin-integrity/src/capture.rs:275-495 | what a caller describes has no more string bytes than it claims, is no deeper than it reaches, and repeats no name |
| SerializerForms.MeaningIff | warpin-integrity/src/capture.rs:275-495 | every form of call, item by item: element i of a captured sequence is what call i described, member i has the name and value of pair i, byte i is the number of that byte, a variant wraps its payload under its name |
| SerializerForms.CapturedIsDescribed | warpin-integrity/src/capture.rs:230-246 | for any caller, a captured value is described by its calls in that sense |
| SerializerForms.BytesAreTheirSequence | warpin-integrity/src/capture.rs:362-376 | a byte array is captured as the sequence of its bytes serialized one by one, and within the same limits |
| SerializerForms.OverannouncedIsRefused | warpin-integrity/src/capture.rs:101-109 | a compound form that announces more elements than items are left is refused, whatever it then does |
| SerializerCompleteness.CaptureComplete | warpin-integrity/src/capture.rs:275-495 | a consistent caller that fits is captured, at any depth and budget, at exactly its cost |
| SerializerCompleteness.CaptureIff | warpin-integrity/src/capture.rs:230-246 | for callers whose announced lengths do not overstate, the result is v if and only if they describe v and are within the limits |
| SerializerRoundTrip.FaithfulCost | warpin-integrity/src/capture.rs:150-170 | a captured value announces true lengths, claims exactly its string bytes and reaches exactly its depth |
| SerializerRoundTrip.FaithfulIff | warpin-integrity/src/capture.rs:150-246 | serializing a value yields it back if and only if it is within the limits, has unique names and keepable numbers |
| SerializerRoundTrip.CaptureIsIdempotent | warpin-integrity/src/capture.rs:150-246 | whatever any caller got captured is captured again unchanged within the same limits |
| SerializerMachine.CaptureBudget.ClaimNodeAt | warpin-integrity/src/capture.rs:41-58 | depth and node limit, one node counted |
| SerializerMachine.CaptureBudget.ClaimStringBytes | warpin-integrity/src/capture.rs:60-88 | string and byte limits, bytes counted |
| SerializerMachine.CaptureBudget.Open | warpin-integrity/src/capture.rs:435-494 | the claims before each compound form, in order |
| SerializerMachine.SequenceCapture.PushValue | warpin-integrity/src/capture.rs:522-545 | values, failure flag and shared budget after one call |
| SerializerMachine.ObjectCapture.InsertValue | warpin-integrity/src/capture.rs:624-654 | entries, seen names, failure flag and budget after one call |
| SerializerMachine.ObjectCapture.SerializeKey | warpin-integrity/src/capture.rs:677-691 | a second key, or a key after a failure, fails for good |
| SerializerMachine.ObjectCapture.SerializeValue | warpin-integrity/src/capture.rs:693-706 | a value without a key fails for good |
| SerializerMachine.SerializeBytes | warpin-integrity/src/capture.rs:362-376 | one item and one node for every byte |
| SerializerMachine.Serialize | warpin-integrity/src/capture.rs:275-495 | every form of call, with its effect on the shared budget |
| SerializerMachine.CaptureTyped | warpin-integrity/src/capture.rs:230-246 | the run the theorems are about |
| Framing.FramesInjective | warpin-event-bus/src/attestation.rs:629-645 | length-framed fields are recovered from their bytes |
| Framing.BigEndianValue | warpin-event-bus/src/attestation.rs:629-645 | eight framed bytes weigh, most significant first, what they encode |
| Framing.I64BytesValue | warpin-event-bus/src/attestation.rs:604-646 | a signed time is eight bytes of two's complement |
| Framing.TimestampCanonical | warpin-event-bus/src/attestation.rs:506-518 | a timestamp is accepted if and only if it is the decimal text of its value, which fits 63 bits |
| Framing.HexRoundTrip | warpin-event-bus/src/attestation.rs:520-532 | lower-case hexadecimal decodes to the signature it came from |
| Framing.HexAt | warpin-event-bus/src/attestation.rs:520-532 | byte i is spelled as digits 2i and 2i+1, the upper half first |
| HeaderProofs.CollectMeaning | warpin-event-bus/src/attestation.rs:534-563 | collecting succeeds if and only if there are at most 32 headers and each reserved one, in whatever case, is spelled exactly, has a value and occurs once; it finds exactly those |
| HeaderProofs.CollectIgnoresOrder | warpin-event-bus/src/attestation.rs:534-563 | any order of the headers gives the same result |
| HeaderProofs.LowerCaseName | warpin-event-bus/src/lib.rs:119-136 | a name a record may carry resembles a reserved one only by being it |
| AttestationProofs.ProjectionInjective | warpin-event-bus/src/attestation.rs:604-646 | no two statements of nine fields are signed as the same bytes |
| AttestationProofs.ProjectionLayout | warpin-event-bus/src/attestation.rs:604-646 | the signed bytes are the domain and the nine fields in their order, each behind its length |
| AttestationForms.AttestedLayout | warpin-event-bus/src/attestation.rs:218-279 | an attested record is the record with the eight headers by name and in order, the signature covering exactly its topic, tenant, key, payload digest, producer, key identifier, event and times |
| AttestationForms.ProjectionIff | warpin-event-bus/src/attestation.rs:604-646 | there is a projection if and only if its length is a 64-bit number |
| AttestationProofs.VerifiedIsAuthentic | warpin-event-bus/src/attestation.rs:387-471 | an accepted delivery has the topic, tenant, key, payload digest, event and times of an attestation its producer made, if and only if the signature it presents is no forgery |
| AttestationProofs.AttestedIsNoForgery | warpin-event-bus/src/attestation.rs:218-279 | that condition holds of every delivery of an attested record, in any header order |
| AttestationProofs.VerifiedIsCurrent | warpin-event-bus/src/attestation.rs:450-461 | an accepted identity has an installed key, is not expired, not too long lived and not from the future |
| AttestationProofs.HeadersIff | warpin-event-bus/src/attestation.rs:401-420 | parsing the reserved headers is the exact inverse of writing them: one spelling for every identity, time and signature |
| AttestationProofs.AcceptedIffCanonical | warpin-event-bus/src/attestation.rs:387-471 | a delivery is accepted if and only if topic, key and payload are within their bounds, there are at most 32 headers, the reserved ones are, in any order, the eight a signer would have pushed for some contents, these are signed under an installed key for this delivery, and now < expiry, issue < expiry, expiry - issue within the validity and issue - now within the skew |
| AttestationProofs.AttestSucceedsIff | warpin-event-bus/src/attestation.rs:218-279 | attesting a valid record fails only for a bad event identifier, bad times, a reserved header or more than 24 headers |
| AttestationProofs.LookalikesAreRejected | warpin-event-bus/src/attestation.rs:534-563 | a delivery with a reserved name in any other case is rejected, whatever else it carries |
| AttestationProofs.ClockIff | warpin-event-bus/src/attestation.rs:450-461 | the saturating comparisons are the plain ones for all 64-bit times |
| AttestationProofs.AttestedIsVerified | warpin-event-bus/src/attestation.rs:218-279 | every attested record is accepted with the identity it was attested for, in any header order, if and only if now < expiry, the lifetime is within the policy and the issue time at most the skew ahead |
| AttestationProofs.InsertExtends | warpin-event-bus/src/attestation.rs:329-370 | inserting a key replaces none |
| AttestationForms.InsertAddsOneKey | warpin-event-bus/src/attestation.rs:329-370 | a key is inserted if and only if it is well formed and its place is free; what is installed afterwards is what was and that one key |
| AttestationProofs.AcceptanceIsStable | warpin-event-bus/src/attestation.rs:422-471 | further keys never change an accepted result |
| AttestationProofs.OtherKeysDoNotMatter | warpin-event-bus/src/attestation.rs:422-471 | a new key changes only results that name it, and only from rejection |
| AttestationProofs.DeliveryOrderIsIrrelevant | warpin-event-bus/src/attestation.rs:387-471 | header order changes no verdict, accepted or not |
| AttestationMachine.SigningProjection | warpin-event-bus/src/attestation.rs:604-646 | the buffer filled field by field is the projection |
| AttestationMachine.NamesAreDistinct | warpin-event-bus/src/lib.rs:217-224 | the set-building loop finds a repeated name if there is one |
| AttestationMachine.ValidateRecord | warpin-event-bus/src/lib.rs:190-226 | record validation as specified |
| AttestationMachine.AttestRecord | warpin-event-bus/src/attestation.rs:218-279 | checks, signature and pushed headers as specified |
| AttestationMachine.CollectReservedHeaders | warpin-event-bus/src/attestation.rs:534-563 | the map-filling loop equals the specification |
| AttestationMachine.ProducerAttestationVerifier.InsertVerifyingKey | warpin-event-bus/src/attestation.rs:329-370 | a present producer and key pair is refused and nothing changes; otherwise exactly that key is added |
| AttestationMachine.ProducerAttestationVerifier.VerifyDelivery | warpin-event-bus/src/attestation.rs:387-471 | verification as specified, on the keys held at the call |
| TokenRefreshProofs.RunsAreSafe | warpin-dingtalk/src/lib.rs:211-310 | in every interleaving at most one operation is in flight, it leaves the cache empty, and every unanswered operation is in flight or about to be answered |
| TokenRefreshProofs.AnswersAreFinal | warpin-dingtalk/src/lib.rs:300-309 | an operation's answer is written once, so all its waiters hear the same |
| TokenRefreshProofs.StaleCompletionsDoNotInterfere | warpin-dingtalk/src/lib.rs:239-278 | delete all stale completions and all publications from any run: after every remaining event cache, slot and the answer to the next caller are what they were |
| TokenRefreshProofs.ServedTokensAreFresh | warpin-dingtalk/src/lib.rs:218-226 | a served token was validated in this run, and it is still 120 seconds before its own expiry |
| TokenRefreshProofs.FreshTokenServesEveryone | warpin-dingtalk/src/lib.rs:218-237 | after one refresh every caller gets its token and no other refresh starts until it expires, whatever stale completions arrive |
| TokenRefreshProofs.CacheHasSource | warpin-dingtalk/src/lib.rs:708-738 | what is cached comes from one valid response of the operation in flight |
| TokenRefreshProofs.WaitersGetTheirResult | warpin-dingtalk/src/lib.rs:239-309 | in every run an answer is what the first completion of that operation meant (a usable response its token, a worker error that error, a bad response a decode error, a panic the loss of the refresh), or the loss of the refresh if the operation was completed again |
| TokenRefreshProofs.TokensComeFromResponses | warpin-dingtalk/src/lib.rs:239-309 | a waiter is handed a token only if the first completion of its operation was a response with that token, of 1 to 16384 visible ASCII characters and a life of up to a day |
| TokenRefreshProofs.WorkersAreHeard | warpin-dingtalk/src/lib.rs:239-309 | the answer of an operation completed once is exactly what its worker produced: token, error, bad response or panic |
| TokenRefreshProofs.FirstAnswersStandIff | warpin-dingtalk/src/lib.rs:239-309 | over all publication orders of a schedule every answered operation carries its first answer, if and only if no operation is completed again after an answer other than the loss of the refresh |
| TokenRefreshProofs.DuplicateHidesAnswer | warpin-dingtalk/src/lib.rs:239-278 | from every state with an operation in flight, and for any two outcomes, a second completion can reach its waiters first; the cache is the first one's token until 120 seconds before it expires, if it lives longer than that |
| TokenRefreshProofs.OneWorkerAtATime | warpin-dingtalk/src/lib.rs:218-237 | in every run a worker starts only when every earlier operation was completed |
| TokenRefreshProofs.DuplicateCompletionCanHideToken | warpin-dingtalk/src/lib.rs:239-278 | an instance: a fresh token is cached while its waiters hear an error |
| TokenRefreshMachine.TokenRefreshOperation.CompleteWith | warpin-dingtalk/src/lib.rs:300-309 | the first answer stays |
| TokenRefreshMachine.TokenRefreshCoordinator.Acquire | warpin-dingtalk/src/lib.rs:218-237 | cache, slot and action as specified; an operation object is created exactly when one starts |
| TokenRefreshMachine.TokenRefreshCoordinator.CompleteLocked | warpin-dingtalk/src/lib.rs:239-276 | the critical section as specified, ownership by object identity |
| TokenRefreshMachine.TokenRefreshCoordinator.Complete | warpin-dingtalk/src/lib.rs:239-278 | critical section and publication together |
| MqttProofs.SessionsAreSound | warpin-mqtt/src/lib.rs:131-186 | in every run of any number of clients each session's reconnects, errors, generation and driver stay consistent |
| MqttProofs.ErrorsAreBounded | warpin-mqtt/src/lib.rs:166-179 | a session surfaces at most `max_reconnects` + 1 driver errors in its whole life |
| MqttProofs.GenerationCountsConnections | warpin-mqtt/src/lib.rs:154-165 | the generation is the number of connection acknowledgements returned |
| MqttProofs.StateFollowsDriver | warpin-mqtt/src/lib.rs:131-186 | a live session reports the connection as its last poll result described it |
| MqttProofs.DeadIffEnded | warpin-mqtt/src/lib.rs:131-213 | after any run a session is unusable if and only if some action of the run ended it: a timeout, cancellation, terminal error, close or abort |
| MqttProofs.NothingAfterTheEnd | warpin-mqtt/src/lib.rs:77-84 | after that no call on it reaches the driver |
| MqttProofs.AcknowledgedOnce | warpin-mqtt/src/lib.rs:118-128 | no event is acknowledged twice, by any client |
| MqttProofs.AcknowledgedByOwnConnection | warpin-mqtt/src/lib.rs:118-128 | an event is acknowledged only by the client that returned it, before that client connects again |
| MqttHistory.AvailableIffAlive | warpin-mqtt/src/lib.rs:77-84 | a client can reach its driver if and only if it was opened, no call ended it at once (timeout, cancellation, fatal error, close, abort), and its other errors are at most the reconnects it was opened with |
| MqttHistory.CallsReachIff | warpin-mqtt/src/lib.rs:77-84 | in every run, which calls reach a driver is decided by the earlier calls alone; an acknowledgement does if and only if the client is alive, was handed that event, and has since neither connected again nor acknowledged it |
| MqttHistory.ErrorsStayWithinGrant | warpin-mqtt/src/lib.rs:166-179 | a client surfaces at most one driver error more than the reconnects given when it was opened |
| MqttHistory.EndedReportsFailed | warpin-mqtt/src/lib.rs:74-76 | an ended client that was not closed reports failure |
| MqttHistory.EnabledIff | warpin-mqtt/src/lib.rs:118-131 | a run can go on with any call of any client opened in it, and with opening another one |
| MqttMachine.Client.AcknowledgeEvent | warpin-mqtt/src/lib.rs:118-128 | success exactly for an own, current, unacknowledged event the driver accepts, which is then marked |
| MqttMachine.Client.PollEvent | warpin-mqtt/src/lib.rs:131-186 | all fields after each way a poll can end, cancellation included |
| MqttMachine.Client.CurrentState | warpin-mqtt/src/lib.rs:74-76 | a client whose poll was cancelled reports failure |
| MqttMachine.Client.Shut | warpin-mqtt/src/lib.rs:189-218 | closing or aborting leaves a stopped session without its driver |
| SigV4Path.DecodeIff | warpin-object-storage/src/s3_adapter.rs:380-394 | decoding undoes encoding on all byte strings and accepts nothing else: unreserved bytes and upper-case triplets of reserved ones only |
| SigV4Path.EncodedBytes | warpin-object-storage/src/s3_adapter.rs:380-394 | an encoded segment holds unreserved bytes and percent signs only |
| SigV4Path.ByteSpelling | warpin-object-storage/src/s3_adapter.rs:380-394 | letters, digits and -._~ stand for themselves, any other byte is a percent sign and two upper-case hexadecimal digits, the upper half first |
| SigV4Path.EncodeConcat | warpin-object-storage/src/s3_adapter.rs:380-394 | bytes are spelled one by one, in order |
| SigV4Path.TrimIff | warpin-object-storage/src/s3_adapter.rs:222 | the trimmed base is the base without its trailing slashes and nothing else |
| SigV4Path.PathInjective | warpin-object-storage/src/s3_adapter.rs:222-226 | different lists of raw segments never assemble to the same path |
| SigV4Path.UriInjective | warpin-object-storage/src/s3_adapter.rs:222-226 | for a fixed base the request text determines the segments |
| SigV4Path.EncodeSegment | warpin-object-storage/src/s3_adapter.rs:380-394 | the byte loop computes the encoding |
| SigV4Path.RequestUri | warpin-object-storage/src/s3_adapter.rs:222-226 | trimmed base and encoded segments behind slashes |

## Left out

- Cryptography itself: SHA-256, Ed25519 and HMAC are parameters with the stated assumptions.
- Encryption policies and evidence: whether evidence is accepted is one flag of each store answer, and the policy's own checks are not part of this model.
- Path parsing of `object_store`: physical locations are the strings the program builds before they are parsed.
- Multi-version S3 histories: one live object per location.
- The journal is modelled as a log; its durability is not.
- RoundTrip.DrainRoundTrip: assumes that no answer collides with a stored part and that the needed tags are usable; the second condition is necessary, as `RoundTrip.ReadCompletesIff` proves.
- Numbers.SafeProfileClassifies: rounding of non-integers to binary64, negative zero and NaN are not modelled; floats are real numbers or not finite.
- JsonGrammar: UTF-8 and the contents of strings are the decoder's business; depth of the machine stack is not modelled, and line and column of errors are not.
- SerializerCompleteness.CaptureIff: a caller that announces more elements than it has may be refused for that alone; such callers are covered by `SerializerProofs.CapturedTreeIsPaidFor` only.
- Serializer: wrap-around of the counters at 2^64 in unbounded mode, and the conversion of captured values to `serde_json` values.
- Error kinds: operations report success or failure; kinds are kept in the storage part only.
- Attestation: key parsing of Ed25519 is one predicate, and the UTF-8, trimming and control-character test of a tenant is another.
- ChunkParts.ClearIsNotBlocked: how long the JSON text of an index object is depends on the encoding, which is a parameter; that each index object has room is therefore a condition on it.
- TokenRefresh: a poisoned lock, the overall timeout of a caller, and overflow of the calendar are not part of this model.
- Mqtt: wrap-around of the generation counter at 2^64; topics, packet sizes and the packets themselves; the loop inside `close`.
- SigV4Path: the URL parser that runs on the assembled text, query strings, and the hash of the URL.
- Settings, credentials, HTTP adapters, the Kafka producer, object tables, Modbus and workspace crates: not modelled.
