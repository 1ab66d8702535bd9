# Verified models of cyberware's core

This project models the parts of cyberware where a property spans many calls, and proves those properties in Dafny.
Loops and objects of the Python code are methods and classes, proved against functions and predicates; whole runs are
state machines whose steps are the operations; the main results are lemmas over every input or every run.

`dafny verify dfyconfig.toml` checks the whole project.

| files | what they cover |
|---|---|
| `Prelude`, `Decimal`, `Encoding`, `Graph` | bytes, the abstract hash and collisions; digits and powers; UTF-8, UTF-16 and hexadecimal codes; paths and the two graph searches |
| `Binary64`, `Json`, `Canonical`, `Reader`, `ReadBack`, `CanonicalNumbers`, `CanonicalForm`, `LinkBinding` | RFC 8785 (sections 3.2.2.2, 3.2.2.3 and 3.2.3): exact floats and their shortest digits, the printer, an independent reader, and the exact conditions under which text and value determine each other |
| `Chain`, `StoredForm`, `LedgerFile`, `DurableLedger`, `DurableRuns`, `LedgerReader`, `CodecExists` | the prev-hash chain, the ledger file as bytes, `durable_append` as a protocol of many processes with short writes, deaths and power losses from a genesis file or an empty one, what a reader of the file sees, and that the assumption about the codec can be met |
| `Merkle`, `Checkpoint`, `CheckpointProofs`, `CheckpointLayout`, `CheckpointWindows`, `CheckpointBinding` | Merkle roots, inclusion proofs, checkpointed chains entry by entry, cold check and audit, and what a checkpoint commits to |
| `Workflow`, `Compose`, `ComposeSpelled`, `ComposeProofs`, `Blueprint` | the workflow algebra over runs of the emitted step relation, and the structural deadlock check |
| `Fmv`, `FmvIndex`, `FmvMajority`, `Split` | the control-capped, trimmed, volume-weighted median and what one controller can do to it; the largest-remainder split |
| `Accounts`, `RewardLedger`, `Settlement`, `Disputes`, `Expiry`, `ExpiryProofs`, `SettlementMoves`, `SettlementRuns` | the double-entry reward ledger and every operation on it, who is paid what, and invariants over all interleavings |
| `StepStore`, `StepProtocol`, `StepProofs`, `StepRuns`, `StepTwice`, `StepProgress` | the governor's run store and the per-step authorization protocol with concurrent sessions: safety, double records, and when a run can be finished |
| `Exod`, `RateLimit`, `ReplayCache`, `WebSocket`, `WebSocketProofs` | single-use grants and the recorder of signed results; the token bucket; the bounded nonce cache; RFC 6455 framing (sections 5.2 and 5.3) |

How to read the models:

- SHA-256 is a parameter. Binding theorems say "equal, or here is a collision", and a collision is always between two
  strings that were really hashed, because two colliding strings somewhere exist for every function into 32 bytes.
  That no link digests to the all-zero root is an assumption, stated where it is used.
- Money is an integer count of 0.0001 units. Quotas of a split, times of the token bucket and rates are exact reals.
- An account stands for its name and a memo for its text: `Accounts.NameInjective` and `Accounts.MemoRoundTrip` are the
  conditions under which that loses nothing.
- A float is its exact binary value. The digits that `repr` writes for it are a parameter that is shortest, rounds back
  and is the closest of its length (`Binary64.IsShortest`); rounding is to nearest, ties to even.
- The ledger's codec is a parameter: a record of plain JSON values reads back with its dicts sorted by key
  (`StoredForm.StoredRecord`), which changes neither its canonical text nor its digest (`LinkBinding.StoredDigest`).
- A record is apt for a file if it is the genesis of the run where no line is committed, and no genesis otherwise.
- Signatures, WebAuthn assertions, access rules and confinement are parameters: each model takes what the check outside
  would answer.

## Where the code does less than its text says

Each of these is a proved statement about the code as it is, with the exact condition under which the promise holds.

- `translog.verify_inclusion` does not look at the length of the path (`Merkle.ParentPassesAsLeaf`).
- An odd window and the same window with its last leaf repeated share a Merkle root (`Merkle.OddWindowShared`), and the
  head of a chain forgets everything before its last record (`Chain.HeadForgetsHistory`).
- The canonical text of an int and that of a float may be equal though the numbers differ, and differ though they are
  equal, from 2^53 on: the float is written by its shortest digits. `CanonicalNumbers.UnambiguousIff` is the exact
  condition for each int, every int up to 2^53 meets it, and 2^60 fails it both ways (`CanonicalNumbers.TwoTo60`).
- A chain whose first record is not the genesis of the run is rejected (`DurableLedger.FirstAccepted`). The store decides
  by the size of the file whether to write one, which is right exactly if the file is empty or has a committed line
  (`DurableRuns.SizeCheckIff`): a genesis torn by a crash leaves a headless chain (`DurableRuns.TornGenesis`).
- A record with a NaN or an infinity inside has no digest (`LinkBinding.DigestExists`), though `json.dumps` writes it.
- The structural check does not report targets that are not listed as states (`Blueprint.CleanMeansDeadlockFree`).
- Trimming never moves the FMV index; where the capped volume is one unit, or two single units, it zeroes it
  (`Fmv.TrimInvisible`).
- The cap keeps one controller from setting the index only while it trades less than h times what the h others trade
  together; from there on a price below theirs is the index (`FmvMajority.OneAgainstAll`).
- `escrow_for` cuts the key to 32 characters and the sweep works from the balances it read at the start, so two due keys
  with one cut are both refunded the shared balance (`ExpiryProofs.SweepIsExact`).
- No operation checks the sign of what is put in: a funding or a bond overdraws an account exactly if the balance plus
  the amount is negative (`SettlementRuns.DepositIff`), and a settlement exactly if the hold account cannot take its part
  (`SettlementRuns.SettlementIff`), which a payee share from zero rules out (`SettlementRuns.PayeeShareSuffices`).
  `SettlementRuns.StepKeepsIff` puts these conditions together for every operation.
- `settle` takes the quoted amount, not the balance, so an overfunded escrow keeps the excess
  (`SettlementRuns.SettlementDrains`).
- A cooperative run can record a step twice in some continuation exactly if there are two sessions and the gate can let
  a step of it pass at all (`StepTwice.RecordsTwiceIff`).
- A step whose failure is recorded is neither claimed nor accepted again, so a delegated run ends with it
  (`StepProgress.FailureEndsTheRun`). In either mode `StepProgress.CanFinishIff` says exactly when a run can still be
  finished.
- A step is told apart by its text, so "1" and "01" are two steps to the store and one to the gate. Each number is recorded
  once while every claimed id is the plain one of its number (`StepTwice.OncePerNumber`), and otherwise twice
  (`StepTwice.AliasRecordsTwice`).
- A refusal by the limb leaves the grant usable, but a token proof that its access check had accepted is spent
  (`Exod.RetryAfterEarlyRefusal`), and a recorded refusal blocks the result of the later use
  (`Exod.RecordedRefusalBlocksResult`).

## Model

| member | source | states |
|---|---|---|
| LedgerFile.TailRecord | infra/cwp/ledger.py:92-116 | The backward read with a window that starts at 64 KiB and grows fourfold ends for every file, and returns the tip and clean end that a scan of the whole file finds; or raises where the last line does not parse. |
| LedgerFile.TailMeans | infra/cwp/ledger.py:107-116 | A last line of white space only is no tip; any other is the tip it parses to, or an exception. |
| LedgerFile.WindowShows | infra/cwp/ledger.py:107-116 | Once a window holds the last newline and the one before it, or reaches the start of the file, the line it shows is the last line of the whole file. |
| LedgerFile.File.WriteAll | infra/cwp/ledger.py:81-89 | However short each write is, all of the line goes out, in order. |
| LedgerFile.File.HealAndAppend | infra/cwp/ledger.py:160-167 | The file becomes its clean part followed by the line. |
| LedgerFile.File.DurableAppend | infra/cwp/ledger.py:184-203 | A call drops the torn tail and adds the linked record, or raises and leaves the file untouched. |
| LedgerFile.LinesAppend | infra/cwp/ledger.py:160-167 | Appending a terminated line to a clean file adds that line and no other, whatever torn bytes follow. |
| LedgerFile.LinkMeans | infra/cwp/ledger.py:196-198 | What is linked, by the kind of the tip: seq 0 and the zero digest where there is none to speak of; behind a dict its digest and one more than its seq; an exception behind anything else. |
| DurableRuns.EveryRunIsSafe | infra/cwp/ledger.py:160-203 | From a genesis file, under any interleaving of any number of lock-holding writers that bring no second genesis, with short writes, a death between any two steps and power losses: the terminated lines form a chain the full verification accepts with seqs from 0, every acknowledged record survives in order as the file gives it back, and one process at most is in the critical section. |
| DurableRuns.EveryFreshRunIsSafe | infra/cwp/ledger.py:160-203 | The same from an empty file, for runs in which each record is apt for the file it is linked to: the committed lines, once there are any, are an accepted chain, and nothing acknowledged is lost. |
| DurableLedger.FirstAccepted | infra/cwp/ledger.py:193-197 | A file that begins with a record is accepted exactly if the record is a genesis that binds its origin, the run and the plan. |
| DurableLedger.LinkedLineOk | infra/cwp/ledger.py:190-198 | On a sound file a storable record can always be linked, and the file with its line is sound exactly if the record is apt. |
| DurableRuns.SizeCheckIff | infra/store/chainstore.py:58-72 | Looking at the file size picks the right first record exactly if the file is empty or holds a committed line. |
| DurableRuns.TornGenesis | infra/store/chainstore.py:58-72 | The run between: a genesis torn by a crash is no empty file, so a record follows at once, the healer drops the torn genesis, and the acknowledged chain is not accepted. |
| LinkBinding.StoredText | infra/cwp/ledger.py:197 | Reading a value back from the ledger file, its dicts sorted by key, does not change its canonical text. |
| LinkBinding.StoredDigest | infra/cwp/ledger.py:193-199 | So the digest of an acknowledged record is the digest of what the file gives back. |
| CodecExists.FaithfulCodecExists | infra/cwp/ledger.py:197 | What is asked of the codec can be met: records that differ only in the order of nested dicts may share a text. |
| DurableLedger.StepKeeps | infra/cwp/ledger.py:160-203 | Each single step of the protocol with an apt record (the genesis of the run where no line is committed, no genesis later) keeps the invariant behind the runs. |
| DurableLedger.HealedFile | infra/cwp/ledger.py:160-164 | Healing loses no committed line and nothing that was synced. |
| DurableRuns.CallAddsOneRecord | infra/cwp/ledger.py:184-203 | On a sound file one call adds exactly its own record to the committed ones, and the file is accepted afterwards exactly if the record was apt for it. |
| DurableRuns.UninterruptedCall | infra/cwp/ledger.py:184-203 | The step protocol, run without interruption, does to the file what the method DurableAppend does. |
| LedgerReader.ParseJsonl | infra/cwp/ledger.py:62-78 | The reader loop: every entry up to a piece that does not parse; a torn last piece is reported, with the last seq read and its index, if that is allowed and is an error otherwise. |
| LedgerReader.ReaderSeesCommitted | infra/cwp/ledger.py:62-78 | Of every file the protocol keeps, a tolerant reader sees exactly the committed records, and behind them nothing, a report of a torn tail, or the one entry whose newline alone is missing. |
| LedgerReader.ReportOfTorn | infra/cwp/ledger.py:62-78 | The report on a torn tail names the seq of the last committed record and the number of them. |
| LedgerReader.StrictReaderSees | infra/cwp/ledger.py:62-78 | A reader that allows no torn tail sees the same, except that it raises where the tail does not parse. |
| LedgerReader.CorruptionRaises | infra/cwp/ledger.py:62-78 | A line that does not parse and is not the last raises for every reader. |
| LedgerReader.UnterminatedIsReadThenDropped | infra/cwp/ledger.py:62-78 | A record that lacks only its newline is shown by the reader and dropped by the next append. |
| Chain.VerifyChain | infra/cwp/chainverify.py:55-108 | Accepts exactly the chains that begin with the genesis of GenesisMeans and go on as FollowsMeans says; otherwise it names the first record that does not follow and which demand it misses. |
| Chain.CheckGenesis | infra/cwp/chainverify.py:70-82 | Finds nothing exactly for the genesis that GenesisMeans spells out, and each kind of problem exactly where its field is wrong. |
| Chain.CheckRecords | infra/cwp/chainverify.py:83-107 | The loop over the records names the first that does not follow the one before it, or none if all do. |
| Chain.GenesisMeans | infra/cwp/chainverify.py:70-82 | Field by field: a dict of type genesis with 64 zeros as prev, that has run_id and plan_sha, or supersedes_head, or supersedes, none of them null, false, zero or empty; and the expected run and plan. |
| Chain.FollowsMeans | infra/cwp/chainverify.py:83-105 | Field by field: a later entry is no genesis, its prev is the hexadecimal digest of the entry before without its prev and not the zero one, and its seq is an integer, one more than an integer seq before. |
| Chain.OneEntryChain | infra/cwp/chainverify.py:55-108 | One entry alone is accepted, for no expectation, exactly if it is such a genesis. |
| Chain.MigrationGenesis | infra/cwp/chainverify.py:70-77 | A genesis that names only the head it supersedes is a chain. |
| Chain.HeadOf | infra/cwp/chainverify.py:42-47 | The head is the digest of the last link, or the zero digest of an empty chain. |
| Chain.Ledger.Append | infra/cwp/ledger.py:44-55 | A record is linked onto the last entry, or the call raises and nothing changes. |
| Chain.NextSeq | infra/cwp/ledger.py:49 | The next seq is one more than an integer seq, a bool counting as 0 or 1, and the length of the chain where the last entry has none. |
| Chain.GenesisAccepted | infra/cwp/ledger.py:37-41 | What genesis() writes is accepted as a chain of its own for that run and plan. |
| Chain.AppendAccepted | infra/cwp/ledger.py:44-55 | An accepted chain extended by append stays accepted exactly when the record is no genesis and the digest of the tip is not the all-zero root. |
| Chain.PrevFixesPredecessor | infra/cwp/chainverify.py:92-95 | Equal back-pointers mean equal content of the record before, or two links collide. |
| Chain.HeadForgetsHistory | infra/cwp/chainverify.py:18-20 | The link drops prev, so chains of two different runs that end in one record are both accepted and share their head. |
| Merkle.MerkleRoot | infra/cwp/checkpoint.py:25-38 | The loop over levels computes the recursive root; an odd last node is paired with itself. |
| Merkle.BuildLevel | infra/cwp/checkpoint.py:31-37 | One level up: each pair hashed, the odd last node hashed with itself. |
| Merkle.RootBinds | infra/cwp/checkpoint.py:25-38 | Two windows of one length with one root are equal, or two different strings hashed in the two trees collide. |
| Merkle.RootSplits | infra/cwp/checkpoint.py:25-38 | The order of the children: the root over a full left half of 2^k leaves and a rest of at most as many is the hash of the left root followed by the right one, the latter hashed with itself up to the same height. |
| Merkle.OddWindowShared | infra/cwp/checkpoint.py:25-38 | The length must be recorded beside the root: an odd window and the same window with its last leaf repeated have one root. |
| Checkpoint.BuildCheckpointedChain | infra/cwp/checkpoint.py:58-68 | The loop builds exactly the specified chain of n numbered records, with a checkpoint after every interval. |
| CheckpointProofs.BuiltChainVerifies | infra/cwp/checkpoint.py:58-99 | For every n and every interval but zero the built chain passes the audit, and the cold check with a tail of exactly n mod interval; it passes the full verification exactly when no link but the last digests to the all-zero root. |
| CheckpointLayout.BuiltChainIs | infra/cwp/checkpoint.py:49-68 | The built chain entry by entry, for every n and every interval but zero: the genesis, then rounds of data entries, each with exactly its number, text, seq and back-pointer, and after each round a checkpoint with exactly the bounds, the count and the root of the entries of that round. |
| Checkpoint.ColdVerify | infra/cwp/checkpoint.py:71-83 | True exactly when every record behind the last checkpoint links back; the number returned counts the records that do, up to the first that does not. |
| Checkpoint.ColdAgreesWithFullPass | infra/cwp/checkpoint.py:71-83 | A chain passes the full verification exactly when the part up to its last checkpoint does, the tail records are shaped as the full pass demands, and the cold check passes. |
| Checkpoint.CollectWindow | infra/cwp/checkpoint.py:94 | The window of a checkpoint: the records of its seqs that are no checkpoints, in order. |
| Checkpoint.AuditCheckpoints | infra/cwp/checkpoint.py:86-99 | Clean exactly when every checkpoint states the root of its window; else the first that does not. |
| CheckpointWindows.AuditMeans | infra/cwp/checkpoint.py:86-99 | Whatever the entries, also with seqs repeated or out of order: clean exactly if every checkpoint has integer bounds and states the root over the entries that are the last of their seq inside the bounds and no checkpoints, in ascending order. |
| CheckpointBinding.CheckpointBindsEntry | infra/cwp/checkpoint.py:86-99 | In two accepted and audited chains one shared checkpoint fixes every entry of its window, or links or tree nodes collide. |
| CheckpointBinding.SameCheckpointsSameContent | infra/cwp/checkpoint.py:86-99 | Accepted and audited chains with the same checkpoints at the same positions agree on all windowed content, or a collision is exhibited. |
| LinkBinding.LinkDigestBinds | infra/cwp/chainverify.py:28-30 | Under the major-2 digest, two links with one digest are written alike, and have equal content where their ints are unambiguous; or their canonical bytes collide. |
| LinkBinding.LinkTextIsUnique | infra/cwp/chainverify.py:28-30 | The canonical bytes of a link do not depend on the order in which its dict was built. |
| LinkBinding.DigestExists | infra/cwp/chainverify.py:28-30 | A link has a digest exactly if no NaN and no infinity is inside. |
| Merkle.InclusionProof | infra/cwp/translog.py:33-53 | The loop emits the sibling of every level below the root, or raises for an index outside the log. |
| Merkle.VerifyInclusion | infra/cwp/translog.py:56-72 | True exactly when the index is in the tree and the leaf climbs along the path to the root. |
| Merkle.InclusionComplete | infra/cwp/translog.py:33-72 | For every log and every index the emitted path is accepted against the Merkle root. |
| Merkle.InclusionSound | infra/cwp/translog.py:56-72 | An accepted full-height path of 32-byte hashes with a 32-byte leaf has the leaf that stands at that index, or two different strings that were really hashed collide; odd levels included. |
| Merkle.ParentPassesAsLeaf | infra/cwp/translog.py:56-72 | Path length is not checked: in every log of two leaves or more a parent node passes as a leaf at half the index with the rest of the path, which is why soundness asks for full height. |
| Canonical.Escape | infra/cwp/canonical.py:23-48 | The loop over characters writes the quoted text that EscapeForm spells out and EscapeIsShortest distinguishes from every other. |
| ReadBack.EscapeIsShortest | infra/cwp/canonical.py:23-48 | Of all literals that a strict reader of JSON reads as a string, the text written is the shortest. |
| ReadBack.EscapeForm | infra/cwp/canonical.py:23-48 | Every character that is no quote, no backslash and not below 0x20 stands for itself, the seven short forms stand for exactly their characters, and any other control is u00 with two lower-case hexadecimal digits. |
| ReadBack.EscapeConcat | infra/cwp/canonical.py:23-48 | The text of a string is that of its characters, one after the other. |
| Canonical.SortAscends | infra/cwp/canonical.py:95 | Members come out in strictly ascending order of their UTF-16 code units. |
| Encoding.KeyLessTotal | infra/cwp/canonical.py:95 | The order by UTF-16 code units decides between any two different keys. |
| Encoding.KeyOrder | infra/cwp/canonical.py:95 | The first character in which two keys differ decides, by its UTF-16 code units, and a key comes before its extensions. |
| LinkBinding.WrittenAscending | infra/cwp/canonical.py:91-96 | A dict is written with its members in ascending order of their keys. |
| Encoding.Utf8Form | infra/cwp/canonical.py:100-105 | The bytes of each character are those of RFC 3629, in the shortest form. |
| Encoding.Utf16Form | infra/cwp/canonical.py:95 | The code units of each character are those of RFC 2781. |
| Encoding.HexByteForm | infra/cwp/canonical.py:104-105 | Two lower-case digits for each byte, the high half first. |
| Canonical.CanonicalizeIff | infra/cwp/canonical.py:51-97 | The recursive printer raises exactly on values with a NaN or an infinity somewhere inside, and else returns the text that the other rows speak of. |
| ReadBack.ReadEs6Number | infra/cwp/canonical.py:51-73 | Each of the four number layouts reads back to digits times 10 to the exponent, whatever follows it. |
| CanonicalNumbers.NumberForm | infra/cwp/canonical.py:51-73 | An exponent is written exactly below 10^-6 and from 10^21 on, with one digit before the point, and no digit is one too many. |
| ReadBack.ReadEscaped | infra/cwp/canonical.py:23-48 | An escaped string reads back to the string. |
| ReadBack.ReadText | infra/cwp/canonical.py:76-97 | The text of every value, whatever may follow it, reads back as that value and that rest. |
| ReadBack.CanonicalReadsBack | infra/cwp/canonical.py:76-97 | Canonical text parses back to the value it was made from, floats by the number their digits denote. |
| ReadBack.TextDeterminesReading | infra/cwp/canonical.py:76-97 | Equal text says the same, whatever the numbers. |
| CanonicalForm.TextDeterminesValue | infra/cwp/canonical.py:76-97 | Equal text implies equal value, floats by their exact binary value and objects without member order, where every int is unambiguous. |
| CanonicalForm.ValueDeterminesText | infra/cwp/canonical.py:76-97 | Equal value implies equal text on those values. |
| CanonicalForm.CanonicalIff | infra/cwp/canonical.py:76-97 | Text and value determine each other on those values. |
| CanonicalNumbers.IntFloatAgree | infra/cwp/canonical.py:85-88 | An int and the float equal to it are written alike exactly if the shortest digits of the float denote the int and it is below 10 to the 21st. |
| CanonicalNumbers.UnambiguousIff | infra/cwp/canonical.py:85-88 | Exact for each int: it shares its text with exactly the floats equal to it, if and only if the float nearest to it is equal to it exactly when it is written like it. |
| CanonicalNumbers.SafeIntsAreUnambiguous | infra/cwp/canonical.py:85-88 | Every int up to 2 to the 53rd in magnitude is unambiguous. |
| CanonicalNumbers.TwoTo60 | infra/cwp/canonical.py:85-88 | At 2 to the 60th both directions fail: the int and the float are equal and written differently, and the float shares its text with another int. |
| Binary64.SafeInteger | infra/cwp/canonical.py:59-62 | Up to 2 to the 53rd the shortest digits of an integer float denote exactly that integer. |
| Binary64.Digits60 | infra/cwp/canonical.py:59-62 | The shortest digits of 2 to the 60th are sixteen and denote 1152921504606847000. |
| Binary64.ReprInjective | infra/cwp/canonical.py:59-62 | Different floats are written with digits that denote different numbers. |
| LinkBinding.InsertionOrderNeverShows | infra/cwp/canonical.py:91-96 | For dicts of any printable values, the order in which members were inserted never shows in the text. |
| CanonicalForm.DigestBinds | infra/cwp/canonical.py:100-105 | Equal digests mean values that are written alike, and equal values where the ints are unambiguous, or the two canonical byte strings collide. |
| Encoding.HexInjective | infra/cwp/canonical.py:104-105 | The hexadecimal digest determines the digest. |
| Graph.ReachableStates | infra/cwp/workflow.py:272-284 | The worklist returns exactly the pcs that a path of transitions reaches from the entry. |
| Workflow.EdgesReachWhatRunsVisit | infra/cwp/workflow.py:272-284 | Flags guard nothing: the edge search finds exactly the pcs that runs of the emitted specification visit. |
| Workflow.AssignBoth | infra/cwp/tla_emit.py:37-47 | A name-spaced update reaches the flags of its own side and leaves the other side alone. |
| Compose.Compose | infra/cwp/workflow.py:299-327 | par returns the product and seq the concatenation, as IsPar and IsSeq describe them; any other operator, or an empty list where a terminal is needed, raises. |
| ComposeSpelled.ParSpelled | infra/cwp/workflow.py:287-326 | The product letter by letter: its pcs, entry, terminal, moves and flags in the names of the two operands, prefixed a_ and b_ and joined by a bar. |
| ComposeSpelled.SeqSpelled | infra/cwp/workflow.py:287-310 | The sequence letter by letter: the states and moves of both sides and the one move from the terminal of the first to the entry of the second. |
| Compose.ProductMoves | infra/cwp/workflow.py:313-321 | The four nested loops collect exactly the moves of one side beside a listed state of the other. |
| Compose.TerminalLast | infra/cwp/workflow.py:322-324 | The joint terminal stands last, and nowhere else. |
| ComposeProofs.ParProjects | infra/cwp/workflow.py:311-327 | Every run of the product, pc and flags, is a run of each side, with at most one side moving in a step; left names hold no separator. |
| ComposeProofs.ParRuns | infra/cwp/workflow.py:311-327 | With endpoints listed, the runs of the product are exactly those interleavings. |
| ComposeProofs.ParReaches | infra/cwp/workflow.py:311-327 | The product reaches exactly the pairs of pcs its sides reach. |
| ComposeProofs.ParReachableCount | infra/cwp/workflow.py:272-327 | What the worklist returns on the product is the product of what it returns on the sides, and so is its size. |
| ComposeProofs.SeqRuns | infra/cwp/workflow.py:305-310 | The runs of the sequence are exactly a run of the first, then, if that ended at its terminal, perhaps a run of the second; the flags of the idle side stand still. |
| ComposeProofs.SeqReaches | infra/cwp/workflow.py:305-310 | The second workflow is reached exactly when the first can reach its terminal. |
| Blueprint.Adjacency | infra/govern/composer.py:22-26 | The table maps each pc with outgoing transitions to its targets in order. |
| Graph.Visit | infra/govern/composer.py:35-41 | The depth-first search returns exactly the reachable pcs. |
| Blueprint.Structural | infra/govern/composer.py:29-47 | Each kind of issue is reported for exactly the states it is true of; an empty report means none is. |
| Blueprint.EmitNext | infra/govern/composer.py:50-57 | The emitted disjuncts: self-loops of listed terminals and transitions of listed states. |
| Blueprint.CleanMeansDeadlockFree | infra/govern/composer.py:29-63 | With a clean report, the emitted relation is free of deadlock exactly when the entry and every target of a listed state are listed. |
| Blueprint.CleanYetDeadlocked | infra/govern/composer.py:29-63 | A blueprint with a clean report whose emitted relation deadlocks: a target that is not listed. |
| Fmv.VwMedian | infra/settle/fmv.py:27-39 | The price at which the cumulative volume reaches half: less than half lies below it and at least half up to it; zero without volume. |
| Fmv.IndexUnique | infra/settle/fmv.py:27-39 | There is only one such price. |
| Fmv.Trim | infra/settle/fmv.py:59-77 | The loop keeps of each lot the whole units between a tenth and nine tenths of the volume, and everything if that leaves nothing. |
| Fmv.TrimClamps | infra/settle/fmv.py:59-77 | Where no lot spans both cuts, trimming clamps the cumulative volume at every price. |
| Fmv.TrimInvisible | infra/settle/fmv.py:59-77 | Trimming never moves the median of a market with three units or a lot of two, and zeroes the index of any other: int() leaves nothing to weigh. |
| FmvIndex.CollapseControls | infra/settle/fmv.py:42-56 | One lot per controller: its own median price, and its volume up to the mean of what all controllers traded, as CapIsMean says without naming the cap. |
| FmvMajority.CapIsMean | infra/settle/fmv.py:47-55 | No lot is more than the total divided by the number of controllers, a lot below the volume of its controller is exactly that rounded down, and where it is below one a lot is at most one. |
| FmvIndex.IsMultimodal | infra/settle/fmv.py:83-102 | True exactly when a gap without volume, between a quarter and three quarters of the volume, is at least half as wide as the price range. |
| FmvMajority.MultimodalMeans | infra/settle/fmv.py:83-102 | Lot by lot: two lots with no volume priced between them, a quarter to three quarters of the volume up to the lower, and at least half as far apart as any two lots. |
| FmvIndex.PublishIndex | infra/settle/fmv.py:105-118 | The published fields: trimmed median of the capped lots, counts, multimodality, admission from 20 trades and 8 controllers, and reason. OneAgainstAll says what the capping is worth. |
| FmvIndex.HonestMajorityBounds | infra/settle/fmv.py:27-118 | Whatever the others trade at: if honest controllers hold more than half of the capped volume, the index lies between the lowest and highest honest price, except in the markets TrimInvisible names, where it is zero. |
| FmvMajority.OneAgainstAll | infra/settle/fmv.py:42-118 | Over raw trades: with h others, two or more, and every trade of a unit or more, the index stays between their lowest and highest price whatever one controller asks, exactly while it trades less than h times what they all trade together; from there on a lower price of its own is the index. |
| Split.Split | infra/settle/money.py:100-118 | Raises for no, negative or all-zero weights; else the parts add up to the total, each is the floor of its exact quota or one more, and the extra units go to the largest remainders, ties by index. |
| Split.RefusedMeans | infra/settle/money.py:103-108 | Refused is exactly a list with a negative weight or with nothing but zeros, the empty list among them. |
| Split.SplitMeans | infra/settle/money.py:109-118 | In numbers: parts that add up to the units, each the exact share rounded down or one more, the one more going to the larger fractions cut off, and among equal ones to the smaller index. |
| Split.EqualWeights | infra/settle/money.py:113-117 | Equal weights get equal parts but for one unit, which goes to the earlier. |
| Split.SplitUnique | infra/settle/money.py:100-118 | These conditions determine the split. |
| Split.WholeQuotaIsExact | infra/settle/money.py:100-118 | A share whose quota is a whole number is exactly its quota. |
| Split.ZeroWeightGetsNothing | infra/settle/money.py:100-118 | A zero weight gets exactly zero. |
| Split.LargerWeightNeverLess | infra/settle/money.py:100-118 | A strictly larger weight never gets less of a total that is not negative, nor more of one that is. |
| Split.LeftoverIsSmall | infra/settle/money.py:110-117 | Flooring leaves fewer units over than there are shares, so no share gets two. |
| RewardLedger.IsBalanced | infra/settle/reward_ledger.py:38-44 | True exactly when the amounts sum to zero in every currency. |
| RewardLedger.RewardLedger.Post | infra/settle/reward_ledger.py:52-57 | A balanced set is appended; anything else is refused and writes nothing. |
| RewardLedger.RewardLedger.FoldBalances | infra/settle/reward_ledger.py:78-87 | The fold gives each account its balance in each currency. |
| RewardLedger.GlobalZero | infra/settle/reward_ledger.py:90-95 | While every posting set balances, all accounts together hold zero in every currency. |
| Accounts.NameInjective | infra/settle/reward_ledger.py:27-30 | Escrow, hold and bond accounts and outside parties never share a name. |
| Accounts.SharedAccounts | infra/settle/reward_ledger.py:27-30 | Two keys share an escrow account exactly if they agree on their first 32 characters; hold and bond accounts look at 16. |
| Accounts.MemoRoundTrip | infra/settle/escrow_expiry.py:26-51 | What the sweep reads from a memo is what was written, for keys free of the two marks and funders free of the second. |
| Accounts.MemoReads | infra/settle/escrow_expiry.py:13-51 | Which texts count as the settlement or the refund of a key, and which as a funding. |
| Settlement.FundQuote | infra/settle/quote.py:67-74 | Moves the amount from the funder into the quote's own escrow account. |
| Settlement.Settle | infra/settle/engine.py:53-88 | Writes exactly one posting set exactly when the receipt is dual-signed and passes, the quote verifies, is bound, unsettled and funded, and weights and breakdown fit, all spelled out in the contract; refusals in the order of the source; nothing written otherwise. SettlementPays says who is paid. |
| Settlement.SettleBalances | infra/settle/engine.py:74-86 | The posting set balances exactly when fee, kept and held parts make up the amount. |
| SettlementMoves.SettlementPays | infra/settle/engine.py:74-88 | The balance of every account in every currency: escrow down by the amount, fee up by its share, payee up by its share less the held part, hold up by the held part, which is the first part of the exact split; all else unchanged. |
| Settlement.LastShareIs | infra/settle/engine.py:74-80 | The share of a name is the amount of its last line in the breakdown, and zero without one. |
| SettlementMoves.ReleaseMoves | infra/settle/engine.py:91-98 | All that is held leaves the hold account for the payee; no other balance changes. |
| SettlementMoves.FundingMoves | infra/settle/quote.py:67-74 | The amount leaves the funder for the escrow of the quote; no other balance changes. |
| SettlementRuns.SettlementDrains | infra/settle/engine.py:81-86 | Settlement takes the quoted amount: the escrow is empty afterwards exactly when it was not overfunded. |
| Disputes.ReleaseHoldback | infra/settle/engine.py:91-98 | All that the hold account holds goes to the payee. |
| Settlement.SettleIntelligence | infra/settle/intelligence.py:67-117 | Refused when settled before or underfunded; else the whole escrow is paid out in one balanced set, by the verdict of the schema; an exception for bad weights or a negative work leg. |
| SettlementMoves.IntelPays | infra/settle/intelligence.py:82-117 | The balance of every account: the pass-through leg goes to the provider, the fee leg to the fee account, the work leg to the payee on a pass and else by its exact split to initiator and fee account, and what was funded beyond the legs to the initiator; the escrow is empty; other currencies stay. |
| SettlementRuns.IntelKeeps | infra/settle/intelligence.py:67-117 | The gate leaves the escrow at zero and keeps the invariant. |
| Disputes.OpenDispute | infra/settle/disputes.py:27-31 | The bond moves from the disputer to the bond account. |
| Disputes.CountApprovals | infra/settle/disputes.py:34-51 | The number of registered keys with a verifying approval, whatever the order, repetition or aliases. |
| Disputes.VotersAre | infra/settle/disputes.py:34-51 | A key counts exactly if some approval names an arbiter registered under it and verifies against it. |
| Disputes.QuorumNeedsKeys | infra/settle/disputes.py:34-51 | Whoever can sign under n registered keys raises at most n votes. |
| Disputes.Resolve | infra/settle/disputes.py:54-84 | Posts and lowers a rating exactly when a quorum of at least two stands behind a valid outcome; upheld, holdback and bond go to the disputer, rejected, the bond to the payee. |
| SettlementMoves.ResolutionPays | infra/settle/disputes.py:65-84 | The balance of every account: upheld, hold and bond go to the disputer; rejected, the bond goes to the payee and the hold stays; nothing else moves. |
| SettlementMoves.DisputeMoves | infra/settle/disputes.py:27-31 | The bond leaves the disputer for the bond account of the quote; no other balance changes. |
| Expiry.FundWithExpiry | infra/settle/escrow_expiry.py:18-23 | Moves the amount into the escrow of the key, with expiry and funder in the memo. |
| SettlementMoves.FundingWithExpiryMoves | infra/settle/escrow_expiry.py:18-23 | The amount leaves the funder for the escrow of the key, no other balance changes, and the key is funded by that funder until that time. |
| Expiry.Fundings | infra/settle/escrow_expiry.py:26-38 | The last funding of each key. |
| Expiry.SettledOrRefunded | infra/settle/escrow_expiry.py:41-51 | The keys with a settlement or refund record. |
| Expiry.SweepExpired | infra/settle/escrow_expiry.py:54-69 | Refunds exactly the due keys, in ascending order, from the balances before the sweep. |
| Expiry.StaleEscrowKeys | infra/settle/escrow_expiry.py:72-82 | Exactly the keys whose escrow holds value past the bound. |
| ExpiryProofs.DueMeans | infra/settle/escrow_expiry.py:54-69 | Record by record: due is a key whose last funding has run out, that no record settles or refunds, and whose escrow holds dollars. |
| ExpiryProofs.StaleMeans | infra/settle/escrow_expiry.py:72-82 | Stale is such a key once the bound has passed as well. |
| Expiry.LessMeans | infra/settle/escrow_expiry.py:60 | Keys are sorted by the first character in which they differ, a prefix first. |
| ExpiryProofs.SweepLeavesNothingStale | infra/settle/escrow_expiry.py:54-82 | After a sweep no key is stale, for any bound from zero. |
| ExpiryProofs.SecondSweepIsIdle | infra/settle/escrow_expiry.py:54-69 | A second sweep at the same time does nothing. |
| ExpiryProofs.SweepMoves | infra/settle/escrow_expiry.py:54-69 | What a sweep does to every account: escrows lose what is drawn, funders gain what they are owed, other currencies stay. |
| ExpiryProofs.SweepIsExact | infra/settle/escrow_expiry.py:54-69 | Every refunded escrow is emptied, and none goes negative, exactly when no two keys that are due before the call share the first 32 characters that name the account. |
| ExpiryProofs.SweepTouchesNoOther | infra/settle/escrow_expiry.py:54-69 | Every account but refunded escrows and their funders keeps its balance. |
| ExpiryProofs.SharedEscrowIsRefundedTwice | infra/settle/reward_ledger.py:27-30 | A concrete ledger: two due keys with one 32-character cut, and the shared balance is refunded twice. |
| SettlementRuns.StepKeepsIff | infra/settle/engine.py:53-98 | Each operation keeps every set balanced, no escrow, hold or bond below zero and one settlement record of each kind, exactly if the balances before allow it. |
| SettlementRuns.EveryRunIsSound | infra/settle/engine.py:53-98 | The same along every interleaving of funding, settle, the intelligence gate, sweep, dispute, resolution and release. |
| SettlementRuns.DepositIff | infra/settle/quote.py:67-74 | Funding, or a bond, overdraws no account exactly if the balance it goes to plus the amount is not negative. |
| SettlementRuns.SettlementIff | infra/settle/engine.py:74-86 | A settlement overdraws nothing exactly if the hold account can take the held part. |
| SettlementRuns.PayeeShareSuffices | infra/settle/engine.py:74-86 | It can whenever the share of the payee is not negative. |
| SettlementRuns.SweepIff | infra/settle/escrow_expiry.py:54-69 | A sweep overdraws nothing exactly if no two due keys share an escrow account. |
| SettlementRuns.RunsConserve | infra/settle/reward_ledger.py:90-95 | In every run all accounts together hold zero in every currency. |
| StepStore.Store.Append | infra/govern/govd.py:596-609 | The event is appended to a resident run; an evicted run is left alone. |
| StepStore.Store.Create | infra/govern/govd.py:571-581 | The run is stored, and the oldest leave until the cap is met. |
| StepStore.EvictedKeepsYoungest | infra/govern/govd.py:574-575 | Eviction keeps the youngest runs, each as it was. |
| StepStore.Store.StepsRanOk | infra/govern/govd.py:611-615 | The ids with an ok result. |
| StepStore.Store.StepsSeen | infra/govern/govd.py:617-623 | The granted ids and the recorded ids. |
| StepStore.Store.ClaimStep | infra/govern/govd.py:625-640 | Succeeds exactly for a resident run whose step has no terminal result and is not in flight, and reserves it. |
| StepStore.Store.ReleaseStep | infra/govern/govd.py:642-651 | Drops the reservation and no other. |
| StepStore.Store.AuthorizeStep | infra/govern/govd.py:747-767 | None exactly if the run is resident, decided allow and pinned to the given plan hash, the id is decimal and between 1 and the number of steps, and every earlier step has an ok result, all spelled out in the contract; else the refusal that comes first. |
| StepStore.GateOpens | infra/govern/govd.py:747-767 | The same of the specification, without the gate in it. |
| StepStore.Store.ResultAcceptable | infra/govern/govd.py:802-816 | Accepts a result exactly under the pinned plan, after a grant of that step, and once. |
| StepProofs.StepKeeps | infra/govern/govd.py:1417-1539 | Each action of each session keeps the invariant of the protocol. |
| StepRuns.EveryRunIsSafe | infra/govern/govd.py:1417-1539 | The invariant holds along every interleaving of any number of sessions, with runs created and evicted between. |
| StepRuns.DelegatedAtMostOnce | infra/govern/govd.py:1446-1503 | In delegated mode at most one execution of a (run, step) is in flight, at most one terminal result is recorded, and none is while the limb is at work. |
| StepRuns.ClaimableWhenFree | infra/govern/govd.py:625-651 | A step can be claimed exactly when it has no terminal result and nobody is at it, so a refused step stays retryable. |
| StepRuns.ResultsFollowUpstream | infra/govern/govd.py:747-767 | In every run a result for a step stands behind an ok result of every earlier step. |
| StepRuns.ResultsFollowGrants | infra/govern/govd.py:802-816 | In cooperative mode it also stands behind a grant of that step id under the pinned plan hash. |
| StepRuns.EventsOnlyGrow | infra/govern/govd.py:596-609 | The events of a resident run are only appended to, and an evicted id does not return. |
| StepRuns.CooperativeOnceWhenSolo | infra/govern/govd.py:1532-1539 | In cooperative mode no step is recorded twice while no two sessions are bound to the run. |
| StepProgress.CanFinishIff | infra/govern/govd.py:1417-1539 | Progress: in every reachable world with an idle session bound to a runnable run, in either mode, some continuation records ok results for all its steps in order exactly if every step ran, or has no result and no failure of the limb on its way, or has an accepted success about to be recorded. |
| StepProgress.UntouchedCanFinish | infra/govern/govd.py:1417-1539 | So a run without a result, and none on its way, can always be finished. |
| StepProgress.FailureEndsTheRun | infra/govern/govd.py:625-640 | The concrete run in which a delegated step failed: it can never be finished. |
| StepTwice.RecordsTwiceIff | infra/govern/govd.py:1532-1539 | In every reachable world some continuation records a step of a cooperative run twice exactly if there are two sessions and the gate can let a step of that run pass at all. |
| StepTwice.TwoSessionsSuffice | infra/govern/govd.py:1532-1539 | Two sessions, whatever they are at, can be brought to record a step of such a run twice. |
| StepTwice.TwiceFromTheStart | infra/govern/govd.py:1532-1539 | The run from the start: created, two hellos, one grant, two checks, two records of step 1. |
| StepTwice.LeadingZeroPassesTheGate | infra/govern/govd.py:758-763 | Steps are told apart by text: with a leading zero the gate sees the same number and the store another step. |
| StepTwice.OncePerNumber | infra/govern/govd.py:625-640 | While every claimed id is the plain one of its number, a delegated run records each step number at most once. |
| StepTwice.AliasRecordsTwice | infra/govern/govd.py:625-640 | Otherwise one session records a clear step, and the same number again under the id with a leading zero. |
| StepTwice.AliasRun | infra/govern/govd.py:625-640 | The run from the start: a delegated run of one step ends with results for 1 and for 01. |
| Exod.NonceCache.Spend | infra/exec/grantverify.py:35-40 | A pair is accepted once. |
| Exod.VerifyGrant | infra/exec/grantverify.py:43-80 | The checks in order; the nonce is spent only when every other check passes. |
| Exod.RefusalNamesFirstDefect | infra/exec/grantverify.py:43-80 | A grant is refused exactly if it is not authentic, inside its window with a minute to spare, and of this run, plan, workspace and command; the refusal names the first of its defects. |
| Exod.Exod.RunStep | infra/exec/exod.py:98-220 | What one request does to the limb's memory and what it answers, check by check. |
| Exod.AnswerMeans | infra/exec/exod.py:98-220 | What the caller is told in any state of the limb: a code exactly if every guard passed and the runner exited with it, and each refusal exactly if its guard is the first that failed. |
| Exod.MemoryMeans | infra/exec/exod.py:130-160 | What the limb remembers: the nonce exactly once the guards before the spend point passed, the token proof exactly once the grant did. |
| Exod.RunnerFiresOnce | infra/exec/exod.py:98-220 | Over any sequence of requests the runner starts at most once per grant nonce. |
| Exod.FiredWasAuthorized | infra/exec/exod.py:98-220 | Over any sequence of requests the log of the runner is exactly the nonces of those requests that passed every guard at their own time, in order. |
| Exod.EarlyRefusalLeavesNoTrace | infra/exec/exod.py:130-160 | A request refused in front of the spend point that burns no token proof can be struck from the history without changing any later answer. |
| Exod.RetryAfterEarlyRefusal | infra/exec/exod.py:130-160 | A mended retry is answered as if the refusal had never been, except that a token proof the access check had accepted is spent, and a strict limb then denies. |
| Exod.Recorder.RecordStepResult | infra/exec/exod.py:353-385 | A report is recorded exactly when it verifies, is of the bound run and plan and its nonce is new; anything else leaves a refusal event. |
| Exod.AcceptedNoncesDistinct | infra/exec/exod.py:353-385 | Over any submissions no nonce is accepted twice. |
| Exod.AcceptedAreOfOneRun | infra/exec/exod.py:353-385 | Submitted for one run and plan, all accepted records are of that run and plan. |
| Exod.RecordedRefusalBlocksResult | infra/exec/exod.py:353-385 | A recorded refusal carries the grant's nonce, so the result of a later use of that grant is not recorded. |
| RateLimit.Bucket.RateOk | infra/govern/principals.py:114-125 | Refill, decide and consume, in place. |
| RateLimit.WindowBound | infra/govern/principals.py:114-125 | Calls allowed in any window of length d number at most burst plus rate times d. |
| RateLimit.SpacedAreNeverThrottled | infra/govern/principals.py:114-125 | Calls at least 1/rate apart are never throttled when burst is at least one. |
| RateLimit.BurstComesBack | infra/govern/principals.py:114-125 | Of the calls made at one moment exactly the first k are admitted with k at most the burst and at most what was left plus the rate times the time since; from a fresh bucket the whole burst. |
| RateLimit.RefillsWhole | infra/govern/principals.py:114-125 | A bucket left alone long enough decides ever after like a fresh one. |
| RateLimit.DeniedCallsLeaveNoTrace | infra/govern/principals.py:114-125 | Striking a denied call from the history changes no other decision. |
| ReplayCache.Verifier.Prune | infra/govern/ed25519_auth.py:89-90 | Drops exactly the expired entries. |
| ReplayCache.Verifier.CheckReplayed | infra/govern/ed25519_auth.py:86-96 | Prunes only when full, refuses when still full or live, and else remembers the nonce. |
| ReplayCache.Verifier.Check | infra/govern/ed25519_auth.py:98-125 | A subject is returned exactly for a well-formed, signed assertion with good times whose nonce is new; only then is the nonce spent. |
| ReplayCache.AcceptsExactly | infra/govern/ed25519_auth.py:86-125 | With a clock that does not go back, acceptance is exactly that of an unbounded record of its own accepted nonces with fewer than the cap live, and the cache never exceeds the cap. |
| ReplayCache.AcceptsByHistory | infra/govern/ed25519_auth.py:86-125 | The same with no cache or record in it: a call is accepted exactly if it is timely, no earlier accepted call still holds its nonce, and fewer than the cap are held. |
| ReplayCache.RecordExpires | infra/govern/ed25519_auth.py:86-125 | After skew plus the longest lifetime without an acceptance nothing is live, so a full cache frees itself. |
| WebSocket.Stream.ReadExact | infra/govern/govd.py:821-828 | However the reads are cut, the result is the first n bytes, or nothing at the end. |
| WebSocket.Stream.ServerReceive | infra/govern/govd.py:831-864 | The server reads one frame as ServerReads specifies; malformed, unmasked, oversized and cut frames read as a close. |
| WebSocket.Unmask | infra/govern/govd.py:861-863 | The buffer is unmasked in place. |
| WebSocket.ServerSend | infra/govern/govd.py:867-879 | The bytes of an unmasked frame with the shortest length encoding. |
| WebSocket.ClientSend | infra/govern/govd_client.py:167-179 | The bytes of a masked frame. |
| WebSocketProofs.ClientFrameIs | infra/govern/govd_client.py:167-179 | Byte by byte: 128 plus the opcode, the mask bit, the length in its shortest form with the highest byte first, the mask, and the payload with each bit flipped where the mask byte in turn has it set. |
| WebSocketProofs.ServerFrameIs | infra/govern/govd.py:867-879 | Byte by byte: 128 plus the opcode, no mask bit, the length in its shortest form, the payload itself. |
| WebSocket.Stream.ClientReceive | infra/govern/govd_client.py:182-193 | The client reads one frame as ClientReads specifies, up to the decoding of the text. |
| WebSocketProofs.LengthReads | infra/govern/govd.py:831-849 | All three length encodings of section 5.2 of RFC 6455 read back to the length. |
| WebSocketProofs.ClientFrameReads | infra/govern/govd.py:831-864 | A client frame, whatever its mask and whatever follows, is read as itself exactly up to the cap, and as a close above it. |
| WebSocketProofs.StreamIsDelivered | infra/govern/govd.py:831-864 | A concatenation of client frames is read as exactly the frames sent, up to the first that is a close or over the cap. |
| WebSocketProofs.AllArriveWithinCap | infra/govern/govd.py:831-864 | When no close is sent, all frames arrive exactly when all are within the cap. |
| WebSocketProofs.UnmaskedFrameReads | infra/govern/govd.py:850-864 | A frame without a mask is read as itself exactly if it is no data frame and within the cap, and else as a close. |
| WebSocketProofs.ServerFrameReads | infra/govern/govd_client.py:182-193 | A server frame is read whole by the client. |
| WebSocketProofs.RepliesArrive | infra/govern/govd_client.py:182-193 | Server frames are read whole and in order. |
| WebSocketProofs.RepliesTellTheTexts | infra/govern/govd_client.py:182-193 | What the client reads determines the texts that were sent. |

## Left out

- HTTP handlers, the dashboard, server-sent events, fleet probing, chip fetching and the JavaScript files: input and output.
- Ed25519, DSSE, AES-GCM, WebAuthn, TSA and OpenSSL: one parameter each for what they would answer.
- The sandbox backends, the vault, reproducible builds, benchmarks, red-team drills and the runs of TLC, Apalache and TLAPS.
- The lease, the store mirror and recovery of the store from disk: the backend that makes them atomic is not part of this model.
- The decision tables of access lists, skill access, tiers and feed tiers, and the output contract of intelligence steps: one reading of each branch settles them.
- Self-tests, drills and the fixed small workflows.
- The text of emitted TLA+ and shell code: the step relation is modelled, not its spelling.
- How Python finds the shortest digits of a float: what they are is stated, the search is not modelled. Values that are no JSON, tuples and dict keys that are not strings are excluded by the type of the model; `True == 1` is not an equality of values here.
- The frozen major-1 link digest, and the bytes of `json.dumps`: the ledger file relies on a codec whose records read back sorted and hold no raw newline. `splitlines` is modelled as splitting at newlines, and a blank line is one of ASCII white space.
- `int()` of a float or of numeric text as a seq, a bool or float as a key of the audit's index, and entries that are no dict in the cold check: seqs are integers there. Hexadecimal text of proof elements is modelled as bytes.
- Locks are exclusive and a dead process loses its lock; `fsync` keeps what it covers; a power loss keeps a prefix of what was not yet synced. Errors of the file system other than short writes end a call like a death does.
- Rounding of `Decimal` at 28 or 34 digits in quotas, trimming and gaps, and of binary floats in the token bucket: exact arithmetic is used.
- The links of the reward ledger's chain, its balance root and quote signing: the chain and the canonical digest are modelled on their own, and the content id of a quote is a field.
- Currencies of the three legs of an intelligence settlement that differ: one currency is given.
- Digits outside ASCII in step ids, which `isdigit` accepts and `int` may reject.
- The session token of a hello, the reasons in replies, plan diffs, value rows and trace spans. Reads that a check makes under separate locks are one read: events only grow, so the last of them decides.
- The execution mode of a run is fixed while it lives, and run ids do not repeat.
- Results of the limb that the delegating side drops (unreachable, replayed) are the reply without an event.
- The handshake of the WebSocket, fragmentation and extensions, and the text codec of the client beyond UTF-8 of the texts sent.
- The invariants and the name of a composed workflow, which the source resets.
- SettlementRuns.EveryRunIsSound: speaks of the runs in which the balances allow each step, as StepKeepsIff states; no operation of the source checks that.
- DurableRuns.EveryFreshRunIsSafe: speaks of the runs in which each record is apt for the file, which neither durable_append nor its caller always sees to; CallAddsOneRecord states for each call that this is exactly what is needed.
- DurableRuns.EveryRunIsSafe: a call brings plain JSON values without NaN and infinities, for which alone a digest exists; with one inside, the source writes the record and then raises when it links the next one or verifies the chain, and neither exception is modelled.
