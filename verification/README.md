# A verified model of a delegate blockchain node's core

The repository is a blockchain node built on the `fc` library. This project models
its most intricate parts and proves what they are for.

- **Chain, forks and undo** (`UndoStates`, `PendingStates`, `ForkTree`,
  `ChainLedger`, `ChainRuns`, `ChainHeaders`, `ChainExamples`). Blocks are evaluated into a layer of
  changes over the database; an undo state is saved for each; when a longer branch
  appears the chain is taken back to the fork point and led up the branch. The
  database is a state machine whose steps store, add, refuse and take back a block,
  list one from the future and withdraw verdicts, and its methods are proved to
  perform such steps. Over every run, whatever the rules of validation do: chain,
  marks, index and undo history are in order; a block stops being switchable only if
  it or one it comes after failed the checks; the head is as high as any block that
  can be switched to, under a condition on the arriving blocks that is exact, unless a
  switch failed, for which the exact condition is given too; after one, nothing moves
  the head again. The tables are the replay of the current chain exactly while what is
  taken back can be, and then two nodes with the same head have the same state.
- **CRC** (`Words` and the `Crc*` modules). A bit-at-a-time engine, a table-driven
  one and the augmented form, for every width, polynomial and flag; all three are
  tied to polynomial division over GF(2).
- **Serialization** (`RawTypes`, `Varint`, `VariantCodec`, `VariantLaws`,
  `VariantBytes`, `VariantCanonical`, `DataStream`, `RawVariant`, `Codecs`). Varints, the
  variant tree, its bytes one by one, which bytes are canonical, the two-pass writer, the bounded reader, and the container
  codecs.
- **Intrusive queues** (`Queues`), **Bloom filter** (`Bloom`, `BloomHash`), **number
  parsing** (`JsonNumbers`, `JsonTokens`), **overflow-checked integers** (`SafeIntegers`).

Code that changes state is modelled by classes and methods with loops, each proved
against a function or a predicate on values whose own laws are lemmas. `dafny verify
dfyconfig.toml` checks everything.

## How the chain is modelled

The rules by which a block is judged and turned into changes are a parameter: what
a block changes is a function of its predecessor's header and the tables, and
whether it is accepted may depend on the clock too. Table keys and rows are strings.
Digests are numbers; that a digest covers its predecessor's digest, so links cannot
circle, is given by a depth function. `storages` is the contract storage table, which
shares its set of removed keys with the contract entries; `entries` stands for any of
the other tables. Undo laws are stated with their exact condition; what is said of
the chain itself does not depend on it, and what is said of the tables asks it of the
blocks taken back only. The clock is a parameter: one time for each call. `regular` says
that every block put on the chain had the number of its place (`RegularIs`).

Three things are said of the marks in the tree. It is well formed always. It is whole when
the predecessor of every switchable block is switchable, which is to say that switchable
blocks have valid branches back to genesis (`WholeIsRooted`, `RootedIsWhole`). It is judged
when the two flags of every block say exactly whether it has such a branch. Only the
withdrawal of verdicts can end the second, and only that and the adding of an invalid block
the third; the exact conditions are `StepIsWhole` and `RunIsJudged`.

A database is in order when `Valid` holds, its tables are right
when they are `Sound`, and `Recorded` says that its state came about by the steps in
its log, from which the first follows by `RecordedIsValid` and the second by
`TablesAreReplay`.

`src/Chain/libraries/blockchain/ChainDatabase.cpp` is not UTF-8 text. The rows below
cite the declarations, with their documentation, in `ChainDatabaseImpl.hpp` and
`ChainDatabase.hpp`, and give the lines of the modelled body in `ChainDatabase.cpp`.

## Where the code does less than it says

- Undo of contract storage (`PendingChainState.cpp:478-482`, `588-592`): a storage
  row that is new while its contract is not stays behind after an undo, and one whose
  contract is re-created is lost. `UndoRestores` gives the exact condition, and in
  `TablesExample` two nodes with the same head have different tables for it. A merge of
  layers slips likewise (`MergeKeepsView`, `MergeForgets`).
- `push_block` takes the verdict off listed blocks, and what comes after them, when a block
  arrives that cannot be linked (`ChainDatabase.cpp:1935-1940`), without trying them. So a
  block refused for its time stands above the head until something else can be linked
  (`FutureExample`). And it lists the block pushed rather than the one from the future
  (`ChainDatabase.cpp:1923`), so that a verdict can be withdrawn after one that stands: the
  tree is then not whole (`OrderExample`). `Reopens` has both exact conditions, and
  `FineThroughout` those for a whole run.
- `store_and_index` measures the branch it completes by the blocks that waited, without the
  one that arrived. Where none of them is as high, it may stay above the head untried
  (`StoreAndIndex`, `WaitingExample`).
- `pop_block` clears the block's mark and index entry before it finds that the undo
  state is missing, so a failed pop leaves the head unmarked (`MissedIsBroken`). The
  undo history counts from the highest number ever reached, not from the head, and
  `push_block` checks the number of the new block, not that of the fork point. A switch
  fails exactly when a block above the fork point cannot be taken back (`SwitchResult`,
  `FailsInOrder`); `LostExample` is one, with 361 blocks in order and a fork at genesis.
  After it every switch fails, but to the head itself, and head and tables never change
  again (`PushAllStranded`).
- `verify_header` does not compare the number of a block numbered 0 or 1 with the
  head's. A head numbered 0 cannot be popped, and the loop of `switch_to_fork` does
  not end: that is the outcome `Stuck`, impossible while numbers are places
  (`FailsInOrder`) and reached in `StuckExample`.
- The signed varint is inverse only on 31 bits (`SignedRoundTrip`); a binary literal
  loses its first digit (`BinaryLiteral`); a token with a `.` never reaches the
  floating-point code (`NoFractions`); `parseInt` takes digits not below the base at
  their value (`OutOfBaseExample`, with the exact condition in `ReadsInBase`); padded
  varints and objects that repeat a key decode, though hashes cover the bytes
  (`Canonical`); a Bloom table whose size in bits is not a multiple of eight is indexed
  past its end unless it is larger than every hash (`IndexInRange`); the writing stream
  compares lengths as 32-bit signed numbers (`Sink.Write`, `OverrunExample`).

## Model

| member | source | states |
|---|---|---|
| `ChainRuns.ChainDatabase.PushAll` | src/Chain/libraries/include/blockchain/ChainDatabase.hpp:617-626 | every run of arriving blocks: unless a switch fails the database is in order after it; where one that waits for a block is as high as it, the head is all the time as high as any block that can be switched to, and those are on whole branches, exactly if it is so at the start and no unlinkable block brings back a listed branch that is higher or comes after an invalid block; the tables are the replay of the chain if what was taken back could be (body: ChainDatabase.cpp:1852-1943) |
| `ChainRuns.ChainDatabase.PushBlock` | src/Chain/libraries/include/blockchain/ChainDatabase.hpp:617-626 | nothing changes for a known or too old block; a block that cannot be linked leaves the chain alone and brings the listed branches back, and the head stays as high as any switchable block exactly if none of them is higher; a block that can be linked leaves it so if one waiting for it is as high, or none waits; it is listed exactly if a block was refused for its time; a block loses its standing only if it, or one it comes after, failed the checks in this call; the call breaks only with the head impossible to take back and a branch that leaves the chain below it, and never if the chain has a place secure for the new block (body: ChainDatabase.cpp:1852-1943) |
| `ChainRuns.FineThroughout` | src/Chain/libraries/include/blockchain/ChainDatabase.hpp:617-626 | the exact condition for the head to be the highest, over any run of arrivals without a failed switch (body: ChainDatabase.cpp:1852-1943) |
| `ChainRuns.ChainDatabase.PushNew` | src/Chain/libraries/include/blockchain/ChainDatabase.hpp:617-626 | the three ends of storing a new block: branches tried, listed branches brought back, or a switch failed (body: ChainDatabase.cpp:1881-1940) |
| `ChainRuns.ChainDatabase.ClearInvalidation` | src/Chain/libraries/include/blockchain/ChainDatabaseImpl.hpp:64-69 | the blocks of the list older than two days leave it; exactly the others and what comes after them have no verdict any more (body: ChainDatabase.cpp:203-223) |
| `ChainHeaders.ListedForTwoDays` | src/Chain/libraries/include/blockchain/ChainDatabaseImpl.hpp:64-69 | a block stays listed exactly until two days after its time (body: ChainDatabase.cpp:203-223) |
| `ChainRuns.ChainDatabase.TryBlock` | src/Chain/libraries/include/blockchain/ChainDatabase.hpp:617-626 | the tried block is the head, or cannot be switched to any more, or the switch failed; the pushed block is listed exactly if the refusal was for time (body: ChainDatabase.cpp:1915-1928) |
| `ChainRuns.ChainDatabase.TryLongest` | src/Chain/libraries/include/blockchain/ChainDatabase.hpp:617-626 | nothing is tried unless the block returned is higher than the head; otherwise no switchable block is above the head afterwards, if none was above both (body: ChainDatabase.cpp:1901-1933) |
| `ChainRuns.ChainDatabase.TryForks` | src/Chain/libraries/include/blockchain/ChainDatabase.hpp:617-626 | tries numbers from the highest down: afterwards no switchable block is above the head; fails never if a place is secure up to there (body: ChainDatabase.cpp:1906-1933) |
| `ChainRuns.ChainDatabase.TryNumber` | src/Chain/libraries/include/blockchain/ChainDatabase.hpp:617-626 | tries the blocks of one number in turn: one is the head, or none can be switched to any more, or a switch has failed at a head that cannot be taken back (body: ChainDatabase.cpp:1907-1929) |
| `ChainRuns.ChainDatabase.SwitchToFork` | src/Chain/libraries/include/blockchain/ChainDatabaseImpl.hpp:110-116 | fails exactly when a block above the fork point cannot be taken back, and stops at the topmost such block; while numbers are places, exactly when the lowest has left the undo history; otherwise the chain is the old one up to the fork point and the branch from there, to its end or up to a block that fails the checks; the tables stay the replay if the changes of the blocks taken back are reversible (body: ChainDatabase.cpp:651-671) |
| `ChainRuns.ChainDatabase.Reorganize` | src/Chain/libraries/include/blockchain/ChainDatabaseImpl.hpp:110-116 | the two loops of the switch, back to the fork point and then up the branch, end as PopResult and then AlongResult say (body: ChainDatabase.cpp:658-668) |
| `ChainRuns.ChainDatabase.PopTo` | src/Chain/libraries/include/blockchain/ChainDatabaseImpl.hpp:110-116 | the popping loop ends with the chain cut exactly at the target if and only if every block above can be taken back, and otherwise at the topmost that cannot (body: ChainDatabase.cpp:660-663) |
| `ChainRuns.ChainDatabase.ExtendAlong` | src/Chain/libraries/include/blockchain/ChainDatabaseImpl.hpp:110-116 | the extending loop adds the blocks of the branch in order, all of them or up to one that fails the checks in the state reached (body: ChainDatabase.cpp:665-668) |
| `ChainRuns.FailsInOrder` | src/Chain/libraries/include/blockchain/ChainDatabaseImpl.hpp:110-116 | while every block put on the chain had the number of its place a switch is never stuck, and is lost exactly when the lowest block to take back has left the undo history (body: ChainDatabase.cpp:651-671) |
| `ChainRuns.ChainDatabase.RegularIs` | src/Chain/libraries/include/blockchain/ChainDatabaseImpl.hpp:207-215 | numbers have been places exactly if every block put on the chain was numbered one above its predecessor (body: ChainDatabase.cpp:848-849) |
| `ChainRuns.ChainDatabase.ExtendChain` | src/Chain/libraries/include/blockchain/ChainDatabaseImpl.hpp:127-134 | the verdict is that of header, time, rules and undo history, told exactly by the next five rows; a block not rejected is next to the head in link, number and time; if it is to accept, the state is the old one extended by the block, otherwise exactly the block and what comes after it are marked invalid; right tables stay right (body: ChainDatabase.cpp:846-871, 1060-1134) |
| `ChainHeaders.AcceptedExactly` | src/Chain/libraries/include/blockchain/ChainDatabaseImpl.hpp:207-215 | a block is taken if and only if it names the head, stands on the ten seconds, is numbered 0, 1 or one above the head, in the last case later than it, is at most twenty seconds ahead, the rules accept it, and the block 360 below it is in the index where that is needed (body: ChainDatabase.cpp:846-871) |
| `ChainHeaders.EarlyExactly` | src/Chain/libraries/include/blockchain/ChainDatabaseImpl.hpp:207-215 | it is put off if and only if its header is right and it is further ahead |
| `ChainHeaders.OtherNumber` | src/Chain/libraries/include/blockchain/ChainDatabaseImpl.hpp:207-215 | a block above number one whose number is not the next is rejected |
| `ChainHeaders.OtherHeader` | src/Chain/libraries/include/blockchain/ChainDatabaseImpl.hpp:207-215 | so is one with another predecessor, off the ten seconds, or not later than the head |
| `ChainHeaders.NextIsAdded` | src/Chain/libraries/include/blockchain/ChainDatabaseImpl.hpp:207-215 | a linked block on the head with the next number and a later time, at most twenty seconds ahead, is added if the rules accept it and the history takes it |
| `ChainHeaders.StepKeepsHeaders` | src/Chain/libraries/include/blockchain/ChainDatabaseImpl.hpp:207-215 | every step keeps the headers of the chain in line |
| `ChainHeaders.RunKeepsHeaders` | src/Chain/libraries/include/blockchain/ChainDatabaseImpl.hpp:207-215 | in every run from genesis, every block of the chain stands on the ten seconds and names the one before it; one numbered above one is numbered one above its predecessor and is later |
| `ChainHeaders.DatabaseKeepsHeaders` | src/Chain/libraries/include/blockchain/ChainDatabaseImpl.hpp:207-215 | so it is in a database, whatever has arrived and whichever branches were tried |
| `ChainHeaders.NumberAtMostPlace` | src/Chain/libraries/include/blockchain/ChainDatabaseImpl.hpp:207-215 | no block of such a chain has a number above its place |
| `ChainHeaders.TimesGoUp` | src/Chain/libraries/include/blockchain/ChainDatabaseImpl.hpp:207-215 | while numbers stay above one, times rise by ten seconds a block at least and numbers by one |
| `ChainHeaders.KeptFor360` | src/Chain/libraries/include/blockchain/ChainDatabaseImpl.hpp:280-290 | while blocks are added in order, exactly the last 360 below the greatest height reached have undo states (body: ChainDatabase.cpp:824-844) |
| `ChainRuns.ChainDatabase.AddBlock` | src/Chain/libraries/include/blockchain/ChainDatabaseImpl.hpp:127-134 | adding a block that follows the head keeps chain, undo states and index in order (body: ChainDatabase.cpp:1083-1108) |
| `ChainRuns.ChainDatabase.SaveUndoState` | src/Chain/libraries/include/blockchain/ChainDatabaseImpl.hpp:280-290 | stores the change that takes the block back, drops the one that leaves the history, and fails exactly on a gap in the index by number (body: ChainDatabase.cpp:824-844) |
| `ChainRuns.ChainDatabase.PopBlock` | src/Chain/libraries/include/blockchain/ChainDatabaseImpl.hpp:146-152 | takes the head back, with the tables of the shorter chain exactly when the block's change is reversible; without an undo state the head stays but is no longer marked as part of the chain (body: ChainDatabase.cpp:1193-1228) |
| `ChainRuns.ChainDatabase.StoreBlock` | src/Chain/libraries/include/blockchain/ChainDatabaseImpl.hpp:87-94 | the block is in the tree and nothing else has changed (body: ChainDatabase.cpp:479-590) |
| `ChainRuns.ChainDatabase.RecordedIsValid` | src/Chain/libraries/include/blockchain/ChainDatabaseImpl.hpp:110-170 | whatever storing, adding, refusing, taking back, listing and withdrawing verdicts has led to is in order (body: ChainDatabase.cpp:203-1228) |
| `ChainRuns.ChainDatabase.TablesAreReplay` | src/Chain/libraries/include/blockchain/ChainDatabaseImpl.hpp:146-152 | the tables are the replay of the chain if what the blocks taken back had changed could be; no other block matters (body: ChainDatabase.cpp:651-1228) |
| `ChainRuns.NodesAgree` | src/Chain/libraries/include/blockchain/ChainDatabaseImpl.hpp:110-116 | two databases with equal rules, genesis and head, which agree on the blocks both know, have the same chain, and the same tables if what each took back could be (body: ChainDatabase.cpp:651-671) |
| `ChainExamples.TablesExample` | src/Chain/libraries/include/blockchain/ChainDatabaseImpl.hpp:146-152 | two nodes with the same blocks and head and different tables: one took back a block that wrote a contract's first storage (body: ChainDatabase.cpp:1209-1213) |
| `ChainRuns.ChainDatabase.LostIsStranded` | src/Chain/libraries/include/blockchain/ChainDatabaseImpl.hpp:146-152 | a lost switch leaves the head without mark, index entry and undo state (body: ChainDatabase.cpp:1202-1208) |
| `ChainRuns.ChainDatabase.SwitchStranded` | src/Chain/libraries/include/blockchain/ChainDatabaseImpl.hpp:110-116 | from then on a switch succeeds only for the head itself, and none changes anything (body: ChainDatabase.cpp:651-671) |
| `ChainRuns.ChainDatabase.PushAllStranded` | src/Chain/libraries/include/blockchain/ChainDatabase.hpp:617-626 | and nothing that arrives moves the head or changes chain, undo states or tables (body: ChainDatabase.cpp:1852-1943) |
| `ChainExamples.LostExample` | src/Chain/libraries/include/blockchain/ChainDatabaseImpl.hpp:146-152 | 361 blocks in order and then one forking off at genesis, after which a switch is lost (body: ChainDatabase.cpp:834-840, 1207-1208) |
| `ChainExamples.FutureExample` | src/Chain/libraries/include/blockchain/ChainDatabaseImpl.hpp:64-69 | a block refused for its time comes back above the head when an unlinkable block arrives (body: ChainDatabase.cpp:1935-1940) |
| `ChainExamples.OrderExample` | src/Chain/libraries/include/blockchain/ChainDatabaseImpl.hpp:164-170 | the pushed block is listed, not the one from the future: its verdict is withdrawn though it comes after an invalid block (body: ChainDatabase.cpp:1920-1923) |
| `ChainExamples.WaitingExample` | src/Chain/libraries/include/blockchain/ChainDatabase.hpp:617-626 | a block above the head that is not tried, since the one that waited for it is lower (body: ChainDatabase.cpp:1901-1906) |
| `ChainExamples.StuckExample` | src/Chain/libraries/include/blockchain/ChainDatabaseImpl.hpp:207-215 | six blocks, one of them numbered 0, after which the popping loop has no end (body: ChainDatabase.cpp:848-849) |
| `ChainLedger.GetForkHistory` | src/Chain/libraries/include/blockchain/ChainDatabaseImpl.hpp:135-145 | follows predecessors to the first block of the chain; it ends, and never hits a dead end for a linked block (body: ChainDatabase.cpp:1158-1191) |
| `ChainLedger.RunIsOrdered` | src/Chain/libraries/include/blockchain/ChainDatabaseImpl.hpp:110-170 | every state of every run is in order, whatever the rules do (body: ChainDatabase.cpp:203-1228) |
| `ChainLedger.RunIsJudged` | src/Chain/libraries/include/blockchain/ChainDatabaseImpl.hpp:155-170 | the flags are right all through a run, so that CanLinkIffRooted applies, exactly if at the start and if each block added has nothing invalid waiting unlinked after it and each withdrawal is Reopenable (body: ChainDatabase.cpp:203-628) |
| `ChainLedger.StepIsWhole` | src/Chain/libraries/include/blockchain/ChainDatabaseImpl.hpp:164-170 | a step leaves branches whole exactly if it does not withdraw a verdict after one that stands (body: ChainDatabase.cpp:603-628) |
| `ChainLedger.ReopenedHeights` | src/Chain/libraries/include/blockchain/ChainDatabaseImpl.hpp:64-69 | what an unlinkable block brings back is not above a height exactly if no listed linked branch is (body: ChainDatabase.cpp:203-223) |
| `ChainLedger.ReopenedWhole` | src/Chain/libraries/include/blockchain/ChainDatabaseImpl.hpp:64-69 | and branches stay whole exactly if no verdict is withdrawn after one that stands (body: ChainDatabase.cpp:203-223) |
| `ChainLedger.RunIsRegular` | src/Chain/libraries/include/blockchain/ChainDatabaseImpl.hpp:207-215 | in a run from genesis numbers are places exactly if each block added is numbered one above its predecessor (body: ChainDatabase.cpp:848-849) |
| `ChainLedger.RunIsSound` | src/Chain/libraries/include/blockchain/ChainDatabaseImpl.hpp:146-152 | in every run in which each block taken back can be, the tables are the replay of the chain at every step (body: ChainDatabase.cpp:1060-1228) |
| `ChainLedger.SoundRunsReverse` | src/Chain/libraries/include/blockchain/ChainDatabaseImpl.hpp:146-152 | and in no other run (body: ChainDatabase.cpp:1060-1228) |
| `ChainLedger.RunTables` | src/Chain/libraries/include/blockchain/ChainDatabaseImpl.hpp:146-152 | where what the known blocks change can be taken back, whatever a run takes back can be (body: ChainDatabase.cpp:1060-1228) |
| `ChainLedger.StepIsSound` | src/Chain/libraries/include/blockchain/ChainDatabaseImpl.hpp:110-152 | one step keeps the tables right if and only if it does not take back a block whose change cannot be (body: ChainDatabase.cpp:1060-1228) |
| `ChainLedger.RunStanding` | src/Chain/libraries/include/blockchain/ChainDatabaseImpl.hpp:155-163 | over any run, a block that could be switched to and no longer can was refused, or comes after one that was (body: ChainDatabase.cpp:1129-1134) |
| `ChainLedger.PopsAreSound` | src/Chain/libraries/include/blockchain/ChainDatabaseImpl.hpp:146-152 | taking blocks back from a place on leads to the tables of the shorter chain if the changes of those blocks can be taken back; no other block matters (body: ChainDatabase.cpp:660-663) |
| `ChainLedger.SwitchIsSound` | src/Chain/libraries/include/blockchain/ChainDatabaseImpl.hpp:110-116 | the same for a whole switch (body: ChainDatabase.cpp:651-671) |
| `ChainLedger.PopsInOrder` | src/Chain/libraries/include/blockchain/ChainDatabaseImpl.hpp:280-290 | while numbers are places the blocks from a place on can be taken back exactly when the lowest has not left the undo history (body: ChainDatabase.cpp:834-840) |
| `ChainLedger.SecureFork` | src/Chain/libraries/include/blockchain/ChainDatabaseImpl.hpp:135-145 | no switch to a block as high as the chain goes below a secure place (body: ChainDatabase.cpp:1158-1191) |
| `ChainLedger.SecureStored` | src/Chain/libraries/include/blockchain/ChainDatabaseImpl.hpp:87-94 | a place secure for a block is secure once the block is stored (body: ChainDatabase.cpp:479-590) |
| `ChainLedger.ExtensionIsSecure` | src/Chain/libraries/include/blockchain/ChainDatabase.hpp:617-626 | where the chain is the only branch its head is a secure place for the next block, so plain growth never breaks (body: ChainDatabase.cpp:1852-1943) |
| `ChainLedger.HeadDeterminesState` | src/Chain/libraries/include/blockchain/ChainDatabaseImpl.hpp:110-116 | chains with the same head, over agreeing blocks, lead to the same tables (body: ChainDatabase.cpp:651-671) |
| `ChainLedger.HeadDeterminesChain` | src/Chain/libraries/include/blockchain/ChainDatabaseImpl.hpp:110-116 | over agreeing blocks the head fixes the chain (body: ChainDatabase.cpp:651-671) |
| `ChainLedger.ExtendedIsOrdered` | src/Chain/libraries/include/blockchain/ChainDatabaseImpl.hpp:127-134 | one block further: chain, marks, index and undo history are in order again (body: ChainDatabase.cpp:1096-1108) |
| `ChainLedger.ExtendedIsSound` | src/Chain/libraries/include/blockchain/ChainDatabaseImpl.hpp:127-134 | and the tables are those of the longer chain (body: ChainDatabase.cpp:1096-1108) |
| `ChainLedger.ShortenedIsOrdered` | src/Chain/libraries/include/blockchain/ChainDatabaseImpl.hpp:146-152 | one block back: all is in order whatever the rules do (body: ChainDatabase.cpp:1193-1220) |
| `ChainLedger.ShortenedIsSound` | src/Chain/libraries/include/blockchain/ChainDatabaseImpl.hpp:146-152 | and the tables are those of the shorter chain if and only if no contract storage of the block slips (body: ChainDatabase.cpp:1207-1220) |
| `ChainLedger.RefusedIsOrdered` | src/Chain/libraries/include/blockchain/ChainDatabaseImpl.hpp:155-163 | marking a block outside the chain invalid touches nothing on the chain (body: ChainDatabase.cpp:1129-1134) |
| `ChainLedger.StoredIsSound` | src/Chain/libraries/include/blockchain/ChainDatabaseImpl.hpp:87-94 | a block put into the tree changes neither the tables nor what the chain leads to (body: ChainDatabase.cpp:479-590) |
| `ChainLedger.MissedIsBroken` | src/Chain/libraries/include/blockchain/ChainDatabaseImpl.hpp:146-152 | a pop that finds no undo state leaves a database that is not in order (body: ChainDatabase.cpp:1202-1208) |
| `ChainLedger.PopReplay` | src/Chain/libraries/include/blockchain/ChainDatabaseImpl.hpp:146-152 | applying the saved undo state undoes the head block's replay step, if and only if its change is reversible (body: ChainDatabase.cpp:1209-1213) |
| `ChainLedger.ExtendRegular` | src/Chain/libraries/include/blockchain/ChainDatabaseImpl.hpp:280-290 | after a block is added, exactly the blocks less than the history length below the highest number ever reached have undo states (body: ChainDatabase.cpp:834-840) |
| `ChainLedger.StaysRegular` | src/Chain/libraries/include/blockchain/ChainDatabaseImpl.hpp:207-215 | the next block has the number of its place exactly when it is numbered one above the head (body: ChainDatabase.cpp:848-849) |
| `ChainLedger.OrdinaryRulesAreReversible` | src/Chain/libraries/include/blockchain/PendingChainState.hpp:103-120 | rules that write ordinary tables only make changes that can always be taken back |
| `ForkTree.StoreAndIndex` | src/Chain/libraries/include/blockchain/ChainDatabaseImpl.hpp:87-94 | the tree stays well formed; the chain and all switchable branches stay; the block is switchable exactly when its predecessor is, and only it and what comes after it become so; then the block returned is the highest of those exactly when one that waited is as high as the block, or none waited (body: ChainDatabase.cpp:479-590) |
| `ForkTree.CanLinkIffRooted` | src/Chain/libraries/include/blockchain/ChainDatabase.hpp:36-38 | while verdicts are judged, the two flags of a block say exactly that its whole branch back to genesis is known and free of invalid blocks |
| `ForkTree.WholeIsRooted` | src/Chain/libraries/include/blockchain/ChainDatabase.hpp:36-38 | in a whole tree a switchable block has a branch that is known and free of invalid blocks |
| `ForkTree.RootedIsWhole` | src/Chain/libraries/include/blockchain/ChainDatabase.hpp:36-38 | and in no other tree is that so of all of them |
| `ForkTree.UncheckedIsJudged` | src/Chain/libraries/include/blockchain/ChainDatabaseImpl.hpp:164-170 | withdrawing verdicts leaves the flags right exactly if each block concerned is linked when its predecessor is, and no verdict stands before it (body: ChainDatabase.cpp:603-628) |
| `ForkTree.UncheckedIsWhole` | src/Chain/libraries/include/blockchain/ChainDatabaseImpl.hpp:164-170 | and branches whole exactly if what stands before a linked block concerned is switchable or concerned too (body: ChainDatabase.cpp:603-628) |
| `ForkTree.MarkAsUnchecked` | src/Chain/libraries/include/blockchain/ChainDatabaseImpl.hpp:164-170 | withdraws the verdicts on exactly the listed blocks and their descendants (body: ChainDatabase.cpp:220-222, 603-628) |
| `ForkTree.MarkAsLinked` | src/Chain/libraries/include/blockchain/ChainDatabaseImpl.hpp:188-196 | marks exactly the descendants, terminates, and finds the one with the highest number (body: ChainDatabase.cpp:407-438) |
| `ForkTree.JudgeBelow` | src/Chain/libraries/include/blockchain/ChainDatabaseImpl.hpp:197-205 | gives exactly the descendants one verdict and terminates (body: ChainDatabase.cpp:439-457, 612-627) |
| `ForkTree.MarkInvalid` | src/Chain/libraries/include/blockchain/ChainDatabaseImpl.hpp:155-163 | marks the failed block and exactly its descendants; the tree stays well formed (body: ChainDatabase.cpp:592-601) |
| `ForkTree.IncludedKeeps` | src/Chain/libraries/include/blockchain/ChainDatabaseImpl.hpp:171-178 | marking a linked block as part of the chain or not keeps the tree well formed, and judged if nothing invalid waits unlinked after it (body: ChainDatabase.cpp:630-649) |
| `ForkTree.AboveCanLink` | src/Chain/libraries/include/blockchain/ChainDatabase.hpp:36-38 | in a judged tree, what a switchable block comes after is switchable |
| `ForkTree.RefusedStanding` | src/Chain/libraries/include/blockchain/ChainDatabaseImpl.hpp:155-163 | of the switchable blocks exactly the refused one and those after it lose that (body: ChainDatabase.cpp:592-601) |
| `ForkTree.CanLinkIsMarkable` | src/Chain/libraries/include/blockchain/ChainDatabaseImpl.hpp:171-178 | in a judged tree a switchable block can be added without the flags going wrong (body: ChainDatabase.cpp:630-649) |
| `ForkTree.NothingKnownBelow` | src/Chain/libraries/include/blockchain/ChainDatabaseImpl.hpp:87-94 | below a placeholder no block is linked and none is invalid (body: ChainDatabase.cpp:529-541) |
| `UndoStates.UndoRestores` | src/Chain/libraries/include/blockchain/PendingChainState.hpp:103-127 | the undo state gives the old tables back if and only if no contract storage slips, a condition on the change and the tables before it |
| `UndoStates.ViewShows` | src/Chain/libraries/blockchain/PendingChainState.cpp:588-592 | a layer shows its own row, nothing where it removed, and elsewhere what is below |
| `UndoStates.UndoHolds` | src/Chain/libraries/include/blockchain/PendingChainState.hpp:103-120 | an undo state holds the old rows of what was changed and removes what was new |
| `UndoStates.UndoRestoresEntries` | src/Chain/libraries/include/blockchain/PendingChainState.hpp:103-120 | ordinary tables are always restored |
| `UndoStates.UndoRestoresStorageAt` | src/Chain/libraries/blockchain/PendingChainState.cpp:478-482 | key by key: a contract's storage is restored if and only if it does not slip |
| `UndoStates.FirstStorageStays` | src/Chain/libraries/blockchain/PendingChainState.cpp:588-592 | a registered contract that writes its first storage: the undo state leaves it behind |
| `UndoStates.MergeKeepsView` | src/Chain/libraries/include/blockchain/PendingChainState.hpp:121-127 | applying a layer to the layer below shows what the upper one showed if and only if no storage slips |
| `UndoStates.MergeKeepsEntries` | src/Chain/libraries/include/blockchain/PendingChainState.hpp:121-127 | for ordinary tables it always does |
| `UndoStates.MergeForgets` | src/Chain/libraries/include/blockchain/PendingChainState.hpp:121-127 | a removed storage without a contract shows again after a merge |
| `PendingStates.PendingState.LookupEntry` | src/Chain/libraries/blockchain/PendingChainState.cpp:336-345 | reads what is seen through any number of layers |
| `PendingStates.PendingState.LookupStorage` | src/Chain/libraries/blockchain/PendingChainState.cpp:455-464 | the same for contract storage, hidden by the contract's removal |
| `PendingStates.PendingState.StoreEntry` | src/Chain/libraries/blockchain/PendingChainState.cpp:347-351 | stores a row and forgets its removal |
| `PendingStates.PendingState.RemoveEntry` | src/Chain/libraries/blockchain/BalanceEntry.cpp:92-99 | removes a row only if it is seen, and remembers the removal |
| `PendingStates.PendingState.StoreStorage` | src/Chain/libraries/blockchain/PendingChainState.cpp:478-482 | stores contract storage; the set of removals is not touched |
| `PendingStates.PendingState.RemoveStorage` | src/Chain/libraries/blockchain/ContractEntry.cpp:181-194 | drops the layer's own row only; the removal is not remembered |
| `PendingStates.PendingState.ApplyChanges` | src/Chain/libraries/blockchain/PendingChainState.cpp:41-65 | on the database the tables become what was seen; on a layer that layer becomes the merge of the two |
| `PendingStates.PendingState.ApplyEntriesToLayer` | src/Chain/libraries/include/blockchain/PendingChainState.hpp:121-127 | removals first, each only if seen, then rows |
| `PendingStates.PendingState.GetUndoState` | src/Chain/libraries/blockchain/PendingChainState.cpp:140-162 | fills a fresh layer with exactly the change that takes this one back; refused without a layer below |
| `CrcEngines.EnginesAgree` | include/win/boost/crc.hpp:727-995 | the bitwise and the table-driven engine give the same checksum and interim remainder after every run of blocks, for every width, polynomial, initial and final value and both reflect flags |
| `CrcEngines.Reflect` | include/win/boost/crc.hpp:307-327 | mirrors the low bits and clears the rest |
| `CrcEngines.CrcBasic.constructor` | include/win/boost/crc.hpp:630-645 | starts from the given remainder |
| `CrcEngines.CrcBasic.Reset` | include/win/boost/crc.hpp:706-716 | sets the remainder |
| `CrcEngines.CrcBasic.GetInterimRemainder` | include/win/boost/crc.hpp:696-703 | the masked remainder, without the garbage above the width |
| `CrcEngines.CrcBasic.ProcessBit` | include/win/boost/crc.hpp:727-748 | one step of long division on the low bits, whatever the bits above hold |
| `CrcEngines.CrcBasic.ProcessBits` | include/win/boost/crc.hpp:752-770 | divides the low bits of a byte, highest first |
| `CrcEngines.CrcBasic.ProcessByte` | include/win/boost/crc.hpp:773-782 | divides a byte in the order the reflect flag says |
| `CrcEngines.CrcBasic.ProcessBlock` | include/win/boost/crc.hpp:784-797 | divides a whole message |
| `CrcEngines.CrcBasic.Checksum` | include/win/boost/crc.hpp:814-823 | publishes the reflected or plain remainder, xored and masked |
| `CrcEngines.CrcTable.InitTable` | include/win/boost/crc.hpp:488-536 | fills each of the 256 slots with the eight-step division of its byte, permuted by reflection; filled once |
| `CrcEngines.DivideByte` | include/win/boost/crc.hpp:507-528 | the eight-step division of one byte from zero |
| `CrcEngines.CrcOptimal.constructor` | include/win/boost/crc.hpp:834-843 | starts from the given remainder, kept reflected when the input is |
| `CrcEngines.CrcOptimal.Reset` | include/win/boost/crc.hpp:920-929 | sets the remainder |
| `CrcEngines.CrcOptimal.GetInterimRemainder` | include/win/boost/crc.hpp:907-916 | the same interim remainder as the bitwise engine's |
| `CrcEngines.CrcOptimal.ProcessBlock` | include/win/boost/crc.hpp:945-967 | table steps compute the bitwise division of the message |
| `CrcEngines.CrcOptimal.Checksum` | include/win/boost/crc.hpp:986-995 | publishes as the bitwise engine does, by the four combinations of flags |
| `CrcEngines.Crc` | include/win/boost/crc.hpp:1028-1040 | the one-shot checksum of a buffer |
| `CrcWordSteps.ByteStep` | include/win/boost/crc.hpp:569-622 | one table step on a possibly reflected word with garbage above the width is eight division steps on the remainder it stands for |
| `CrcWordSteps.HomesCoverAll` | include/win/boost/crc.hpp:530-531 | every slot is the home of some dividend |
| `CrcWordSteps.HomesAreDistinct` | include/win/boost/crc.hpp:530-531 | different dividends have different slots |
| `CrcDivision.DivBitsLinear` | include/win/boost/crc.hpp:727-797 | the CRC is xor-linear on messages of equal length |
| `CrcDivision.DivBitsSplit` | include/win/boost/crc.hpp:945-967 | feeding many bits is a shift plus the division from zero of those bits xored with the top of the remainder |
| `CrcDivision.DivBitsConcat` | include/win/boost/crc.hpp:784-811 | a message may be fed in pieces |
| `CrcPolynomial.RemainderIsUniqueResidue` | include/win/boost/crc.hpp:727-797 | the remainder is the one polynomial below the degree of the divisor that is congruent to message times x^Bits plus the shifted initial value |
| `CrcPolynomial.DivisionAlgorithm` | include/win/boost/crc.hpp:727-797 | the bits divided out form a quotient |
| `CrcPolynomial.DivisionIsUnique` | include/win/boost/crc.hpp:727-797 | quotient and remainder are unique |
| `CrcDetection.CollisionIffDivisible` | include/win/boost/crc.hpp:727-797 | two messages of equal length collide exactly when the divisor divides their difference |
| `CrcDetection.BurstChangesChecksum` | include/win/boost/crc.hpp:814-823 | any change confined to as many consecutive bits as the width changes the checksum, if the polynomial has its constant term |
| `CrcEngines.AugmentedCrc` | include/win/boost/crc.hpp:1045-1076 | the augmented loop is augmented division of the message |
| `CrcAugmented.AugmentedFrames` | include/win/boost/crc.hpp:1045-1076 | a message followed by zero bytes has the plain CRC; followed by its own big-endian CRC it has 0 |
| `CrcAugmented.AugmentedIsPlainFrom` | include/win/boost/crc.hpp:1045-1076 | for any initial remainder, how the augmented division relates to the plain one |
| `CrcAugmented.SelfCheck` | include/win/boost/crc.hpp:1045-1076 | a message followed by its remainder divides evenly |
| `VariantLaws.RoundTrip` | include/fc/io/raw_variant.hpp:49-146 | unpacking the packed value followed by any bytes gives the value and leaves exactly those bytes |
| `VariantLaws.RoundTripExactly` | include/fc/io/raw_variant.hpp:49-146 | that holds for exactly the values with distinct keys and lengths in the limits |
| `VariantLaws.PrefixFree` | include/fc/io/raw_variant.hpp:49-128 | no encoding is a proper prefix of another |
| `VariantLaws.UniqueParse` | include/fc/io/raw_variant.hpp:49-128 | concatenated encodings parse in one way only |
| `VariantCodec.Decode` | include/fc/io/raw_variant.hpp:55-115 | on any bytes: success has consumed at least one byte and the value could have been packed |
| `VariantCanonical.Canonical` | include/fc/io/raw_variant.hpp:55-115 | bytes that decode are the encoding of what they decode to exactly if every varint in them is least and no object repeats a key |
| `VariantCanonical.CanonicalVarint` | include/fc/io/raw.hpp:170-178 | a varint is the encoding of its value exactly if it ends in no superfluous byte and has no bit above the thirty-second |
| `VariantCanonical.DecodedValue` | include/fc/io/raw.hpp:170-178 | what a varint decodes to is the sum of its digits of seven bits, of which the lowest 32 bits are kept |
| `VariantCanonical.DecodesExactly` | include/fc/io/raw.hpp:170-178 | it decodes exactly if one of its first five bytes ends it |
| `VariantCanonical.PaddedZero` | include/fc/io/raw.hpp:170-178 | two bytes that decode to zero |
| `VariantCanonical.RepeatedKey` | include/fc/io/raw_variant.hpp:128-145 | an object that repeats a key decodes to one with fewer entries |
| `VariantCodec.SetKeepsGood` | include/fc/io/raw_variant.hpp:143-143 | setting a key keeps keys distinct |
| `RawVariant.PackVariant` | include/fc/io/raw_variant.hpp:49-54 | writes exactly the encoding if it fits; its bytes are given by the next nine rows |
| `VariantBytes.FirstByte` | include/fc/io/raw_variant.hpp:49-54 | the first byte is the number of the kind: null 0, int64 1, uint64 2, double 3, bool 4, string 5, array 6, object 7 |
| `VariantBytes.IntegerBytes` | include/fc/io/raw_variant.hpp:16-28 | a packed integer is its kind and the eight digits to base 256 of its residue modulo 2^64, lowest first |
| `VariantBytes.IntegerByte` | include/fc/io/raw_variant.hpp:16-28 | byte 1 + k is that residue divided by 256^k, modulo 256 |
| `VariantBytes.SmallBytes` | include/fc/io/raw_variant.hpp:14-35 | null is 0; false is 4, 0 and true is 4, 1; a double is 3 and its image |
| `VariantBytes.StringBytes` | include/fc/io/raw.hpp:239-243 | a string is 5, the varint of its length, and its characters |
| `VariantBytes.ArrayBytesAre` | include/fc/io/raw.hpp:494-503 | an array is 6, the varint of its length, and the bytes of its elements in their order |
| `VariantBytes.ObjectBytesAre` | include/fc/io/raw_variant.hpp:117-127 | an object is 7, the varint of its length, and the pairs in their order, each its key as a string without the kind and then its value |
| `VariantBytes.VarintDigits` | include/fc/io/raw.hpp:149-157 | byte i of a varint carries the number divided by 128^i, modulo 128 |
| `VariantBytes.VarintExamples` | include/fc/io/raw.hpp:149-157 | 300 is written 172, 2, and four other values |
| `RawVariant.PackArray` | include/fc/io/raw.hpp:494-503 | count, then the elements |
| `RawVariant.PackObject` | include/fc/io/raw_variant.hpp:117-127 | count, then keys and values |
| `RawVariant.PackString` | include/fc/io/raw.hpp:239-243 | length, then the characters |
| `RawVariant.Pack` | include/fc/io/raw.hpp:560-571 | the counting pass and the writing pass agree: the second never fails and fills the buffer to the last byte |
| `RawVariant.PackSize` | include/fc/io/raw.hpp:552-558 | the number of bytes packing writes |
| `RawVariant.UnpackVariant` | include/fc/io/raw_variant.hpp:55-115 | reads what the decoding says and stops there; never past the end |
| `VariantBytes.Refusals` | include/fc/io/raw_variant.hpp:55-115 | a kind above seven, a bool above one and fixed parts cut short are refused, each with its error |
| `VariantBytes.TextLimit` | include/fc/io/raw.hpp:245-249 | a string comes back exactly if it is shorter than 10485760 bytes |
| `VariantBytes.ArrayLimit` | include/fc/io/raw.hpp:505-516 | an array of nulls comes back exactly if it has fewer than 655360 elements |
| `RawVariant.UnpackArray` | include/fc/io/raw.hpp:505-516 | the element loop, with the allocation limit |
| `RawVariant.UnpackObject` | include/fc/io/raw_variant.hpp:128-145 | the entry loop, setting keys in place; what is then at each key is told by the next eight rows |
| `VariantBytes.FindAfterSet` | include/fc/io/raw_variant.hpp:143 | after a key is set it has the value, and every other key has what it had |
| `VariantBytes.SetInPlace` | include/fc/io/raw_variant.hpp:143 | the entry of a key is replaced where it stands, and that of a new key comes last |
| `VariantBytes.SetKeepsPlaces` | include/fc/io/raw_variant.hpp:143 | the keys stay in their places |
| `VariantBytes.ReadEntries` | include/fc/io/raw_variant.hpp:134-144 | after reading n pairs each key has the value of its last pair, and the keys come in the order in which they first appear |
| `VariantBytes.LastPair` | include/fc/io/raw_variant.hpp:134-144 | the last pair of a key is the one with none of that key after it |
| `VariantBytes.UnpackedObject` | include/fc/io/raw_variant.hpp:128-145 | the same of every byte string that begins an object; it fails exactly as its pairs do |
| `VariantBytes.RepeatedKeys` | include/fc/io/raw_variant.hpp:117-145 | what comes back of a packed object whose keys need not differ |
| `VariantBytes.RepeatedKeyExample` | include/fc/io/raw_variant.hpp:128-145 | a key packed with 1 and then 2 unpacks to 2 |
| `RawVariant.UnpackString` | include/fc/io/raw.hpp:230-249 | length, limit, characters |
| `RawVariant.UnpackBool` | include/fc/io/raw.hpp:253-259 | any other byte than 0 and 1 is refused |
| `RawVariant.Unpack` | include/fc/io/raw.hpp:573-582 | a whole buffer: what was packed comes back, an empty buffer is null |
| `DataStream.Sink.Write` | include/fc/io/datastream.hpp:37-44 | counts, or writes into the buffer when it fits; runs past the end exactly when the length, taken as a 32-bit signed number, is within the free space and the length itself is not |
| `DataStream.OverrunExample` | include/fc/io/datastream.hpp:37-44 | two gigabytes written to a full buffer pass the guard |
| `DataStream.Sink.Tellp` | include/fc/io/datastream.hpp:86-86 | the number of bytes written or counted |
| `DataStream.Source.Get` | include/fc/io/datastream.hpp:56-64 | one byte, or a range error at the end |
| `DataStream.Source.Read` | include/fc/io/datastream.hpp:28-35 | that many bytes, or a range error |
| `DataStream.PackUnsigned` | include/fc/io/raw.hpp:149-157 | the varint loop writes the encoding |
| `DataStream.UnpackUnsigned` | include/fc/io/raw.hpp:170-178 | the varint loop reads what the decoding says |
| `DataStream.PackSigned` | include/fc/io/raw.hpp:139-147 | the folded value is written as a varint |
| `DataStream.UnpackSigned` | include/fc/io/raw.hpp:159-169 | the unfolding of a varint |
| `Varint.RoundTrip` | include/fc/io/raw.hpp:149-178 | every 32-bit value comes back, with any bytes after it |
| `Varint.EncodeShape` | include/fc/io/raw.hpp:149-157 | the least number of bytes, all but the last marked |
| `Varint.EncodeAtMostFive` | include/fc/io/raw.hpp:149-157 | at most five bytes for 32 bits |
| `Varint.SignedRoundTrip` | include/fc/io/raw.hpp:139-169 | the signed codec inverts itself for exactly the values of 31 bits |
| `Varint.UnZigZagValue` | include/fc/io/raw.hpp:166-168 | what comes back outside that range |
| `Codecs.OptionalIsLawful` | include/fc/io/raw.hpp:211-222 | the round trip of an optional from that of its element |
| `Codecs.OptionalBytes` | include/fc/io/raw.hpp:211-215 | no value is 0, a value is 1 and its bytes |
| `Codecs.PairIsLawful` | include/fc/io/raw.hpp:387-397 | of a pair |
| `Codecs.VectorIsLawful` | include/fc/io/raw.hpp:494-516 | of a vector within the limit |
| `Codecs.SetAndMapAreLawful` | include/fc/io/raw.hpp:423-445 | of a map, and of a set, rebuilt in order by insertion |
| `Codecs.OrderedIsLawful` | include/fc/io/raw.hpp:518-538 | of any ordered container |
| `Codecs.DecodedIsAscending` | include/fc/io/raw.hpp:529-538 | whatever is decoded into an ordered container is in order |
| `Codecs.InsertOld` | include/fc/io/raw.hpp:529-538 | of equivalent elements the first stays |
| `Codecs.InsertNew` | include/fc/io/raw.hpp:529-538 | any other element is added, and nothing else changes |
| `Codecs.CountedBytes` | include/fc/io/raw.hpp:518-527 | a container is the varint of its size and the bytes of its elements in their order |
| `Codecs.StaticVariantIsLawful` | include/fc/io/raw.hpp:643-656 | of a tagged union |
| `Codecs.LeavesAreLawful` | include/fc/io/raw.hpp:238-249 | variants and strings are lawful elements |
| `Queues.TailQueue.constructor` | include/miniupnpc/bsdqueue.h:352-355 | an empty queue |
| `Queues.TailQueue.InsertHead` | include/miniupnpc/bsdqueue.h:357-365 | prepends, keeping the links in both directions |
| `Queues.TailQueue.InsertTail` | include/miniupnpc/bsdqueue.h:367-372 | appends through the head's pointer to the last link |
| `Queues.TailQueue.InsertAfter` | include/miniupnpc/bsdqueue.h:374-382 | inserts after an element |
| `Queues.TailQueue.InsertBefore` | include/miniupnpc/bsdqueue.h:384-389 | inserts before an element without the head |
| `Queues.TailQueue.Remove` | include/miniupnpc/bsdqueue.h:391-400 | removes exactly that element |
| `Queues.TailQueue.Replace` | include/miniupnpc/bsdqueue.h:402-412 | puts another element in its place |
| `Queues.TailQueue.Last` | include/miniupnpc/bsdqueue.h:331-332 | finds the last element by reading an entry as a head |
| `Queues.TailQueue.Prev` | include/miniupnpc/bsdqueue.h:334-335 | finds the element before |
| `Queues.TailQueue.Traverse` | include/miniupnpc/bsdqueue.h:339-342 | visits all elements in order and ends |
| `Queues.TailQueue.TraverseReverse` | include/miniupnpc/bsdqueue.h:344-347 | visits exactly the reverse and ends |
| `Queues.BackwardThenForward` | include/miniupnpc/bsdqueue.h:331-335 | two links back and one forward is the element before, for every place including the head |
| `Queues.CircularQueue.constructor` | include/miniupnpc/bsdqueue.h:456-459 | an empty ring |
| `Queues.CircularQueue.InsertAfter` | include/miniupnpc/bsdqueue.h:461-469 | inserts into the ring after an element |
| `Queues.CircularQueue.InsertBefore` | include/miniupnpc/bsdqueue.h:471-479 | inserts before one |
| `Queues.CircularQueue.InsertHead` | include/miniupnpc/bsdqueue.h:481-489 | prepends |
| `Queues.CircularQueue.InsertTail` | include/miniupnpc/bsdqueue.h:491-499 | appends |
| `Queues.CircularQueue.Remove` | include/miniupnpc/bsdqueue.h:501-514 | removes; the ring stays closed through the head |
| `Queues.CircularQueue.Traverse` | include/miniupnpc/bsdqueue.h:443-446 | forward to the head |
| `Queues.CircularQueue.TraverseReverse` | include/miniupnpc/bsdqueue.h:448-451 | backward to the head |
| `Queues.List.InsertAfter` | include/miniupnpc/bsdqueue.h:205-211 | inserts after an element |
| `Queues.List.InsertBefore` | include/miniupnpc/bsdqueue.h:213-218 | inserts before one |
| `Queues.List.InsertHead` | include/miniupnpc/bsdqueue.h:220-225 | prepends |
| `Queues.List.Remove` | include/miniupnpc/bsdqueue.h:227-234 | removes through the back pointer |
| `Queues.List.Replace` | include/miniupnpc/bsdqueue.h:236-244 | replaces |
| `Queues.SinglyLinkedList.InsertHead` | include/miniupnpc/bsdqueue.h:141-144 | prepends |
| `Queues.SinglyLinkedList.Remove` | include/miniupnpc/bsdqueue.h:154-166 | the search loop ends and exactly that element is gone |
| `Bloom.BloomFilter.constructor` | include/fc/bloom_filter.hpp:180-194 | an empty table, salts fixed by the parameters |
| `Bloom.BloomFilter.Clear` | include/fc/bloom_filter.hpp:252-256 | no bit and no key left |
| `Bloom.BloomFilter.Insert` | include/fc/bloom_filter.hpp:258-268 | turns on exactly the bits of the key |
| `Bloom.BloomFilter.Contains` | include/fc/bloom_filter.hpp:297-310 | yes exactly when all bits of the key are on; so never no for a key put in since the last clear |
| `Bloom.BloomFilter.UnionWith` | include/fc/bloom_filter.hpp:397-412 | the union of bits and keys for equal parameters, nothing otherwise |
| `Bloom.BloomFilter.IntersectWith` | include/fc/bloom_filter.hpp:380-395 | the intersection of bits; every key in both stays |
| `Bloom.MergeIsInsertion` | include/fc/bloom_filter.hpp:397-412 | merging two filters gives bit for bit the table of one filter that took both sequences of keys, in any order and multiplicity |
| `Bloom.InsertAll` | include/fc/bloom_filter.hpp:288-295 | a sequence of keys leaves the bits of their set |
| `Bloom.GenerateUniqueSalt` | include/fc/bloom_filter.hpp:449-509 | the salts are a function of count and seed |
| `BloomHash.MixedSalt` | include/fc/bloom_filter.hpp:449-509 | every salt is multiplied by the third after it, cyclically, which is mixed already if it was passed, and the seed is added |
| `BloomHash.FourSalts` | include/fc/bloom_filter.hpp:449-509 | of four salts each is multiplied by the mixed one before it, and the first by the last as it was |
| `Bloom.HashAp` | include/fc/bloom_filter.hpp:526-570 | the hash loop by eights with its tail; what it tells apart, and its values, are the next ten rows |
| `BloomHash.HashTellsEnd` | include/fc/bloom_filter.hpp:526-570 | for every salt, keys of one length that differ in their end only have different hashes; the end is the last byte of an odd length, two bytes when two are left after the eights, and four when four or none are |
| `BloomHash.ShortKeys` | include/fc/bloom_filter.hpp:526-570 | so different keys of one byte, of two and of four have different hashes |
| `BloomHash.NoCommonBit` | include/fc/bloom_filter.hpp:258-310 | and in a filter of one salt and more bits than hashes such keys share no bit |
| `BloomHash.FirstFourLost` | include/fc/bloom_filter.hpp:530-539 | with a salt below eight the first four of eight bytes do not count |
| `BloomHash.OneByte` | include/fc/bloom_filter.hpp:562-565 | worked value: the factor 0xA5A5A5A5 |
| `BloomHash.TwoBytes` | include/fc/bloom_filter.hpp:552-561 | worked value: the shifts by eleven and five |
| `BloomHash.FourBytes` | include/fc/bloom_filter.hpp:542-551 | worked value: four bytes, lowest first |
| `BloomHash.SevenBytes` | include/fc/bloom_filter.hpp:540-566 | worked value: four bytes are added, two are multiplied with the shifts by seven and three, and the last byte adds the turn |
| `BloomHash.EightBytes` | include/fc/bloom_filter.hpp:530-539 | worked value: eight bytes at once |
| `BloomHash.FifteenBytes` | include/fc/bloom_filter.hpp:526-570 | worked value: the eights before the tail are no turn of it |
| `Bloom.IndexInRange` | include/fc/bloom_filter.hpp:443-447 | every index is inside the table exactly when its size in bits is a multiple of eight or above all 32-bit hashes |
| `Bloom.IndexPastEnd` | include/fc/bloom_filter.hpp:443-447 | a table of twelve bits is indexed past its end |
| `Bloom.BloomFilter.ComputeIndex` | include/fc/bloom_filter.hpp:443-447 | the index of a hash lies inside the table |
| `Bloom.BitsDetermineTable` | include/fc/bloom_filter.hpp:201-218 | tables with the same bits are equal |
| `JsonNumbers.CharValueTable` | include/fc/io/json_relaxed.hpp:235-283 | the table of digit values |
| `JsonNumbers.ParseInt` | include/fc/io/json_relaxed.hpp:286-326 | the exact Horner value of the digits if it fits 64 bits, an error otherwise: the two overflow tests are jointly exact |
| `JsonNumbers.ReadsInBase` | include/fc/io/json_relaxed.hpp:286-326 | a literal reads as one of its base exactly when all digits are below the base, or a character is illegal, or the value is out of bounds |
| `JsonNumbers.InBaseIsUnique` | include/fc/io/json_relaxed.hpp:286-326 | digits below the base are told by their value |
| `JsonNumbers.OutOfBaseExample` | include/fc/io/json_relaxed.hpp:380-384 | 0o9 reads as nine |
| `JsonNumbers.Accumulate` | include/fc/io/json_relaxed.hpp:301-311 | one digit: succeeds exactly when the exact result fits |
| `JsonNumbers.MaxBeforeMul` | include/fc/io/json_relaxed.hpp:297-306 | the test before the multiplication is exact |
| `JsonNumbers.ParseToken` | include/fc/io/json_relaxed.hpp:344-561 | the scanning loop agrees with the grammar given by recursion |
| `JsonTokens.HasShape` | include/fc/io/json_relaxed.hpp:344-561 | every token is a sign, the digits after it and the rest; the next eight rows tell what each becomes in both modes |
| `JsonTokens.WithoutDigits` | include/fc/io/json_relaxed.hpp:348-364 | nothing, a sign alone and a character of no string are errors; a word is text, and an error in strict mode |
| `JsonTokens.PlusIsNotStrict` | include/fc/io/json_relaxed.hpp:352-356 | strict mode takes no plus sign |
| `JsonTokens.DigitsAlone` | include/fc/io/json_relaxed.hpp:364-434 | digits alone are their value with the sign, if its type holds it; a lone zero is unsigned; strict mode takes no zero in front |
| `JsonTokens.DigitsAndMore` | include/fc/io/json_relaxed.hpp:424-561 | with a dot after the digits the token is text in both modes, with a word character text or in strict mode an error, with another character an error |
| `JsonTokens.DigitsAndExponent` | include/fc/io/json_relaxed.hpp:478-544 | with an exponent mark it is floating, text or an error, told by the characters after the mark |
| `JsonTokens.PrefixIsNotStrict` | include/fc/io/json_relaxed.hpp:369-389 | strict mode takes no prefix |
| `JsonTokens.PrefixedLiteral` | include/fc/io/json_relaxed.hpp:380-389 | an octal or hexadecimal literal, in either case of its letter and with any sign, is the value of its digits in base 8 or 16 if it has one that fits, and text otherwise |
| `JsonTokens.BinaryPrefix` | include/fc/io/json_relaxed.hpp:372-379 | a binary literal is the value of its digits after the first, or text; a prefix alone is an error |
| `JsonTokens.OctalExample` | include/fc/io/json_relaxed.hpp:380-384 | 0o17 is fifteen |
| `JsonTokens.HexExample` | include/fc/io/json_relaxed.hpp:385-389 | 0xfZ is 275 |
| `JsonTokens.NegativeHexExample` | include/fc/io/json_relaxed.hpp:385-389 | -0X10 is -16 |
| `JsonNumbers.DecimalTextReadsBack` | include/fc/io/json_relaxed.hpp:344-434 | the decimal text of every integer from -2^63 to 2^64-1 is read back |
| `JsonNumbers.HexLiteral` | include/fc/io/json_relaxed.hpp:385-389 | a hexadecimal literal has its value |
| `JsonNumbers.BinaryLiteral` | include/fc/io/json_relaxed.hpp:372-379 | a binary literal reads as written exactly if its first digit is illegal and alone, or a zero before others, or the others are no number: the scan starts one character late |
| `JsonNumbers.OneBinaryDigit` | include/fc/io/json_relaxed.hpp:372-379 | a binary literal of one digit is taken for a string |
| `JsonNumbers.FloatingExactly` | include/fc/io/json_relaxed.hpp:428-544 | exactly the tokens of a sign, digits and an exponent, without fraction, are handed to the floating-point conversion |
| `JsonNumbers.NoFractions` | include/fc/io/json_relaxed.hpp:435-436 | no token with a dot in it is |
| `JsonNumbers.FractionExample` | include/fc/io/json_relaxed.hpp:435-436 | 1.5 comes back as a string in strict mode |
| `JsonNumbers.BinaryLiteralExample` | include/fc/io/json_relaxed.hpp:372-379 | the binary literal 10 is read as 0 |
| `SafeIntegers.Add` | include/fc/safe.hpp:39-44 | the sum, or an overflow exactly when it is out of range; no guard overflows |
| `SafeIntegers.Sub` | include/fc/safe.hpp:45-51 | the difference likewise |
| `SafeIntegers.Mul` | include/fc/safe.hpp:52-79 | the product likewise, in all four sign cases, with truncating division in the guards |
| `SafeIntegers.Div` | include/fc/safe.hpp:80-85 | the truncated quotient, told by its remainder, except by zero and for the minimum by minus one |
| `SafeIntegers.QuotientTruncates` | include/fc/safe.hpp:80-85 | the quotient is the one number whose remainder is smaller than the divisor and zero or of the sign of the dividend |
| `SafeIntegers.Neg` | include/fc/safe.hpp:93-98 | the negation, except of the minimum |
| `SafeIntegers.ApplyIsExact` | include/fc/safe.hpp:99-118 | an operation succeeds exactly when the mathematical result exists and is in range |
| `SafeIntegers.Safe.Assign` | include/fc/safe.hpp:99-118 | a compound assignment stores the exact result or leaves the value |
| `SafeIntegers.Run` | include/fc/safe.hpp:99-148 | a run of assignments holds the exact value until the first operation that leaves the range |

## Left out

- The evaluation of transactions, delegate pay, random seed and delegate order: a parameter of the chain model.
- ChainRuns.ChainDatabase.PushBlock: stops with `Broken` when a switch fails; what the same call and later ones do after a lost switch is `PushStranded`, and after a stuck one the loop has no end. That the head is as high as any switchable block is promised where branches are whole and one of the blocks waiting for the pushed one, if any, is as high as it.
- ChainRuns.ChainDatabase.PushAll: its exact condition is for runs in which that holds of every block that can be linked.
- Checkpoints, observers, statistics, the pending transaction queue and the unique-transaction cache; `clear_invalidation_of_future_blocks` on opening a database is the same step as on an arriving block.
- Secondary indexes of the tables (account and contract names, asset symbols, slot times) and LevelDB persistence.
- The debug-only `assert`s of the chain database; release behaviour is modelled.
- ForkTree.StoreAndIndex: the tree is a value that the method returns anew, and the database reassigns its field; the reason text of an invalid block is not kept.
- Blobs in variants (no tag case in unpack), unordered containers, multimap, deque, reflected structs and enums.
- The container codecs (`Codecs`) encode and decode values; update of a stream in place is modelled for varints and variants only.
- Varint.RoundTrip: a varint of more than five bytes is a failure, since the shift has no defined meaning; `double` is carried as its eight bytes; a little-endian 64-bit platform with 16-byte variants is assumed.
- Exhaustion of memory by `reserve`, wrap-around of the counting stream at 2^64, `skip`, `seekp` and `put`.
- `CIRCLEQ_REPLACE`, the `SIMPLEQ` family and `_Q_INVALIDATE`.
- Bloom.BloomFilter.constructor: table sizes for which an index can lie past the end are outside the model, since the access has no defined meaning, and so are more than 128 hashes.
- Bloom.GenerateUniqueSalt: at most 128 salts; the `rand()` branch, `^=`, and the floating-point estimates of parameters and false-positive rate are not modelled.
- String, array and object parsing of relaxed JSON and the conversion of exponents to `double`.
- `%` of `safe<T>`, its comparisons and its conversions.
