/**
 The chain database as a value: the current chain of blocks, the tables it has led to,
 the undo states with which it can be taken back, and the steps by which all of that
 changes. What holds after every run of steps is proved here.
 */
module ChainLedger {
  import opened Basics
  import opened UndoStates
  import opened ForkTree

  type Rows = Tables<string, string, string>
  type Delta = Change<string, string, string>

  /** How many blocks can be taken back: an hour of blocks of ten seconds. */
  const MAX_UNDO_HISTORY := 360

  /** The header of a database without blocks. */
  const NO_HEADER := Block(0, NO_BLOCK, 0, "")

  /** Seconds between blocks. */
  const BLOCK_INTERVAL := 10

  /** How many seconds after its time a block stays on the list of future blocks. */
  const FUTURE_LIFETIME := 2 * 24 * 60 * 60

  /** The validation rules. What a block changes depends on its predecessor and the
      tables; whether it is accepted depends on the clock too. */
  datatype Rules = Rules(
    accepts: (nat, Block, BlockId, Block, Rows) -> bool,
    change: (Block, BlockId, Block, Rows) -> Delta)

  type Blocks = map<BlockId, Block>

  function Header(blocks: Blocks, id: BlockId): Block {
    if id in blocks then blocks[id] else NO_HEADER
  }

  function Last(chain: seq<BlockId>): BlockId {
    if chain == [] then NO_BLOCK else chain[|chain| - 1]
  }

  function Before(chain: seq<BlockId>, i: nat): BlockId
    requires i <= |chain|
  {
    if i == 0 then NO_BLOCK else chain[i - 1]
  }

  /** Each block names the one before it; the first names genesis. */
  ghost predicate Chained(blocks: Blocks, chain: seq<BlockId>) {
    && (forall i | 0 <= i < |chain| :: chain[i] in blocks)
    && (forall i {:trigger Before(chain, i)} | 0 <= i < |chain| :: blocks[chain[i]].previous == Before(chain, i))
  }

  lemma ChainedPrefix(blocks: Blocks, chain: seq<BlockId>, n: nat)
    requires Chained(blocks, chain) && n <= |chain|
    ensures Chained(blocks, chain[..n]) && Last(chain[..n]) == Before(chain, n)
  {
    forall i | 0 <= i < n ensures chain[..n][i] in blocks && blocks[chain[..n][i]].previous == Before(chain[..n], i) {
      assert chain[..n][i] == chain[i] && Before(chain[..n], i) == Before(chain, i);
    }
  }

  /** What `id` changes when it comes after `chain`. */
  ghost function Effect(rules: Rules, blocks: Blocks, chain: seq<BlockId>, id: BlockId, rows: Rows): Delta {
    rules.change(Header(blocks, Last(chain)), id, Header(blocks, id), rows)
  }

  /** The tables after applying a chain of blocks to genesis. */
  ghost function Replay(rules: Rules, blocks: Blocks, genesis: Rows, chain: seq<BlockId>): Rows {
    if chain == [] then genesis else
      var before := chain[..|chain| - 1];
      var rows := Replay(rules, blocks, genesis, before);
      View(Effect(rules, blocks, before, chain[|chain| - 1], rows), rows)
  }

  //  The head decides everything

  /** Blocks stored later do not change what a chain leads to. */
  lemma {:induction false} ReplayGrows(rules: Rules, blocks: Blocks, more: Blocks, genesis: Rows, chain: seq<BlockId>)
    requires Chained(blocks, chain)
    requires forall id | id in blocks :: id in more && more[id] == blocks[id]
    requires NO_BLOCK !in blocks && NO_BLOCK !in more
    ensures Replay(rules, more, genesis, chain) == Replay(rules, blocks, genesis, chain)
  {
    if chain != [] {
      var before := chain[..|chain| - 1];
      ChainedPrefix(blocks, chain, |chain| - 1);
      ReplayGrows(rules, blocks, more, genesis, before);
      assert chain[|chain| - 1] in blocks;
      assert before != [] ==> before[|before| - 1] in blocks;
    }
  }

  /** Two nodes that agree on the blocks both know, and have the same head, have the
      same chain. */
  lemma {:induction false} HeadDeterminesChain(blocks: Blocks, chain: seq<BlockId>, blocks': Blocks,
          chain': seq<BlockId>)
    requires Chained(blocks, chain) && Chained(blocks', chain')
    requires NO_BLOCK !in blocks && NO_BLOCK !in blocks'
    requires forall id | id in blocks && id in blocks' :: blocks[id] == blocks'[id]
    requires Last(chain) == Last(chain')
    ensures chain == chain'
  {
    if chain == [] || chain' == [] {
      assert chain != [] ==> Last(chain) in blocks;
      assert chain' != [] ==> Last(chain') in blocks';
    } else {
      var before, before' := chain[..|chain| - 1], chain'[..|chain'| - 1];
      ChainedPrefix(blocks, chain, |chain| - 1);
      ChainedPrefix(blocks', chain', |chain'| - 1);
      assert Last(before) == blocks[Last(chain)].previous;
      assert Last(before') == blocks'[Last(chain')].previous;
      HeadDeterminesChain(blocks, before, blocks', before');
      assert chain == before + [Last(chain)] && chain' == before' + [Last(chain')];
    }
  }

  /** So they have the same tables, whatever forks each has been through. */
  lemma {:induction false} HeadDeterminesState(rules: Rules, genesis: Rows, blocks: Blocks, chain: seq<BlockId>,
          blocks': Blocks, chain': seq<BlockId>)
    requires Chained(blocks, chain) && Chained(blocks', chain')
    requires NO_BLOCK !in blocks && NO_BLOCK !in blocks'
    requires forall id | id in blocks && id in blocks' :: blocks[id] == blocks'[id]
    requires Last(chain) == Last(chain')
    ensures Replay(rules, blocks, genesis, chain) == Replay(rules, blocks', genesis, chain')
  {
    HeadDeterminesChain(blocks, chain, blocks', chain');
    var both := blocks + blocks';
    ReplayGrows(rules, blocks, both, genesis, chain);
    ReplayGrows(rules, blocks', both, genesis, chain');
  }

  /** Depths grow along a chain, so no block is on it twice. */
  lemma {:induction false} ChainDepth(blocks: Blocks, chain: seq<BlockId>, i: nat, depth: BlockId -> nat)
    requires Chained(blocks, chain) && Acyclic(blocks, depth) && i < |chain|
    ensures depth(chain[i]) <= depth(Last(chain))
    decreases |chain| - i
  {
    if i < |chain| - 1 {
      assert blocks[chain[i + 1]].previous == Before(chain, i + 1);
      ChainDepth(blocks, chain, i + 1, depth);
    }
  }

  //  What the database keeps of its chain

  /** The undo state of the block at place `i` of a chain. */
  ghost function UndoAt(rules: Rules, blocks: Blocks, genesis: Rows, chain: seq<BlockId>, i: nat): Delta
    requires i < |chain|
  {
    var rows := Replay(rules, blocks, genesis, chain[..i]);
    Undo(Effect(rules, blocks, chain[..i], chain[i], rows), rows)
  }

  ghost predicate UndoRight(rules: Rules, blocks: Blocks, genesis: Rows, chain: seq<BlockId>,
          undo: map<BlockId, Delta>) {
    forall i {:trigger UndoAt(rules, blocks, genesis, chain, i)} | 0 <= i < |chain| && chain[i] in undo ::
      undo[chain[i]] == UndoAt(rules, blocks, genesis, chain, i)
  }

  /** Undo states are kept for known blocks from `minUndo` on. */
  ghost predicate UndoKnown(blocks: Blocks, undo: map<BlockId, Delta>, minUndo: nat) {
    forall id | id in undo :: id in blocks && minUndo <= blocks[id].number
  }

  /** The marks in the tree are those of the chain. */
  ghost predicate Current(t: Tree, chain: seq<BlockId>) {
    && (forall id {:trigger t.forks[id].isIncluded} | id in t.forks :: t.forks[id].isIncluded <==> id == NO_BLOCK || id in chain)
    && (forall i | 0 <= i < |chain| :: t.CanLink(chain[i]))
  }

  /** A block can be taken back while it is not older than the undo history of the
      highest block the chain has ever had. */
  predicate Retained(number: nat, minUndo: nat, tallest: nat) {
    minUndo <= number && tallest < number + MAX_UNDO_HISTORY
  }

  /** The block at place `i` has the next number, is listed under it, and has an undo
      state exactly when it is retained. */
  ghost predicate Placed(blocks: Blocks, chain: seq<BlockId>, numToId: map<nat, BlockId>, undo: map<BlockId, Delta>,
          minUndo: nat, tallest: nat, i: nat)
    requires i < |chain|
  {
    && chain[i] in blocks && blocks[chain[i]].number == i + 1
    && i + 1 in numToId && numToId[i + 1] == chain[i]
    && (chain[i] in undo <==> Retained(i + 1, minUndo, tallest))
  }

  /** Numbers are places in the chain, the index by number lists the chain, and exactly
      the retained blocks have undo states. */
  ghost predicate Regular(blocks: Blocks, chain: seq<BlockId>, numToId: map<nat, BlockId>, undo: map<BlockId, Delta>,
          minUndo: nat, tallest: nat) {
    && |chain| <= tallest <= |chain| + MAX_UNDO_HISTORY
    && (forall n | n in numToId :: 1 <= n <= |chain|)
    && (forall i | 0 <= i < |chain| :: Placed(blocks, chain, numToId, undo, minUndo, tallest, i))
  }

  //  One block further

  lemma ExtendChained(blocks: Blocks, chain: seq<BlockId>, id: BlockId)
    requires Chained(blocks, chain) && id in blocks && blocks[id].previous == Last(chain)
    ensures Chained(blocks, chain + [id])
  {
    var longer := chain + [id];
    forall i | 0 <= i < |longer| ensures longer[i] in blocks && blocks[longer[i]].previous == Before(longer, i) {
      if i < |chain| {
        assert longer[i] == chain[i] && Before(longer, i) == Before(chain, i);
      }
    }
  }

  lemma ExtendReplay(rules: Rules, blocks: Blocks, genesis: Rows, chain: seq<BlockId>, id: BlockId)
    ensures
      var rows := Replay(rules, blocks, genesis, chain);
      Replay(rules, blocks, genesis, chain + [id]) == View(Effect(rules, blocks, chain, id, rows), rows)
  {
    assert (chain + [id])[..|chain + [id]| - 1] == chain;
  }

  /** A block that would come after the head is not on the chain. */
  lemma DeeperIsNew(blocks: Blocks, chain: seq<BlockId>, id: BlockId, depth: BlockId -> nat)
    requires Chained(blocks, chain) && Acyclic(blocks, depth)
    requires depth(Last(chain)) < depth(id)
    ensures id !in chain
  {
    if id in chain {
      var i :| 0 <= i < |chain| && chain[i] == id;
      ChainDepth(blocks, chain, i, depth);
    }
  }

  lemma ExtendUndo(rules: Rules, blocks: Blocks, genesis: Rows, chain: seq<BlockId>, id: BlockId,
          undo: map<BlockId, Delta>, undo': map<BlockId, Delta>)
    requires UndoRight(rules, blocks, genesis, chain, undo) && id !in chain
    requires forall x | x in undo' && x != id :: x in undo && undo'[x] == undo[x]
    requires
      var rows := Replay(rules, blocks, genesis, chain);
      id in undo' ==> undo'[id] == Undo(Effect(rules, blocks, chain, id, rows), rows)
    ensures UndoRight(rules, blocks, genesis, chain + [id], undo')
  {
    var longer := chain + [id];
    forall i | 0 <= i < |longer| && longer[i] in undo'
      ensures undo'[longer[i]] == UndoAt(rules, blocks, genesis, longer, i)
    {
      if i < |chain| {
        assert longer[i] == chain[i] && longer[..i] == chain[..i];
        assert chain[i] in chain;
        assert undo[chain[i]] == UndoAt(rules, blocks, genesis, chain, i);
      } else {
        assert longer[..i] == chain;
      }
    }
  }

  lemma ExtendCurrent(t: Tree, chain: seq<BlockId>, id: BlockId, t': Tree)
    requires Current(t, chain) && id in t.forks && t.forks[id].isLinked && id != NO_BLOCK && t' == Included(t, id, true)
    ensures Current(t', chain + [id])
  {
    IncludedCanLink(t, id, true, t');
  }

  /** The block that leaves the undo history when a block is added. */
  ghost function Pruned(numToId: map<nat, BlockId>, number: nat): set<BlockId> {
    if number > MAX_UNDO_HISTORY && number - MAX_UNDO_HISTORY in numToId then {numToId[number - MAX_UNDO_HISTORY]} else {}
  }

  lemma ExtendRegular(blocks: Blocks, chain: seq<BlockId>, id: BlockId, numToId: map<nat, BlockId>,
          undo: map<BlockId, Delta>, undo': map<BlockId, Delta>, minUndo: nat, tallest: nat)
    requires Regular(blocks, chain, numToId, undo, minUndo, tallest)
    requires id in blocks && id !in chain && blocks[id].number == |chain| + 1
    requires |chain| + 1 < minUndo ==> undo' == undo && id !in undo
    requires minUndo <= |chain| + 1 ==> undo'.Keys == undo.Keys - Pruned(numToId, |chain| + 1) + {id}
    requires forall i, j | 0 <= i < j < |chain| :: chain[i] != chain[j]
    ensures Regular(blocks, chain + [id], numToId[|chain| + 1 := id], undo', minUndo, if tallest < |chain| + 1 then |chain| + 1 else tallest)
  {
    var n, longer := |chain| + 1, chain + [id];
    var now := if tallest < n then n else tallest;
    var index := numToId[n := id];
    forall i | 0 <= i < |longer| ensures Placed(blocks, longer, index, undo', minUndo, now, i) {
      if i < |chain| {
        assert longer[i] == chain[i] && chain[i] in chain;
        assert Placed(blocks, chain, numToId, undo, minUndo, tallest, i);
        if n > MAX_UNDO_HISTORY {
          assert Placed(blocks, chain, numToId, undo, minUndo, tallest, n - MAX_UNDO_HISTORY - 1);
        }
      }
    }
  }

  //  One block back

  lemma PopUndo(rules: Rules, blocks: Blocks, genesis: Rows, chain: seq<BlockId>, undo: map<BlockId, Delta>, n: nat)
    requires UndoRight(rules, blocks, genesis, chain, undo) && n <= |chain|
    ensures UndoRight(rules, blocks, genesis, chain[..n], undo)
  {
    forall i | 0 <= i < n && chain[..n][i] in undo
      ensures undo[chain[..n][i]] == UndoAt(rules, blocks, genesis, chain[..n], i)
    {
      assert chain[..n][i] == chain[i] && chain[..n][..i] == chain[..i];
      assert undo[chain[i]] == UndoAt(rules, blocks, genesis, chain, i);
    }
  }

  /** Applying the undo state of the head leads back to the chain without it, exactly
      when no contract storage slips. */
  lemma PopReplay(rules: Rules, blocks: Blocks, genesis: Rows, chain: seq<BlockId>)
    requires chain != []
    ensures
      var n := |chain| - 1;
      var rows := Replay(rules, blocks, genesis, chain[..n]);
      View(UndoAt(rules, blocks, genesis, chain, n), Replay(rules, blocks, genesis, chain)) == rows
      <==> UndoSafe(Effect(rules, blocks, chain[..n], chain[n], rows), rows)
  {
    var n := |chain| - 1;
    var rows := Replay(rules, blocks, genesis, chain[..n]);
    UndoRestores(Effect(rules, blocks, chain[..n], chain[n], rows), rows);
  }

  /** No block is on a chain twice. */
  lemma ChainDistinct(blocks: Blocks, chain: seq<BlockId>, depth: BlockId -> nat)
    requires Chained(blocks, chain) && Acyclic(blocks, depth)
    ensures forall i, j | 0 <= i < j < |chain| :: chain[i] != chain[j]
  {
    forall i, j | 0 <= i < j < |chain| ensures chain[i] != chain[j] {
      ChainedPrefix(blocks, chain, j);
      ChainDepth(blocks, chain[..j], i, depth);
      assert chain[..j][i] == chain[i];
      assert depth(blocks[chain[j]].previous) < depth(chain[j]);
    }
  }

  lemma PopCurrent(t: Tree, chain: seq<BlockId>, t': Tree)
    requires Current(t, chain) && chain != [] && NO_BLOCK !in chain
    requires forall i, j | 0 <= i < j < |chain| :: chain[i] != chain[j]
    requires t.CanLink(Last(chain)) && t' == Included(t, Last(chain), false)
    ensures Current(t', chain[..|chain| - 1])
  {
    var n := |chain| - 1;
    IncludedCanLink(t, Last(chain), false, t');
    forall id | id in t.forks && id != Last(chain) ensures id in chain <==> id in chain[..n] {
      if id in chain {
        var i :| 0 <= i < |chain| && chain[i] == id;
        assert chain[..n][i] == id;
      }
    }
    assert chain[n] !in chain[..n];
  }

  lemma PopTree(t: Tree, chain: seq<BlockId>, t': Tree, shorter: seq<BlockId>, depth: BlockId -> nat)
    requires WellFormed(t) && Acyclic(t.blocks, depth) && Chained(t.blocks, chain) && Current(t, chain) && chain != []
    requires Last(chain) in t.forks && t' == Included(t, Last(chain), false) && shorter == chain[..|chain| - 1]
    ensures Current(t', shorter) && Chained(t'.blocks, shorter)
    ensures Last(shorter) == t.blocks[Last(chain)].previous && Last(chain) in t.blocks && t.forks[Last(chain)].isLinked
  {
    var n := |chain| - 1;
    assert chain[n] in t.blocks && t.CanLink(chain[n]);
    ChainDistinct(t.blocks, chain, depth);
    forall i | 0 <= i < |chain| ensures chain[i] != NO_BLOCK {
      assert chain[i] in t.blocks;
    }
    PopCurrent(t, chain, t');
    ChainedPrefix(t.blocks, chain, n);
  }

  /** Marking a block as part of the chain or not leaves the tree as it should be. */
  lemma IncludedIsKept(t: Tree, id: BlockId, included: bool, t': Tree, depth: BlockId -> nat)
    requires WellFormed(t) && Acyclic(t.blocks, depth) && Grounded(t, depth)
    requires id in t.blocks && t.forks[id].isLinked && t' == Included(t, id, included)
    ensures WellFormed(t') && Acyclic(t'.blocks, depth) && Grounded(t', depth)
  {
    IncludedKeeps(t, id, included, t', false);
    IncludedGrounded(t, id, included, t', depth);
  }

  lemma PopRegular(blocks: Blocks, chain: seq<BlockId>, numToId: map<nat, BlockId>, undo: map<BlockId, Delta>,
          minUndo: nat, tallest: nat)
    requires Regular(blocks, chain, numToId, undo, minUndo, tallest) && chain != [] && Last(chain) in undo
    ensures Regular(blocks, chain[..|chain| - 1], numToId - {|chain|}, undo, minUndo, tallest)
  {
    var n := |chain| - 1;
    assert Placed(blocks, chain, numToId, undo, minUndo, tallest, n);
    forall i | 0 <= i < n ensures Placed(blocks, chain[..n], numToId - {|chain|}, undo, minUndo, tallest, i) {
      assert Placed(blocks, chain, numToId, undo, minUndo, tallest, i);
      assert chain[..n][i] == chain[i];
    }
  }

  //  A block refused

  /** Refusing a block that is not on the chain touches nothing on the chain. */
  lemma {:induction false} ChainSpared(t: Tree, chain: seq<BlockId>, id: BlockId, marked: set<BlockId>, i: nat,
          depth: BlockId -> nat)
    requires Chained(t.blocks, chain) && id !in chain && i < |chain|
    requires NO_BLOCK !in t.blocks && id in t.blocks
    requires Descendants(t, id, marked, depth)
    ensures chain[i] !in marked + {id}
  {
    assert chain[i] in chain && t.blocks[chain[i]].previous == Before(chain, i);
    if i > 0 {
      ChainSpared(t, chain, id, marked, i - 1, depth);
    }
  }

  lemma RefusedCurrent(t: Tree, chain: seq<BlockId>, id: BlockId, marked: set<BlockId>, t': Tree, depth: BlockId -> nat)
    requires Current(t, chain) && Chained(t.blocks, chain) && id !in chain
    requires NO_BLOCK !in t.blocks && id in t.blocks
    requires Descendants(t, id, marked, depth)
    requires t' == t.(forks := JudgeAll(t.forks, marked + {id}, Some(false)))
    ensures Current(t', chain)
  {
    forall i | 0 <= i < |chain| ensures t'.CanLink(chain[i]) {
      ChainSpared(t, chain, id, marked, i, depth);
      assert t.CanLink(chain[i]);
    }
  }

  //  The database as a value

  /** The fixed surroundings of a database: its rules, its genesis tables, the first
      block number it keeps undo states for, and a witness that links do not circle. */
  datatype World = World(rules: Rules, genesis: Rows, minUndo: nat, depth: BlockId -> nat)

  /** The fields of the database, among them the list of blocks that arrived too early,
      with the chain applied so far, the greatest length it has had, and whether every
      block put on it had the number of its place. */
  datatype Ledger = Ledger(
    tree: Tree, undo: map<BlockId, Delta>, numToId: map<nat, BlockId>, head: BlockId, headBlock: Block, rows: Rows,
    future: set<BlockId>, chain: seq<BlockId>, tallest: nat, regular: bool)

  /** What the last block of a chain changes can be taken back. */
  ghost predicate LastReversible(w: World, blocks: Blocks, chain: seq<BlockId>)
    requires chain != []
  {
    var before := chain[..|chain| - 1];
    var rows := Replay(w.rules, blocks, w.genesis, before);
    UndoSafe(Effect(w.rules, blocks, before, chain[|chain| - 1], rows), rows)
  }

  /** Every change made along a chain of these blocks can be taken back. */
  ghost predicate Reversible(w: World, blocks: Blocks) {
    forall chain | chain != [] && Chained(blocks, chain) :: LastReversible(w, blocks, chain)
  }

  ghost function Replayed(w: World, l: Ledger): Rows {
    Replay(w.rules, l.tree.blocks, w.genesis, l.chain)
  }

  lemma {:induction false} NoStorages(w: World, blocks: Blocks, chain: seq<BlockId>)
    requires w.genesis.storages == map[]
    requires forall parent, id, block, rows :: w.rules.change(parent, id, block, rows).storages == map[]
    ensures Replay(w.rules, blocks, w.genesis, chain).storages == map[]
  {
    if chain != [] {
      NoStorages(w, blocks, chain[..|chain| - 1]);
    }
  }

  /** Rules that write the ordinary tables only are reversible. */
  lemma OrdinaryRulesAreReversible(w: World, blocks: Blocks)
    requires w.genesis.storages == map[]
    requires forall parent, id, block, rows :: w.rules.change(parent, id, block, rows).storages == map[]
    ensures Reversible(w, blocks)
  {
    forall chain | chain != [] && Chained(blocks, chain) ensures LastReversible(w, blocks, chain) {
      var before := chain[..|chain| - 1];
      NoStorages(w, blocks, before);
      var rows := Replay(w.rules, blocks, w.genesis, before);
      UndoRestores(Effect(w.rules, blocks, before, chain[|chain| - 1], rows), rows);
      OrdinaryTablesUndo(Effect(w.rules, blocks, before, chain[|chain| - 1], rows), rows);
    }
  }

  /** The chain is linked from genesis to the head and marked in the tree. */
  ghost predicate Standing(w: World, l: Ledger) {
    && WellFormed(l.tree) && Acyclic(l.tree.blocks, w.depth) && Grounded(l.tree, w.depth)
    && Chained(l.tree.blocks, l.chain) && Current(l.tree, l.chain)
    && l.head == Last(l.chain) && l.headBlock == Header(l.tree.blocks, l.head)
    && l.future <= l.tree.blocks.Keys
  }

  /** Undo states are for blocks from `minUndo` on; while every block put on the chain has
      had the number of its place, index and undo history are as the chain's length says. */
  ghost predicate Counted(w: World, l: Ledger) {
    && UndoKnown(l.tree.blocks, l.undo, w.minUndo)
    && (l.regular ==> Regular(l.tree.blocks, l.chain, l.numToId, l.undo, w.minUndo, l.tallest))
  }

  /** What holds of a database whatever its rules do. */
  ghost predicate Ordered(w: World, l: Ledger) {
    Standing(w, l) && Counted(w, l)
  }

  /** The tables are what the chain leads to, and the undo states take back the blocks of
      the chain. */
  ghost predicate Backed(w: World, l: Ledger) {
    && l.rows == Replayed(w, l)
    && UndoRight(w.rules, l.tree.blocks, w.genesis, l.chain, l.undo)
  }

  ghost predicate Sound(w: World, l: Ledger) {
    Ordered(w, l) && Backed(w, l)
  }

  lemma HeadOfChain(w: World, l: Ledger)
    requires Standing(w, l)
    ensures l.chain == [] ==> l.head == NO_BLOCK && l.headBlock == NO_HEADER
    ensures l.chain != [] ==>
              && l.head in l.tree.blocks && l.headBlock == l.tree.blocks[l.head] && l.head in l.tree.forks
              && l.chain[|l.chain| - 1] == l.head && l.head in l.chain
              && l.headBlock.previous == Before(l.chain, |l.chain| - 1)
              && (l.headBlock.previous == NO_BLOCK || l.headBlock.previous in l.tree.blocks)
    ensures NO_BLOCK !in l.tree.blocks
  {
  }

  /** The ledger after a pop that found no undo state: the block is still the head, but no
      longer marked or listed. */
  ghost function Missed(l: Ledger): Ledger
    requires l.head in l.tree.forks
  {
    l.(tree := Included(l.tree, l.head, false), numToId := l.numToId - {l.headBlock.number})
  }

  lemma MissedIsBroken(w: World, l: Ledger)
    requires Standing(w, l) && l.chain != [] && l.head in l.tree.forks
    ensures !Standing(w, Missed(l))
  {
    HeadOfChain(w, l);
    assert !Current(Included(l.tree, l.head, false), l.chain);
  }

  /** The ledger after the head block was taken back. */
  ghost function Shortened(l: Ledger): Ledger
    requires l.chain != [] && l.head in l.tree.forks && l.head in l.undo
  {
    l.(tree := Included(l.tree, l.head, false), numToId := l.numToId - {l.headBlock.number},
       head := l.headBlock.previous, headBlock := Header(l.tree.blocks, l.headBlock.previous),
       rows := View(l.undo[l.head], l.rows), chain := l.chain[..|l.chain| - 1])
  }

  lemma ShortenedStands(w: World, l: Ledger)
    requires Standing(w, l) && l.chain != [] && l.head in l.tree.forks && l.head in l.undo
    ensures Standing(w, Shortened(l))
  {
    HeadOfChain(w, l);
    PopTree(l.tree, l.chain, Shortened(l).tree, Shortened(l).chain, w.depth);
    IncludedIsKept(l.tree, l.head, false, Shortened(l).tree, w.depth);
  }

  lemma ShortenedIsCounted(w: World, l: Ledger)
    requires Counted(w, l) && l.chain != [] && l.head == Last(l.chain) && l.headBlock == Header(l.tree.blocks, l.head)
    requires l.head in l.tree.forks && l.head in l.undo
    ensures Counted(w, Shortened(l))
  {
    if l.regular {
      assert Placed(l.tree.blocks, l.chain, l.numToId, l.undo, w.minUndo, l.tallest, |l.chain| - 1);
      PopRegular(l.tree.blocks, l.chain, l.numToId, l.undo, w.minUndo, l.tallest);
    }
  }

  /** Taking the head back keeps the order of the database whatever the rules do. */
  lemma ShortenedIsOrdered(w: World, l: Ledger, l': Ledger)
    requires Ordered(w, l) && l.chain != [] && l.head in l.tree.forks && l.head in l.undo && l' == Shortened(l)
    ensures Ordered(w, l')
  {
    ShortenedStands(w, l);
    ShortenedIsCounted(w, l);
  }

  /** It leads to the tables of the shorter chain exactly when no contract storage of that
      block slips. */
  lemma ShortenedIsSound(w: World, l: Ledger, l': Ledger)
    requires Sound(w, l) && l.chain != [] && l.head in l.tree.forks && l.head in l.undo && l' == Shortened(l)
    ensures Sound(w, l') <==> LastReversible(w, l.tree.blocks, l.chain)
  {
    ShortenedIsOrdered(w, l, l');
    ShortenedIsBacked(w, l, l');
  }

  lemma ShortenedIsBacked(w: World, l: Ledger, l': Ledger)
    requires Backed(w, l) && l.chain != [] && l.head == Last(l.chain)
    requires l.head in l.tree.forks && l.head in l.undo && l' == Shortened(l)
    ensures Backed(w, l') <==> LastReversible(w, l.tree.blocks, l.chain)
  {
    PopUndo(w.rules, l.tree.blocks, w.genesis, l.chain, l.undo, |l.chain| - 1);
    PopReplay(w.rules, l.tree.blocks, w.genesis, l.chain);
  }

  ghost function Added(w: World, l: Ledger, id: BlockId): Delta {
    w.rules.change(l.headBlock, id, Header(l.tree.blocks, id), l.rows)
  }

  ghost function UndoAfter(w: World, l: Ledger, id: BlockId): map<BlockId, Delta> {
    var number := Header(l.tree.blocks, id).number;
    if number < w.minUndo then l.undo
    else (l.undo - Pruned(l.numToId, number))[id := Undo(Added(w, l, id), l.rows)]
  }

  /** The ledger after a block was added to the chain. */
  ghost function Extended(w: World, l: Ledger, id: BlockId): Ledger
    requires id in l.tree.forks
  {
    var block, n := Header(l.tree.blocks, id), |l.chain| + 1;
    Ledger(
      Included(l.tree, id, true), UndoAfter(w, l, id), l.numToId[block.number := id], id, block,
      View(Added(w, l, id), l.rows), l.future, l.chain + [id],
      if l.tallest < n then n else l.tallest, l.regular && block.number == n)
  }

  /** A block known and linked whose predecessor is the head. */
  ghost predicate Follows(w: World, l: Ledger, id: BlockId) {
    id in l.tree.blocks && id in l.tree.forks && l.tree.forks[id].isLinked && l.tree.blocks[id].previous == l.head
  }

  lemma FollowerIsNew(w: World, l: Ledger, id: BlockId)
    requires Standing(w, l) && Follows(w, l, id)
    ensures id !in l.chain && id != NO_BLOCK
  {
    DeeperIsNew(l.tree.blocks, l.chain, id, w.depth);
  }

  lemma AddTree(t: Tree, chain: seq<BlockId>, id: BlockId, t': Tree, longer: seq<BlockId>)
    requires WellFormed(t) && Chained(t.blocks, chain) && Current(t, chain)
    requires id in t.blocks && id in t.forks && t.forks[id].isLinked && t.blocks[id].previous == Last(chain)
    requires t' == Included(t, id, true) && longer == chain + [id]
    ensures Current(t', longer) && Chained(t'.blocks, longer) && Last(longer) == id
  {
    ExtendCurrent(t, chain, id, t');
    ExtendChained(t.blocks, chain, id);
  }

  lemma ExtendedStands(w: World, l: Ledger, id: BlockId, l': Ledger)
    requires Standing(w, l) && Follows(w, l, id) && l' == Extended(w, l, id)
    ensures Standing(w, l')
  {
    AddTree(l.tree, l.chain, id, l'.tree, l'.chain);
    IncludedIsKept(l.tree, id, true, l'.tree, w.depth);
  }

  lemma ExtendedIsBacked(w: World, l: Ledger, id: BlockId, l': Ledger)
    requires Backed(w, l) && id in l.tree.blocks && id in l.tree.forks && l' == Extended(w, l, id)
    requires id !in l.chain && l.headBlock == Header(l.tree.blocks, Last(l.chain))
    requires UndoKnown(l.tree.blocks, l.undo, w.minUndo)
    ensures Backed(w, l')
  {
    ExtendUndo(w.rules, l.tree.blocks, w.genesis, l.chain, id, l.undo, l'.undo);
    ExtendReplay(w.rules, l.tree.blocks, w.genesis, l.chain, id);
  }

  lemma ExtendedIsCounted(w: World, l: Ledger, id: BlockId, l': Ledger)
    requires Counted(w, l) && id in l.tree.blocks && id in l.tree.forks && l' == Extended(w, l, id)
    requires id !in l.chain
    requires forall i, j | 0 <= i < j < |l.chain| :: l.chain[i] != l.chain[j]
    ensures Counted(w, l')
  {
    if l'.regular {
      ExtendRegular(l.tree.blocks, l.chain, id, l.numToId, l.undo, l'.undo, w.minUndo, l.tallest);
    }
  }

  /** Adding a block that follows the head keeps the order of the database. */
  lemma ExtendedIsOrdered(w: World, l: Ledger, id: BlockId, l': Ledger)
    requires Ordered(w, l) && Follows(w, l, id) && l' == Extended(w, l, id)
    ensures Ordered(w, l')
  {
    FollowerIsNew(w, l, id);
    ChainDistinct(l.tree.blocks, l.chain, w.depth);
    ExtendedStands(w, l, id, l');
    ExtendedIsCounted(w, l, id, l');
  }

  /** And the tables are those of the longer chain. */
  lemma ExtendedIsSound(w: World, l: Ledger, id: BlockId, l': Ledger)
    requires Sound(w, l) && Follows(w, l, id) && l' == Extended(w, l, id)
    ensures Sound(w, l')
  {
    FollowerIsNew(w, l, id);
    ExtendedIsOrdered(w, l, id, l');
    ExtendedIsBacked(w, l, id, l');
  }

  /** The next block has the number of its place exactly when it is one above the head's. */
  lemma StaysRegular(w: World, l: Ledger, id: BlockId)
    requires HeadCounted(l) && Follows(w, l, id)
    ensures Extended(w, l, id).regular <==> l.regular && InOrder(l.tree.blocks, id)
  {
  }

  /** While numbers are places, the head's is the length of the chain. */
  ghost predicate HeadCounted(l: Ledger) {
    && NO_BLOCK !in l.tree.blocks && (l.head == NO_BLOCK || l.head in l.tree.blocks)
    && (l.regular ==> if l.head == NO_BLOCK then l.chain == [] else l.tree.blocks[l.head].number == |l.chain|)
  }

  lemma HeadIsCounted(w: World, l: Ledger)
    requires Ordered(w, l)
    ensures HeadCounted(l)
  {
    HeadOfChain(w, l);
    if l.regular && l.chain != [] {
      assert Placed(l.tree.blocks, l.chain, l.numToId, l.undo, w.minUndo, l.tallest, |l.chain| - 1);
    }
  }

  /** Refusing a block that is not on the chain touches nothing but marks off the chain. */
  lemma RefusedIsOrdered(w: World, l: Ledger, id: BlockId, marked: set<BlockId>, l': Ledger)
    requires Ordered(w, l) && id in l.tree.blocks && id !in l.chain
    requires Descendants(l.tree, id, marked, w.depth)
    requires l' == l.(tree := l.tree.(forks := JudgeAll(l.tree.forks, marked + {id}, Some(false))))
    requires Kept(l.tree, l'.tree, w.depth)
    ensures Ordered(w, l')
  {
    RefusedStands(w, l, id, marked, l');
  }

  lemma RefusedStands(w: World, l: Ledger, id: BlockId, marked: set<BlockId>, l': Ledger)
    requires Standing(w, l) && id in l.tree.blocks && id !in l.chain
    requires Descendants(l.tree, id, marked, w.depth)
    requires l' == l.(tree := l.tree.(forks := JudgeAll(l.tree.forks, marked + {id}, Some(false))))
    requires Kept(l.tree, l'.tree, w.depth)
    ensures Standing(w, l')
  {
    RefusedCurrent(l.tree, l.chain, id, marked, l'.tree, w.depth);
  }

  //  The way to another branch

  /** `h` runs from `id` back along predecessors; all but its ends are off the chain. */
  ghost predicate Branch(t: Tree, h: seq<BlockId>, id: BlockId) {
    && |h| > 0 && h[0] == id
    && (forall i | 0 <= i < |h| - 1 :: h[i] in t.blocks)
    && (forall i {:trigger t.blocks[h[i]]} | 0 <= i < |h| - 1 :: t.blocks[h[i]].previous == h[i + 1])
    && (forall i | 0 < i < |h| - 1 :: h[i] in t.forks && !t.forks[h[i]].isIncluded)
  }

  lemma BranchGrows(t: Tree, h: seq<BlockId>, id: BlockId, longer: seq<BlockId>)
    requires Branch(t, h, id) && h[|h| - 1] in t.blocks
    requires |h| > 1 ==> h[|h| - 1] in t.forks && !t.forks[h[|h| - 1]].isIncluded
    requires longer == h + [t.blocks[h[|h| - 1]].previous]
    ensures Branch(t, longer, id)
  {
    forall i | 0 <= i < |longer| - 1 ensures longer[i] in t.blocks && t.blocks[longer[i]].previous == longer[i + 1] {
      assert longer[i] == h[i];
      if i < |h| - 1 {
        assert t.blocks[h[i]].previous == h[i + 1] == longer[i + 1];
      }
    }
    forall i | 0 < i < |longer| - 1 ensures longer[i] in t.forks && !t.forks[longer[i]].isIncluded {
      assert longer[i] == h[i];
    }
  }

  /** A linked block that is not genesis is known, and so is what it comes after. */
  lemma LinkedIsKnown(t: Tree, id: BlockId)
    requires WellFormed(t) && t.Linked(id) && id != NO_BLOCK
    ensures id in t.blocks && t.Linked(t.blocks[id].previous)
  {
    assert t.forks[id].isKnown;
    PredecessorLinked(t, id);
  }

  /** Follows predecessors from `id` to the first block of the current chain. It fails
      at a missing block or one that is not linked, and never for a linked block. */
  method GetForkHistory(t: Tree, id: BlockId, ghost depth: BlockId -> nat) returns (ok: bool, h: seq<BlockId>)
    requires WellFormed(t) && Acyclic(t.blocks, depth)
    ensures ok ==> |h| >= 2 && Branch(t, h, id)
    ensures ok ==> h[|h| - 1] == NO_BLOCK || (h[|h| - 1] in t.forks && t.forks[h[|h| - 1]].isIncluded)
    ensures t.Linked(id) && id != NO_BLOCK ==> ok && forall i | 0 <= i < |h| :: t.Linked(h[i])
  {
    h := [id];
    var next := id;
    while true
      invariant Branch(t, h, id) && h[|h| - 1] == next
      invariant |h| > 1 ==> next in t.forks && !t.forks[next].isIncluded
      invariant t.Linked(id) && id != NO_BLOCK ==> next != NO_BLOCK && forall i | 0 <= i < |h| :: t.Linked(h[i])
      decreases depth(next)
    {
      if t.Linked(id) && id != NO_BLOCK {
        LinkedIsKnown(t, next);
      }
      if next !in t.blocks { return false, h; }
      var previous := t.blocks[next].previous;
      BranchGrows(t, h, id, h + [previous]);
      h := h + [previous];
      if previous == NO_BLOCK { return true, h; }
      if !t.forks[previous].isLinked { return false, h; }
      if t.forks[previous].isIncluded { return true, h; }
      next := previous;
    }
  }

  /** The blocks of a branch above its last one, lowest first. */
  ghost function Upward(h: seq<BlockId>): seq<BlockId>
    requires |h| > 0
  {
    seq(|h| - 1, i requires 0 <= i < |h| - 1 => h[|h| - 2 - i])
  }

  lemma UpwardStep(h: seq<BlockId>, i: nat)
    requires 0 < i < |h|
    ensures Upward(h)[..|h| - i] == Upward(h)[..|h| - 1 - i] + [h[i - 1]]
  {
  }

  /** The lower end of a branch and all between is what its upper end comes after. */
  lemma {:induction false} BranchAbove(blocks: Blocks, h: seq<BlockId>, i: nat, depth: BlockId -> nat)
    requires Acyclic(blocks, depth) && i < |h|
    requires forall j | 0 <= j < |h| - 1 :: h[j] in blocks
    requires forall j {:trigger blocks[h[j]]} | 0 <= j < |h| - 1 :: blocks[h[j]].previous == h[j + 1]
    ensures Above(blocks, h[0], h[i], depth)
  {
    if i > 0 {
      BranchAbove(blocks, h, i - 1, depth);
      assert blocks[h[i - 1]].previous == h[i];
      AboveTrans(blocks, h[0], h[i - 1], h[i], depth);
    }
  }

  /** In a whole tree all of the branch of a switchable block is switchable. */
  lemma {:induction false} BranchCanLink(t: Tree, h: seq<BlockId>, i: nat)
    requires Whole(t) && i < |h| && t.CanLink(h[0])
    requires forall j | 0 <= j < |h| - 1 :: h[j] in t.blocks
    requires forall j {:trigger t.blocks[h[j]]} | 0 <= j < |h| - 1 :: t.blocks[h[j]].previous == h[j + 1]
    ensures t.CanLink(h[i])
  {
    if i > 0 {
      BranchCanLink(t, h, i - 1);
      assert t.blocks[h[i - 1]].previous == h[i];
    }
  }

  /** The place after `target` in the chain. */
  lemma ForkPoint(t: Tree, chain: seq<BlockId>, target: BlockId) returns (k: nat)
    requires Current(t, chain)
    requires target == NO_BLOCK || (target in t.forks && t.forks[target].isIncluded)
    ensures k <= |chain| && Before(chain, k) == target
  {
    if target == NO_BLOCK {
      k := 0;
    } else {
      assert target in chain;
      var i :| 0 <= i < |chain| && chain[i] == target;
      k := i + 1;
    }
  }

  /** Only one place of the chain comes after a given block. */
  lemma PlaceIsUnique(w: World, l: Ledger, k: nat)
    requires Standing(w, l) && k < |l.chain|
    ensures Before(l.chain, k) != l.head
  {
    ChainDistinct(l.tree.blocks, l.chain, w.depth);
    assert l.chain[|l.chain| - 1] in l.tree.blocks;
  }

  /** A shorter chain has the same places. */
  lemma PrefixPlace(chain: seq<BlockId>, shorter: seq<BlockId>, n: nat, k: nat)
    requires k < n <= |chain| && shorter == chain[..n][..n - 1]
    ensures shorter == chain[..n - 1] && |shorter| == n - 1 && Before(shorter, k) == Before(chain, k)
  {
  }

  //  A block arrives

  /** Putting a block into the tree keeps the order of the database. */
  lemma StoredIsOrdered(w: World, l: Ledger, id: BlockId, block: Block, l': Ledger, longest: BlockId, fork: ForkData)
    requires Ordered(w, l) && StoredTo(w, l, id, block, l', longest, fork)
    ensures Ordered(w, l')
  {
    StoredStands(w, l, id, block, l'.tree, l', longest, fork);
    StoredIsCounted(w, l, l'.tree, l');
  }

  /** And changes neither the tables nor what the chain leads to. */
  lemma StoredIsSound(w: World, l: Ledger, id: BlockId, block: Block, l': Ledger, longest: BlockId, fork: ForkData)
    requires Sound(w, l) && StoredTo(w, l, id, block, l', longest, fork)
    ensures Sound(w, l')
  {
    StoredIsOrdered(w, l, id, block, l', longest, fork);
    StoredIsBacked(w, l, l'.tree, l');
  }

  /** `l'` is `l` with the block in its tree. */
  ghost predicate StoredTo(w: World, l: Ledger, id: BlockId, block: Block, l': Ledger, longest: BlockId,
          fork: ForkData) {
    && id !in l.tree.blocks && id != NO_BLOCK
    && Kept(l.tree, l'.tree, w.depth) && l'.tree.blocks == l.tree.blocks[id := block] && Acyclic(l.tree.blocks, w.depth)
    && Grown(l.tree, l'.tree, id, block, longest, fork, w.depth) && l' == l.(tree := l'.tree)
  }

  lemma StoredStands(w: World, l: Ledger, id: BlockId, block: Block, t: Tree, l': Ledger, longest: BlockId,
          fork: ForkData)
    requires Standing(w, l) && id !in l.tree.blocks
    requires Kept(l.tree, t, w.depth) && t.blocks == l.tree.blocks[id := block]
    requires Grown(l.tree, t, id, block, longest, fork, w.depth) && l' == l.(tree := t)
    ensures Standing(w, l')
  {
    HeadOfChain(w, l);
    StoredChained(l.tree.blocks, t.blocks, l.chain);
    StoredCurrent(l.tree, t, l.chain);
  }

  lemma StoredChained(blocks: Blocks, more: Blocks, chain: seq<BlockId>)
    requires Chained(blocks, chain) && forall id | id in blocks :: id in more && more[id] == blocks[id]
    ensures Chained(more, chain)
  {
    forall i | 0 <= i < |chain| ensures chain[i] in more && more[chain[i]].previous == Before(chain, i) {
      assert chain[i] in blocks && blocks[chain[i]].previous == Before(chain, i);
    }
  }

  lemma StoredCurrent(t: Tree, t': Tree, chain: seq<BlockId>)
    requires Current(t, chain) && NO_BLOCK in t.forks
    requires forall x | x in t'.forks :: t'.forks[x].isIncluded <==> x in t.forks && t.forks[x].isIncluded
    requires forall x | t.CanLink(x) :: t'.CanLink(x)
    ensures Current(t', chain)
  {
    forall id | id in chain ensures id in t.forks {
      var i :| 0 <= i < |chain| && chain[i] == id;
      assert t.CanLink(chain[i]);
    }
    forall id | id in t'.forks ensures t'.forks[id].isIncluded <==> id == NO_BLOCK || id in chain {
      if id in t.forks {
        assert t.forks[id].isIncluded <==> id == NO_BLOCK || id in chain;
      }
    }
  }

  lemma StoredIsBacked(w: World, l: Ledger, t: Tree, l': Ledger)
    requires Backed(w, l) && Chained(l.tree.blocks, l.chain) && l' == l.(tree := t)
    requires forall id | id in l.tree.blocks :: id in t.blocks && t.blocks[id] == l.tree.blocks[id]
    requires NO_BLOCK !in l.tree.blocks && NO_BLOCK !in t.blocks
    ensures Backed(w, l')
  {
    forall i | 0 <= i < |l.chain| && l.chain[i] in l.undo
      ensures l.undo[l.chain[i]] == UndoAt(w.rules, t.blocks, w.genesis, l.chain, i)
    {
      assert l.undo[l.chain[i]] == UndoAt(w.rules, l.tree.blocks, w.genesis, l.chain, i);
      UndoGrows(w.rules, l.tree.blocks, t.blocks, w.genesis, l.chain, i);
    }
    ReplayGrows(w.rules, l.tree.blocks, t.blocks, w.genesis, l.chain);
  }

  lemma UndoGrows(rules: Rules, blocks: Blocks, more: Blocks, genesis: Rows, chain: seq<BlockId>, i: nat)
    requires Chained(blocks, chain) && i < |chain|
    requires forall id | id in blocks :: id in more && more[id] == blocks[id]
    requires NO_BLOCK !in blocks && NO_BLOCK !in more
    ensures UndoAt(rules, more, genesis, chain, i) == UndoAt(rules, blocks, genesis, chain, i)
  {
    ChainedPrefix(blocks, chain, i);
    ReplayGrows(rules, blocks, more, genesis, chain[..i]);
    assert chain[i] in blocks;
    assert i > 0 ==> chain[i - 1] in blocks;
  }

  lemma StoredIsCounted(w: World, l: Ledger, t: Tree, l': Ledger)
    requires Counted(w, l) && l' == l.(tree := t)
    requires forall id | id in l.tree.blocks :: id in t.blocks && t.blocks[id] == l.tree.blocks[id]
    ensures Counted(w, l')
  {
    if l.regular {
      forall i | 0 <= i < |l.chain| ensures Placed(t.blocks, l.chain, l.numToId, l.undo, w.minUndo, l.tallest, i) {
        assert Placed(l.tree.blocks, l.chain, l.numToId, l.undo, w.minUndo, l.tallest, i);
      }
    }
  }

  /** No block that can be switched to has a number above `n`. */
  ghost predicate NoneAbove(t: Tree, n: nat) {
    forall x | x in t.blocks && t.CanLink(x) :: t.blocks[x].number <= n
  }

  //  Runs

  datatype Verdict = Accepted | Early | Rejected

  /** The checks of a header against the head. */
  predicate Fits(head: BlockId, headBlock: Block, block: Block) {
    && (block.number > 1 ==> block.number == headBlock.number + 1)
    && block.previous == head
    && block.timestamp % BLOCK_INTERVAL == 0
    && (block.number > 1 ==> headBlock.timestamp < block.timestamp)
  }

  /** A block that comes next, told by numbers, links and times alone. */
  ghost predicate IsNext(l: Ledger, block: Block) {
    && block.previous == l.head && block.timestamp % 10 == 0
    && (block.number <= 1 || (block.number == l.headBlock.number + 1 && block.timestamp > l.headBlock.timestamp))
  }

  /** The verdict on a block at time `now`: on its header, its time, by the rules, and for
      the index entry that the undo history needs. */
  ghost function Judgement(w: World, now: nat, l: Ledger, id: BlockId): Verdict
    requires id in l.tree.blocks
  {
    var block := l.tree.blocks[id];
    if !Fits(l.head, l.headBlock, block) then Rejected
    else if block.timestamp > now + 2 * BLOCK_INTERVAL then Early
    else if
      && w.rules.accepts(now, l.headBlock, id, block, l.rows)
      && (block.number < w.minUndo || block.number <= MAX_UNDO_HISTORY || block.number - MAX_UNDO_HISTORY in l.numToId)
    then Accepted
    else Rejected
  }

  /** A block that can be taken back when it is the head. */
  ghost predicate Poppable(blocks: Blocks, undo: map<BlockId, Delta>, id: BlockId) {
    id in blocks && blocks[id].number != 0 && id in undo
  }

  /** `l'` is `l` with `id` and what comes after it marked invalid. */
  ghost predicate RefusedTo(w: World, l: Ledger, id: BlockId, l': Ledger) {
    && Kept(l.tree, l'.tree, w.depth)
    && exists marked :: Descendants(l.tree, id, marked, w.depth)
         && l' == l.(tree := l.tree.(forks := JudgeAll(l.tree.forks, marked + {id}, Some(false))))
  }

  /** The listed blocks whose time is not too long ago. */
  function Unexpired(now: nat, blocks: Blocks, listed: set<BlockId>): set<BlockId> {
    set x | x in listed && x in blocks && now - blocks[x].timestamp <= FUTURE_LIFETIME
  }

  /** Of the list `all`, those expired are gone except from those still to look at. */
  ghost predicate UnexpiredSince(now: nat, blocks: Blocks, all: set<BlockId>, todo: set<BlockId>,
          listed: set<BlockId>) {
    forall x :: x in listed <==> x in all && (x in todo || (x in blocks && now - blocks[x].timestamp <= FUTURE_LIFETIME))
  }

  lemma UnexpiredNone(now: nat, blocks: Blocks, all: set<BlockId>)
    ensures UnexpiredSince(now, blocks, all, all, all)
  {
  }

  lemma UnexpiredStep(now: nat, blocks: Blocks, all: set<BlockId>, todo: set<BlockId>, listed: set<BlockId>,
          id: BlockId, listed': set<BlockId>)
    requires UnexpiredSince(now, blocks, all, todo, listed) && id in todo && id in blocks
    requires listed' == if now - blocks[id].timestamp > FUTURE_LIFETIME then listed - {id} else listed
    ensures UnexpiredSince(now, blocks, all, todo - {id}, listed')
  {
  }

  lemma UnexpiredAll(now: nat, blocks: Blocks, all: set<BlockId>, listed: set<BlockId>)
    requires UnexpiredSince(now, blocks, all, {}, listed)
    ensures listed == Unexpired(now, blocks, all)
  {
  }

  /** `l'` is `l` with the expired blocks taken off the list, and no verdict on the others
      and what comes after them. */
  ghost predicate ReopenedTo(w: World, now: nat, l: Ledger, l': Ledger) {
    var listed := Unexpired(now, l.tree.blocks, l.future);
    Unchecked(l.tree, listed, l'.tree, w.depth) && l' == l.(tree := l'.tree, future := listed)
  }

  /** What happens to a database. */
  datatype Event =
    | Store(stored: BlockId, block: Block)
    | Pop
    | Extend(added: BlockId, at: nat)
    | Refuse(refused: BlockId, when: nat, early: bool)
    | List(listed: BlockId)
    | Uncheck(clock: nat)

  ghost predicate Step(w: World, l: Ledger, e: Event, l': Ledger) {
    match e
    case Store(id, block) => exists longest, fork :: StoredTo(w, l, id, block, l', longest, fork)
    case Pop => l.head in l.tree.forks && l.chain != [] && Poppable(l.tree.blocks, l.undo, l.head) && l' == Shortened(l)
    case Extend(id, now) => Follows(w, l, id) && Judgement(w, now, l, id) == Accepted && l' == Extended(w, l, id)
    case Refuse(id, now, early) =>
      && Follows(w, l, id) && Judgement(w, now, l, id) == (if early then Early else Rejected)
      && RefusedTo(w, l, id, l')
    case List(id) => id in l.tree.blocks && l' == l.(future := l.future + {id})
    case Uncheck(now) => ReopenedTo(w, now, l, l')
  }

  /** `ls` are the states before and after each of the events `es`. */
  ghost predicate Run(w: World, ls: seq<Ledger>, es: seq<Event>) {
    |ls| == |es| + 1 && forall i | 0 <= i < |es| :: Led(w, ls, es, i)
  }

  /** Event `i` led from its state to the next. */
  ghost predicate Led(w: World, ls: seq<Ledger>, es: seq<Event>, i: nat)
    requires i < |es| < |ls|
  {
    Step(w, ls[i], es[i], ls[i + 1])
  }

  ghost function Initial(w: World): Ledger {
    Ledger(EMPTY_TREE, map[], map[], NO_BLOCK, NO_HEADER, w.genesis, {}, [], 0, true)
  }

  lemma InitialIsSound(w: World)
    ensures Sound(w, Initial(w))
  {
  }

  lemma RunGoesOn(w: World, ls: seq<Ledger>, es: seq<Event>, l: Ledger, e: Event, l': Ledger)
    requires Run(w, ls, es) && ls[|ls| - 1] == l && Step(w, l, e, l')
    ensures Run(w, ls + [l'], es + [e])
  {
    NewlyLed(w, ls + [l'], es + [e], |es|, l, e, l');
    RunAndLed(w, ls, es, ls + [l'], es + [e]);
  }

  lemma RunAndLed(w: World, ls: seq<Ledger>, es: seq<Event>, ls': seq<Ledger>, es': seq<Event>)
    requires Run(w, ls, es) && ls <= ls' && es <= es' && |es'| == |es| + 1 && |ls'| == |es'| + 1
    requires Led(w, ls', es', |es|)
    ensures Run(w, ls', es')
  {
    forall i | 0 <= i < |es'| ensures Led(w, ls', es', i) {
      if i < |es| {
        SameLed(w, ls, es, i, ls', es', i);
      }
    }
  }

  lemma SameLed(w: World, ls: seq<Ledger>, es: seq<Event>, i: nat, ls': seq<Ledger>, es': seq<Event>, j: nat)
    requires Run(w, ls, es) && i < |es| && j < |es'| < |ls'|
    requires ls'[j] == ls[i] && es'[j] == es[i] && ls'[j + 1] == ls[i + 1]
    ensures Led(w, ls', es', j)
  {
    assert Led(w, ls, es, i);
  }

  lemma NewlyLed(w: World, ls: seq<Ledger>, es: seq<Event>, i: nat, l: Ledger, e: Event, l': Ledger)
    requires i < |es| < |ls| && ls[i] == l && es[i] == e && ls[i + 1] == l' && Step(w, l, e, l')
    ensures Led(w, ls, es, i)
  {
  }

  lemma StepIsOrdered(w: World, l: Ledger, e: Event, l': Ledger)
    requires Ordered(w, l) && Step(w, l, e, l')
    ensures Ordered(w, l')
  {
    match e
    case Store(id, block) =>
      var longest, fork :| StoredTo(w, l, id, block, l', longest, fork);
      StoredIsOrdered(w, l, id, block, l', longest, fork);
    case Pop => ShortenedIsOrdered(w, l, l');
    case Extend(id, now) => ExtendedIsOrdered(w, l, id, l');
    case Refuse(id, now, early) =>
      FollowerIsNew(w, l, id);
      RefusedToIsOrdered(w, l, id, l');
    case List(id) =>
    case Uncheck(now) => ReopenedIsOrdered(w, now, l, l');
  }

  /** Withdrawing verdicts touches neither the chain nor the tables. */
  lemma ReopenedIsOrdered(w: World, now: nat, l: Ledger, l': Ledger)
    requires Ordered(w, l) && ReopenedTo(w, now, l, l')
    ensures Ordered(w, l') && (Backed(w, l) ==> Backed(w, l'))
  {
    var listed := Unexpired(now, l.tree.blocks, l.future);
    UncheckedKeeps(l.tree, listed, l'.tree, false, w.depth);
    UncheckedGrounded(l.tree, listed, l'.tree, w.depth);
    ReopenedCurrent(l.tree, listed, l'.tree, l.chain, w.depth);
  }

  lemma ReopenedCurrent(t: Tree, listed: set<BlockId>, t': Tree, chain: seq<BlockId>, depth: BlockId -> nat)
    requires Current(t, chain) && Unchecked(t, listed, t', depth)
    ensures Current(t', chain)
  {
    forall i | 0 <= i < |chain| ensures t'.CanLink(chain[i]) {
      assert t.CanLink(chain[i]);
    }
  }

  lemma RefusedToIsOrdered(w: World, l: Ledger, id: BlockId, l': Ledger)
    requires Ordered(w, l) && id in l.tree.blocks && id !in l.chain && RefusedTo(w, l, id, l')
    ensures Ordered(w, l') && (Backed(w, l) ==> Backed(w, l'))
  {
    var marked :| Descendants(l.tree, id, marked, w.depth)
      && l' == l.(tree := l.tree.(forks := JudgeAll(l.tree.forks, marked + {id}, Some(false))));
    RefusedIsOrdered(w, l, id, marked, l');
  }

  /** The tables stay what the chain leads to at every step, except when a block is taken
      back whose change cannot be. */
  lemma StepIsSound(w: World, l: Ledger, e: Event, l': Ledger)
    requires Sound(w, l) && Step(w, l, e, l')
    ensures Sound(w, l') <==> (e.Pop? ==> LastReversible(w, l.tree.blocks, l.chain))
  {
    match e
    case Store(id, block) =>
      var longest, fork :| StoredTo(w, l, id, block, l', longest, fork);
      StoredIsSound(w, l, id, block, l', longest, fork);
    case Pop => ShortenedIsSound(w, l, l');
    case Extend(id, now) => ExtendedIsSound(w, l, id, l');
    case Refuse(id, now, early) =>
      FollowerIsNew(w, l, id);
      RefusedToIsOrdered(w, l, id, l');
    case List(id) => StepIsOrdered(w, l, e, l');
    case Uncheck(now) => ReopenedIsOrdered(w, now, l, l');
  }

  /** What holds before state `j` holds in it. */
  ghost predicate Carried(ls: seq<Ledger>, holds: Ledger -> bool, j: nat)
    requires 0 < j < |ls|
  {
    holds(ls[j - 1]) ==> holds(ls[j])
  }

  lemma {:induction false} Carries(ls: seq<Ledger>, holds: Ledger -> bool, i: nat)
    requires i < |ls| && holds(ls[0])
    requires forall j | 0 < j < |ls| :: Carried(ls, holds, j)
    ensures holds(ls[i])
  {
    if i > 0 {
      Carries(ls, holds, i - 1);
      assert Carried(ls, holds, i);
    }
  }

  lemma StepAt(w: World, ls: seq<Ledger>, es: seq<Event>, j: nat, l: Ledger, e: Event, l': Ledger)
    requires Run(w, ls, es) && 0 < j < |ls| && l == ls[j - 1] && e == es[j - 1] && l' == ls[j]
    ensures Step(w, l, e, l')
  {
    assert Led(w, ls, es, j - 1);
  }

  /** A block judged, whether it is added or refused. */
  lemma StaysSound(w: World, now: nat, l: Ledger, id: BlockId, ok: bool, l': Ledger)
    requires id in l.tree.blocks && l.tree.Linked(id) && id !in l.chain && (ok <==> Judgement(w, now, l, id) == Accepted)
    requires if ok then l' == Extended(w, l, id) else RefusedTo(w, l, id, l')
    ensures Sound(w, l) ==> Sound(w, l')
  {
    if Sound(w, l) {
      if ok {
        ExtendedIsSound(w, l, id, l');
      } else {
        RefusedToIsOrdered(w, l, id, l');
      }
    }
  }

  /** Every state of a run is in order, whatever the rules do. */
  lemma RunIsOrdered(w: World, ls: seq<Ledger>, es: seq<Event>, i: nat)
    requires Run(w, ls, es) && Ordered(w, ls[0]) && i < |ls|
    ensures Ordered(w, ls[i])
  {
    var holds := (l: Ledger) => Ordered(w, l);
    forall j | 0 < j < |ls| ensures Carried(ls, holds, j) {
      if holds(ls[j - 1]) {
        StepAt(w, ls, es, j, ls[j - 1], es[j - 1], ls[j]);
        StepIsOrdered(w, ls[j - 1], es[j - 1], ls[j]);
      }
    }
    Carries(ls, holds, i);
  }

  /** Each change taken back in a run can be. */
  ghost predicate Reversed(w: World, ls: seq<Ledger>, es: seq<Event>)
    requires |ls| == |es| + 1
  {
    forall j {:trigger es[j]} | 0 <= j < |es| && es[j].Pop? :: ls[j].chain != [] && LastReversible(w, ls[j].tree.blocks, ls[j].chain)
  }

  /** In every run from a sound state in which each block taken back can be, the tables
      are always the replay of the chain. */
  lemma RunIsSound(w: World, ls: seq<Ledger>, es: seq<Event>, i: nat)
    requires Run(w, ls, es) && Sound(w, ls[0]) && i < |ls| && Reversed(w, ls, es)
    ensures Sound(w, ls[i])
  {
    var holds := (l: Ledger) => Sound(w, l);
    forall j | 0 < j < |ls| ensures Carried(ls, holds, j) {
      if holds(ls[j - 1]) {
        StepAt(w, ls, es, j, ls[j - 1], es[j - 1], ls[j]);
        StepIsSound(w, ls[j - 1], es[j - 1], ls[j]);
      }
    }
    Carries(ls, holds, i);
  }

  /** And in no other run. */
  lemma SoundRunsReverse(w: World, ls: seq<Ledger>, es: seq<Event>)
    requires Run(w, ls, es) && forall i | 0 <= i < |ls| :: Sound(w, ls[i])
    ensures Reversed(w, ls, es)
  {
    forall j | 0 <= j < |es| && es[j].Pop? ensures ls[j].chain != [] && LastReversible(w, ls[j].tree.blocks, ls[j].chain) {
      StepAt(w, ls, es, j + 1, ls[j], es[j], ls[j + 1]);
      StepIsSound(w, ls[j], es[j], ls[j + 1]);
    }
  }

  //  When the marks stay judged

  /** What a step asks of a judged tree to leave it judged: a block added has nothing
      invalid waiting unlinked after it, and verdicts are withdrawn only where none stands
      before. */
  ghost predicate KeepsJudged(w: World, l: Ledger, e: Event) {
    match e
    case Extend(id, now) => id in l.tree.forks && Markable(l.tree, id)
    case Uncheck(now) =>
      && Shape(l.tree) && Acyclic(l.tree.blocks, w.depth)
      && Reopenable(l.tree, Unexpired(now, l.tree.blocks, l.future), w.depth)
    case _ => true
  }

  lemma ExtendIsJudged(w: World, l: Ledger, id: BlockId, l': Ledger)
    requires Standing(w, l) && Judged(l.tree) && Follows(w, l, id) && l'.tree == Included(l.tree, id, true)
    ensures Judged(l'.tree) <==> Markable(l.tree, id)
  {
    var t, t' := l.tree, l'.tree;
    if Markable(t, id) {
      IncludedKeeps(t, id, true, t', true);
    }
    if Judged(t') {
      HeadOfChain(w, l);
      assert l.chain != [] ==> t.CanLink(l.chain[|l.chain| - 1]);
      forall c | c in t.forks[id].next && c in t.forks && t.forks[c].Invalid() ensures t.forks[c].isLinked {
        assert c in t'.blocks && t'.blocks[c].previous == id && c != id;
        assert LinkFlags(t'.forks[id], t'.forks[c], true);
      }
    }
  }

  /** One step leaves a judged tree judged exactly under that condition. */
  lemma StepIsJudged(w: World, l: Ledger, e: Event, l': Ledger)
    requires Standing(w, l) && Judged(l.tree) && Step(w, l, e, l')
    ensures Judged(l'.tree) <==> KeepsJudged(w, l, e)
  {
    HeadOfChain(w, l);
    match e
    case Store(id, block) =>
    case Pop =>
      assert l.tree.CanLink(l.chain[|l.chain| - 1]);
      IncludedKeeps(l.tree, l.head, false, l'.tree, true);
    case Extend(id, now) => ExtendIsJudged(w, l, id, l');
    case Refuse(id, now, early) =>
    case List(id) =>
    case Uncheck(now) => UncheckedIsJudged(l.tree, Unexpired(now, l.tree.blocks, l.future), l'.tree, w.depth);
  }

  ghost predicate AlwaysJudged(ls: seq<Ledger>) {
    forall i | 0 <= i < |ls| :: Judged(ls[i].tree)
  }

  ghost predicate AllKeepJudged(w: World, ls: seq<Ledger>, es: seq<Event>)
    requires |ls| == |es| + 1
  {
    forall j {:trigger es[j]} | 0 <= j < |es| :: KeepsJudged(w, ls[j], es[j])
  }

  /** The tree is judged all through a run exactly when it is at the start and every step
      keeps it so. */
  lemma RunIsJudged(w: World, ls: seq<Ledger>, es: seq<Event>)
    requires Run(w, ls, es) && Ordered(w, ls[0])
    ensures AlwaysJudged(ls) <==> Judged(ls[0].tree) && AllKeepJudged(w, ls, es)
  {
    if AlwaysJudged(ls) {
      forall j | 0 <= j < |es| ensures KeepsJudged(w, ls[j], es[j]) {
        NextIsJudged(w, ls, es, j);
      }
    }
    if Judged(ls[0].tree) && AllKeepJudged(w, ls, es) {
      forall i | 0 <= i < |ls| ensures Judged(ls[i].tree) {
        JudgedUpTo(w, ls, es, i);
      }
    }
  }

  lemma NextIsJudged(w: World, ls: seq<Ledger>, es: seq<Event>, j: nat)
    requires Run(w, ls, es) && Ordered(w, ls[0]) && j < |es|
    ensures Judged(ls[j].tree) ==> (Judged(ls[j + 1].tree) <==> KeepsJudged(w, ls[j], es[j]))
  {
    RunIsOrdered(w, ls, es, j);
    StepAt(w, ls, es, j + 1, ls[j], es[j], ls[j + 1]);
    if Judged(ls[j].tree) {
      StepIsJudged(w, ls[j], es[j], ls[j + 1]);
    }
  }

  lemma JudgedUpTo(w: World, ls: seq<Ledger>, es: seq<Event>, i: nat)
    requires Run(w, ls, es) && Ordered(w, ls[0]) && i < |ls|
    requires Judged(ls[0].tree) && AllKeepJudged(w, ls, es)
    ensures Judged(ls[i].tree)
  {
    var holds := (l: Ledger) => Judged(l.tree);
    forall j | 0 < j < |ls| ensures Carried(ls, holds, j) {
      if holds(ls[j - 1]) {
        StaysJudged(w, ls, es, j - 1, ls[j - 1], ls[j]);
      }
    }
    Carries(ls, holds, i);
  }

  lemma StaysJudged(w: World, ls: seq<Ledger>, es: seq<Event>, j: nat, l: Ledger, l': Ledger)
    requires Run(w, ls, es) && Ordered(w, ls[0]) && j < |es| && l == ls[j] && l' == ls[j + 1]
    requires AllKeepJudged(w, ls, es) && Judged(l.tree)
    ensures Judged(l'.tree)
  {
    KeptAt(w, ls, es, j, l, es[j]);
    NextIsJudged(w, ls, es, j);
  }

  lemma KeptAt(w: World, ls: seq<Ledger>, es: seq<Event>, j: nat, l: Ledger, e: Event)
    requires |ls| == |es| + 1 && AllKeepJudged(w, ls, es) && j < |es| && l == ls[j] && e == es[j]
    ensures KeepsJudged(w, l, e)
  {
  }

  /** And one step leaves a whole tree whole exactly if it does not withdraw a verdict after
      one that stands. */
  lemma StepIsWhole(w: World, l: Ledger, e: Event, l': Ledger)
    requires Standing(w, l) && Whole(l.tree) && Step(w, l, e, l')
    ensures Whole(l'.tree) <==> (e.Uncheck? ==> Clear(l.tree, Unexpired(e.clock, l.tree.blocks, l.future), w.depth))
  {
    HeadOfChain(w, l);
    assert l.chain != [] ==> l.tree.CanLink(l.chain[|l.chain| - 1]);
    match e
    case Store(id, block) =>
    case Pop => IncludedIsWhole(l.tree, l.head, false, l'.tree);
    case Extend(id, now) => IncludedIsWhole(l.tree, id, true, l'.tree);
    case Refuse(id, now, early) =>
    case List(id) =>
    case Uncheck(now) => UncheckedIsWhole(l.tree, Unexpired(now, l.tree.blocks, l.future), l'.tree, w.depth);
  }

  lemma IncludedIsWhole(t: Tree, id: BlockId, included: bool, t': Tree)
    requires Whole(t) && t.Linked(id) && t' == Included(t, id, included)
    requires included && id in t.blocks ==> t.CanLink(t.blocks[id].previous)
    ensures Whole(t')
  {
    IncludedCanLink(t, id, included, t');
    forall x | x in t.blocks && t'.CanLink(x) ensures t'.CanLink(t.blocks[x].previous) {
      assert t.CanLink(x) || (included && x == id);
    }
  }

  //  When numbers are places

  /** Every block put on the chain up to state `i` is numbered one above the one before. */
  ghost predicate AddedInOrder(ls: seq<Ledger>, es: seq<Event>, i: nat)
    requires i <= |es| < |ls|
  {
    forall j {:trigger es[j]} | 0 <= j < i && es[j].Extend? :: es[j].added in ls[j].tree.blocks && InOrder(ls[j].tree.blocks, es[j].added)
  }

  lemma AddedOneMore(ls: seq<Ledger>, es: seq<Event>, i: nat)
    requires 0 < i <= |es| < |ls|
    ensures
      var e, blocks := es[i - 1], ls[i - 1].tree.blocks;
      AddedInOrder(ls, es, i) <==>
        (AddedInOrder(ls, es, i - 1) && (e.Extend? ==> e.added in blocks && InOrder(blocks, e.added)))
  {
  }

  /** In a run from genesis the chain has stayed regular exactly when that is so. */
  lemma {:induction false} RunIsRegular(w: World, ls: seq<Ledger>, es: seq<Event>, i: nat)
    requires Run(w, ls, es) && ls[0] == Initial(w) && i < |ls|
    ensures ls[i].regular <==> AddedInOrder(ls, es, i)
  {
    if i > 0 {
      RunIsRegular(w, ls, es, i - 1);
      HeadCountedAt(w, ls, es, i - 1, ls[i - 1]);
      NextIsRegular(w, ls, es, i, ls[i - 1], es[i - 1], ls[i]);
      AddedOneMore(ls, es, i);
    }
  }

  lemma NextIsRegular(w: World, ls: seq<Ledger>, es: seq<Event>, i: nat, l: Ledger, e: Event, l': Ledger)
    requires Run(w, ls, es) && HeadCounted(l) && 0 < i < |ls| && l == ls[i - 1] && e == es[i - 1] && l' == ls[i]
    ensures l'.regular <==> l.regular && (e.Extend? ==> e.added in l.tree.blocks && InOrder(l.tree.blocks, e.added))
  {
    StepAt(w, ls, es, i, l, e, l');
    if e.Extend? {
      StaysRegular(w, l, e.added);
    }
  }

  lemma HeadCountedAt(w: World, ls: seq<Ledger>, es: seq<Event>, i: nat, l: Ledger)
    requires Run(w, ls, es) && ls[0] == Initial(w) && i < |ls| && l == ls[i]
    ensures HeadCounted(l)
  {
    InitialIsSound(w);
    RunIsOrdered(w, ls, es, i);
    HeadIsCounted(w, l);
  }

  function Pops(n: nat): seq<Event> {
    seq(n, _ => Pop)
  }

  /** What the blocks of a chain from place `k` on change can be taken back. */
  ghost predicate ReversibleFrom(w: World, blocks: Blocks, chain: seq<BlockId>, k: nat) {
    forall n | k < n <= |chain| :: LastReversible(w, blocks, chain[..n])
  }

  /** `l'` is `l` with `j` blocks taken back. */
  ghost predicate Back(l: Ledger, j: nat, l': Ledger) {
    j <= |l.chain| && l'.chain == l.chain[..|l.chain| - j] && l'.tree.blocks == l.tree.blocks
  }

  lemma {:induction false} BackRun(w: World, ls: seq<Ledger>, es: seq<Event>, j: nat)
    requires Run(w, ls, es) && j < |ls| && |es| <= |ls[0].chain|
    requires forall i | 0 <= i < |es| :: es[i].Pop?
    ensures Back(ls[0], j, ls[j])
  {
    if j == 0 {
      assert ls[0].chain[..|ls[0].chain|] == ls[0].chain;
    } else {
      BackRun(w, ls, es, j - 1);
      StepAt(w, ls, es, j, ls[j - 1], es[j - 1], ls[j]);
      BackOnce(w, ls[0], j - 1, ls[j - 1], ls[j]);
    }
  }

  /** Taking blocks back from place `k` on leads to the tables of the shorter chain if
      the changes of those blocks can be taken back; no other block matters. */
  lemma PopsAreSound(w: World, ls: seq<Ledger>, es: seq<Event>, k: nat, j: nat)
    requires Run(w, ls, es) && j < |ls| && Sound(w, ls[0])
    requires forall i | 0 <= i < |es| :: es[i].Pop?
    requires k + |es| <= |ls[0].chain| && ReversibleFrom(w, ls[0].tree.blocks, ls[0].chain, k)
    ensures Sound(w, ls[j])
  {
    var chain := ls[0].chain;
    forall i | 0 <= i < |es| && es[i].Pop? ensures ls[i].chain != [] && LastReversible(w, ls[i].tree.blocks, ls[i].chain) {
      BackRun(w, ls, es, i);
      assert LastReversible(w, ls[0].tree.blocks, chain[..|chain| - i]);
    }
    RunIsSound(w, ls, es, j);
  }

  lemma RunSlice(w: World, ls: seq<Ledger>, es: seq<Event>, p: nat, q: nat)
    requires Run(w, ls, es) && p <= q <= |es|
    ensures Run(w, ls[p..q + 1], es[p..q])
  {
    var ls', es' := ls[p..q + 1], es[p..q];
    forall i | 0 <= i < |es'| ensures Led(w, ls', es', i) {
      SameLed(w, ls, es, p + i, ls', es', i);
    }
  }

  /** A run that first takes back the blocks from place `k` on, and then none, leaves the
      tables right if the changes of those blocks can be taken back. */
  lemma SwitchIsSound(w: World, ls: seq<Ledger>, es: seq<Event>, l: Ledger, k: nat, d: nat, l': Ledger)
    requires Run(w, ls, es) && ls[0] == l && ls[|es|] == l' && Sound(w, l) && d <= |es| && k + d == |l.chain|
    requires forall i | 0 <= i < |es| :: es[i].Pop? <==> i < d
    requires ReversibleFrom(w, l.tree.blocks, l.chain, k)
    ensures Sound(w, l')
  {
    PopsReversible(w, ls, es, k, d);
    RunIsSound(w, ls, es, |es|);
  }

  lemma PopsReversible(w: World, ls: seq<Ledger>, es: seq<Event>, k: nat, d: nat)
    requires Run(w, ls, es) && d <= |es| && k + d == |ls[0].chain|
    requires forall i | 0 <= i < |es| :: es[i].Pop? <==> i < d
    requires ReversibleFrom(w, ls[0].tree.blocks, ls[0].chain, k)
    ensures forall i {:trigger es[i]} | 0 <= i < |es| && es[i].Pop? :: ls[i].chain != [] && LastReversible(w, ls[i].tree.blocks, ls[i].chain)
  {
    var chain := ls[0].chain;
    RunSlice(w, ls, es, 0, d);
    forall i | 0 <= i < |es| && es[i].Pop? ensures ls[i].chain != [] && LastReversible(w, ls[i].tree.blocks, ls[i].chain) {
      BackRun(w, ls[0..d + 1], es[0..d], i);
      assert LastReversible(w, ls[0].tree.blocks, chain[..|chain| - i]);
    }
  }

  /** From `p` on, first `d` blocks are taken back and then none. */
  ghost predicate PopsFirst(es: seq<Event>, p: nat, d: nat) {
    p + d <= |es| && forall j | p <= j < |es| :: es[j].Pop? <==> j < p + d
  }

  /** The same for the end of a longer run. */
  lemma SoundSince(w: World, ls: seq<Ledger>, es: seq<Event>, p: nat, l: Ledger, k: nat)
    requires Run(w, ls, es) && p <= |es| && l == ls[p] && Sound(w, l) && k <= |l.chain|
    requires PopsFirst(es, p, |l.chain| - k)
    requires ReversibleFrom(w, l.tree.blocks, l.chain, k)
    ensures Sound(w, ls[|es|])
  {
    var ls', es', d := ls[p..|es| + 1], es[p..|es|], |l.chain| - k;
    SinceSlice(w, ls, es, p, l, d, ls', es');
    SwitchIsSound(w, ls', es', l, k, d, ls[|es|]);
  }

  lemma SoundAgain(w: World, ls: seq<Ledger>, es: seq<Event>, p: nat, l: Ledger, k: nat, l': Ledger)
    requires Run(w, ls, es) && p <= |es| && l == ls[p] && l' == ls[|es|] && k <= |l.chain|
    requires PopsFirst(es, p, |l.chain| - k)
    ensures Sound(w, l) && ReversibleFrom(w, l.tree.blocks, l.chain, k) ==> Sound(w, l')
  {
    if Sound(w, l) && ReversibleFrom(w, l.tree.blocks, l.chain, k) {
      SoundSince(w, ls, es, p, l, k);
    }
  }

  lemma SinceSlice(w: World, ls: seq<Ledger>, es: seq<Event>, p: nat, l: Ledger, d: nat, ls': seq<Ledger>,
          es': seq<Event>)
    requires Run(w, ls, es) && p <= |es| && l == ls[p] && PopsFirst(es, p, d)
    requires ls' == ls[p..|es| + 1] && es' == es[p..|es|]
    ensures Run(w, ls', es') && ls'[0] == l && ls'[|es'|] == ls[|es|] && d <= |es'|
    ensures forall i | 0 <= i < |es'| :: es'[i].Pop? <==> i < d
  {
    RunSlice(w, ls, es, p, |es|);
    PopsFirstSlice(es, p, d, es');
  }

  lemma PopsFirstSlice(es: seq<Event>, p: nat, d: nat, es': seq<Event>)
    requires PopsFirst(es, p, d) && p <= |es| && es' == es[p..|es|]
    ensures d <= |es'| && forall i | 0 <= i < |es'| :: es'[i].Pop? <==> i < d
  {
    forall i | 0 <= i < |es'| ensures es'[i].Pop? <==> i < d {
      assert es'[i] == es[p + i];
    }
  }

  lemma BackOnce(w: World, l0: Ledger, j: nat, l: Ledger, l': Ledger)
    requires Back(l0, j, l) && Step(w, l, Pop, l') && j < |l0.chain|
    ensures Back(l0, j + 1, l')
  {
    var n := |l0.chain| - j;
    assert l0.chain[..n][..n - 1] == l0.chain[..n - 1];
  }

  //  The tables after every run

  ghost predicate Within(blocks: Blocks, more: Blocks) {
    forall id | id in blocks :: id in more && more[id] == blocks[id]
  }

  lemma {:induction false} BlocksGrow(w: World, ls: seq<Ledger>, es: seq<Event>, i: nat, j: nat)
    requires Run(w, ls, es) && i <= j < |ls|
    ensures Within(ls[i].tree.blocks, ls[j].tree.blocks)
    decreases j
  {
    if i < j {
      BlocksGrow(w, ls, es, i, j - 1);
      NextGrows(w, ls, es, j, ls[j - 1], ls[j]);
    }
  }

  lemma NextGrows(w: World, ls: seq<Ledger>, es: seq<Event>, j: nat, l: Ledger, l': Ledger)
    requires Run(w, ls, es) && 0 < j < |ls| && l == ls[j - 1] && l' == ls[j]
    ensures Within(l.tree.blocks, l'.tree.blocks)
  {
    StepAt(w, ls, es, j, l, es[j - 1], l');
    StepGrows(w, l, es[j - 1], l');
  }

  lemma StepGrows(w: World, l: Ledger, e: Event, l': Ledger)
    requires Step(w, l, e, l')
    ensures Within(l.tree.blocks, l'.tree.blocks)
  {
  }

  lemma ReversibleBefore(w: World, blocks: Blocks, more: Blocks, chain: seq<BlockId>)
    requires Within(blocks, more) && NO_BLOCK !in blocks && NO_BLOCK !in more
    requires chain != [] && Chained(blocks, chain) && Reversible(w, more)
    ensures LastReversible(w, blocks, chain)
  {
    StoredChained(blocks, more, chain);
    assert LastReversible(w, more, chain);
    var n := |chain| - 1;
    ChainedPrefix(blocks, chain, n);
    ReplayGrows(w.rules, blocks, more, w.genesis, chain[..n]);
    assert chain[n] in blocks && (n > 0 ==> chain[n - 1] in blocks);
  }

  /** Where what the known blocks change can be taken back, whatever is taken back can be. */
  lemma RunTables(w: World, ls: seq<Ledger>, es: seq<Event>)
    requires Run(w, ls, es) && ls[0] == Initial(w) && Reversible(w, ls[|es|].tree.blocks)
    ensures Reversed(w, ls, es)
  {
    var more := ls[|es|].tree.blocks;
    InitialIsSound(w);
    ChainBefore(w, ls, es, |es|);
    forall j | 0 <= j < |es| && es[j].Pop? ensures ls[j].chain != [] && LastReversible(w, ls[j].tree.blocks, ls[j].chain) {
      PoppedIsReversible(w, ls, es, j, more);
    }
  }

  lemma PoppedIsReversible(w: World, ls: seq<Ledger>, es: seq<Event>, j: nat, more: Blocks)
    requires Run(w, ls, es) && Ordered(w, ls[0]) && j < |es| && es[j].Pop?
    requires more == ls[|es|].tree.blocks && NO_BLOCK !in more && Reversible(w, more)
    ensures ls[j].chain != [] && LastReversible(w, ls[j].tree.blocks, ls[j].chain)
  {
    PoppedHasChain(w, ls, es, j);
    ChainBefore(w, ls, es, j);
    BlocksGrow(w, ls, es, j, |es|);
    ReversibleBefore(w, ls[j].tree.blocks, more, ls[j].chain);
  }

  lemma PoppedHasChain(w: World, ls: seq<Ledger>, es: seq<Event>, j: nat)
    requires Run(w, ls, es) && j < |es| && es[j].Pop?
    ensures ls[j].chain != []
  {
    StepAt(w, ls, es, j + 1, ls[j], es[j], ls[j + 1]);
  }

  lemma ChainBefore(w: World, ls: seq<Ledger>, es: seq<Event>, j: nat)
    requires Run(w, ls, es) && Ordered(w, ls[0]) && j < |ls|
    ensures Chained(ls[j].tree.blocks, ls[j].chain) && NO_BLOCK !in ls[j].tree.blocks
  {
    RunIsOrdered(w, ls, es, j);
  }

  //  Who loses its standing

  /** `e` refuses `x` or a block that `x` comes after. */
  ghost predicate Rejects(w: World, l: Ledger, e: Event, x: BlockId) {
    e.Refuse? && Acyclic(l.tree.blocks, w.depth) && Above(l.tree.blocks, x, e.refused, w.depth)
  }

  /** Only a failed check takes from a block that it can be switched to. */
  lemma StepStanding(w: World, l: Ledger, e: Event, l': Ledger, x: BlockId)
    requires Standing(w, l) && Step(w, l, e, l') && l.tree.CanLink(x) && !l'.tree.CanLink(x)
    ensures Rejects(w, l, e, x)
  {
    HeadOfChain(w, l);
    match e
    case Store(id, block) =>
    case Pop =>
      assert l.tree.CanLink(l.chain[|l.chain| - 1]);
      IncludedCanLink(l.tree, l.head, false, l'.tree);
    case Extend(id, now) => IncludedCanLink(l.tree, id, true, l'.tree);
    case Refuse(id, now, early) =>
      var marked :| Descendants(l.tree, id, marked, w.depth)
        && l' == l.(tree := l.tree.(forks := JudgeAll(l.tree.forks, marked + {id}, Some(false))));
      RefusedStanding(l.tree, id, marked, l'.tree.forks, x, w.depth);
    case List(id) =>
    case Uncheck(now) =>
  }

  lemma {:induction false} FirstLoss(ls: seq<Ledger>, holds: Ledger -> bool, i: nat, j: nat) returns (m: nat)
    requires i <= j < |ls| && holds(ls[i]) && !holds(ls[j])
    ensures i <= m < j && holds(ls[m]) && !holds(ls[m + 1])
    decreases j
  {
    if holds(ls[j - 1]) {
      m := j - 1;
    } else {
      m := FirstLoss(ls, holds, i, j - 1);
    }
  }

  /** In a run, a block that could be switched to and no longer can was refused on the
      way, or comes after one that was. */
  lemma RunStanding(w: World, ls: seq<Ledger>, es: seq<Event>, i: nat, j: nat, x: BlockId) returns (m: nat)
    requires Run(w, ls, es) && Ordered(w, ls[0]) && i <= j < |ls|
    requires ls[i].tree.CanLink(x) && !ls[j].tree.CanLink(x)
    ensures i <= m < j && Rejects(w, ls[m], es[m], x)
  {
    m := FirstLoss(ls, (l: Ledger) => l.tree.CanLink(x), i, j);
    LossAt(w, ls, es, m, ls[m], es[m], ls[m + 1], x);
  }

  lemma LossAt(w: World, ls: seq<Ledger>, es: seq<Event>, m: nat, l: Ledger, e: Event, l': Ledger, x: BlockId)
    requires Run(w, ls, es) && Ordered(w, ls[0]) && m < |es| && l == ls[m] && e == es[m] && l' == ls[m + 1]
    requires l.tree.CanLink(x) && !l'.tree.CanLink(x)
    ensures Rejects(w, l, e, x)
  {
    RunIsOrdered(w, ls, es, m);
    StepAt(w, ls, es, m + 1, l, e, l');
    StepStanding(w, l, e, l', x);
  }

  /** Every block that could be switched to in state `i` and cannot in the last one was
      refused in between, or comes after one that was. */
  ghost predicate OnlyRejected(w: World, ls: seq<Ledger>, es: seq<Event>, i: nat)
    requires |ls| == |es| + 1 && i < |ls|
  {
    forall x | ls[i].tree.CanLink(x) && !ls[|ls| - 1].tree.CanLink(x) ::
      exists j | i <= j < |es| :: Rejects(w, ls[j], es[j], x)
  }

  lemma RunOnlyRejects(w: World, ls: seq<Ledger>, es: seq<Event>, i: nat)
    requires Run(w, ls, es) && ls[0] == Initial(w) && i < |ls|
    ensures OnlyRejected(w, ls, es, i)
  {
    InitialIsSound(w);
    forall x | ls[i].tree.CanLink(x) && !ls[|ls| - 1].tree.CanLink(x)
      ensures exists j | i <= j < |es| :: Rejects(w, ls[j], es[j], x)
    {
      var j := RunStanding(w, ls, es, i, |ls| - 1, x);
    }
  }

  //  What an unlinkable block brings back

  /** The listed branches that come back when a block arrives that cannot be linked are not
      higher than `n`, nor is the block if it comes after one of them. */
  ghost predicate NoneToReopen(w: World, now: nat, l: Ledger, block: Block, n: nat) {
    && Acyclic(l.tree.blocks, w.depth)
    && var listed := Unexpired(now, l.tree.blocks, l.future);
    && (forall x | x in l.tree.blocks && l.tree.Linked(x) && AboveSome(l.tree.blocks, x, listed, w.depth) :: l.tree.blocks[x].number <= n)
    && (l.tree.Linked(block.previous) && AboveSome(l.tree.blocks, block.previous, listed, w.depth) ==> block.number <= n)
  }

  lemma {:induction false} AboveLinked(t: Tree, id: BlockId, block: Block, more: Blocks, x: BlockId, y: BlockId,
          depth: BlockId -> nat)
    requires WellFormed(t) && Acyclic(t.blocks, depth) && id !in t.blocks && id != NO_BLOCK && t.Linked(x)
    requires more == t.blocks[id := block] && Acyclic(more, depth)
    ensures Above(more, x, y, depth) <==> Above(t.blocks, x, y, depth)
    decreases depth(x)
  {
    assert x != id && (x == NO_BLOCK || x in t.blocks) by {
      assert t.forks[x].isKnown;
    }
    if x != NO_BLOCK {
      PredecessorLinked(t, x);
      AboveLinked(t, id, block, more, t.blocks[x].previous, y, depth);
    }
  }

  /** Of linked blocks, those after a listed one are the same when a block has been stored. */
  lemma ConcernedSame(t: Tree, id: BlockId, block: Block, more: Blocks, listed: set<BlockId>, x: BlockId,
          depth: BlockId -> nat)
    requires WellFormed(t) && Acyclic(t.blocks, depth) && id !in t.blocks && id != NO_BLOCK && t.Linked(x)
    requires more == t.blocks[id := block] && Acyclic(more, depth)
    ensures AboveSome(more, x, listed, depth) <==> AboveSome(t.blocks, x, listed, depth)
  {
    forall y | y in listed ensures Above(more, x, y, depth) <==> Above(t.blocks, x, y, depth) {
      AboveLinked(t, id, block, more, x, y, depth);
    }
  }

  lemma ConcernedNew(blocks: Blocks, id: BlockId, listed: set<BlockId>, depth: BlockId -> nat)
    requires Acyclic(blocks, depth) && id in blocks && id !in listed
    ensures AboveSome(blocks, id, listed, depth) <==> AboveSome(blocks, blocks[id].previous, listed, depth)
  {
    if AboveSome(blocks, id, listed, depth) {
      var f :| f in listed && Above(blocks, id, f, depth);
    }
    if AboveSome(blocks, blocks[id].previous, listed, depth) {
      var f :| f in listed && Above(blocks, blocks[id].previous, f, depth);
      assert Above(blocks, id, f, depth);
    }
  }

  /** The stored block is concerned exactly when its predecessor is. */
  lemma ConcernedStored(t: Tree, id: BlockId, block: Block, more: Blocks, listed: set<BlockId>, depth: BlockId -> nat)
    requires WellFormed(t) && Acyclic(t.blocks, depth) && id !in t.blocks && id != NO_BLOCK && id !in listed
    requires t.Linked(block.previous)
    requires more == t.blocks[id := block] && Acyclic(more, depth)
    ensures AboveSome(more, id, listed, depth) <==> AboveSome(t.blocks, block.previous, listed, depth)
  {
    ConcernedNew(more, id, listed, depth);
    ConcernedSame(t, id, block, more, listed, block.previous, depth);
  }

  /** What storing an unlinkable block leaves to the links. */
  ghost predicate Unlinkable(t: Tree, id: BlockId, block: Block, t': Tree, listed: set<BlockId>,
          depth: BlockId -> nat) {
    && WellFormed(t) && Acyclic(t.blocks, depth) && id !in t.blocks && id != NO_BLOCK && listed <= t.blocks.Keys
    && t'.blocks == t.blocks[id := block] && Acyclic(t'.blocks, depth) && Shape(t') && !t'.CanLink(id) && !t.CanLink(block.previous)
    && (forall x :: t'.CanLink(x) <==> t.CanLink(x))
    && (forall x :: t'.Linked(x) <==> t.Linked(x) || (x == id && t.Linked(block.previous)))
  }

  lemma ReopenedCanLink(t: Tree, id: BlockId, block: Block, t1: Tree, listed: set<BlockId>, t': Tree, x: BlockId,
          depth: BlockId -> nat)
    requires Unlinkable(t, id, block, t1, listed, depth) && Unchecked(t1, listed, t', depth) && x in t.blocks
    ensures t'.blocks[x] == t.blocks[x]
    ensures t'.CanLink(x) <==> t.CanLink(x) || (t.Linked(x) && AboveSome(t.blocks, x, listed, depth))
  {
    UncheckedCanLink(t1, listed, t', x, depth);
    if t.Linked(x) {
      ConcernedSame(t, id, block, t1.blocks, listed, x, depth);
    }
  }

  lemma ReopenedNew(t: Tree, id: BlockId, block: Block, t1: Tree, listed: set<BlockId>, t': Tree, depth: BlockId -> nat)
    requires Unlinkable(t, id, block, t1, listed, depth) && Unchecked(t1, listed, t', depth)
    ensures t'.blocks == t.blocks[id := block] && !t.CanLink(id)
    ensures t'.CanLink(id) <==> t.Linked(block.previous) && AboveSome(t.blocks, block.previous, listed, depth)
  {
    UncheckedCanLink(t1, listed, t', id, depth);
    if t.Linked(block.previous) {
      ConcernedStored(t, id, block, t1.blocks, listed, depth);
    }
    UnknownIsUnlinked(t, id);
  }

  lemma UnknownIsUnlinked(t: Tree, id: BlockId)
    requires WellFormed(t) && id !in t.blocks && id != NO_BLOCK
    ensures !t.Linked(id)
  {
  }

  /** After an unlinkable block has brought the listed branches back, nothing that can be
      switched to is above `n` exactly if that was so before and none of them is. */
  lemma ReopenedHeights(t: Tree, id: BlockId, block: Block, t1: Tree, listed: set<BlockId>, t': Tree, n: nat,
          depth: BlockId -> nat)
    requires Unlinkable(t, id, block, t1, listed, depth) && Unchecked(t1, listed, t', depth) && NoneAbove(t, n)
    ensures NoneAbove(t', n) <==>
              && (forall x | x in t.blocks && t.Linked(x) && AboveSome(t.blocks, x, listed, depth) :: t.blocks[x].number <= n)
              && (t.Linked(block.previous) && AboveSome(t.blocks, block.previous, listed, depth) ==> block.number <= n)
  {
    forall x | x in t.blocks
      ensures t'.CanLink(x) <==> t.CanLink(x) || (t.Linked(x) && AboveSome(t.blocks, x, listed, depth))
    {
      ReopenedCanLink(t, id, block, t1, listed, t', x, depth);
    }
    ReopenedNew(t, id, block, t1, listed, t', depth);
    if NoneAbove(t', n) {
      forall x | x in t.blocks && t.Linked(x) && AboveSome(t.blocks, x, listed, depth) ensures t.blocks[x].number <= n {
        assert t'.CanLink(x) && t'.blocks[x] == t.blocks[x];
      }
    }
  }

  /** And the tree is whole exactly if it was so before and no verdict is withdrawn after one
      that stands. */
  lemma ReopenedWhole(t: Tree, id: BlockId, block: Block, t1: Tree, listed: set<BlockId>, t': Tree,
          depth: BlockId -> nat)
    requires Unlinkable(t, id, block, t1, listed, depth) && WellFormed(t1) && Unchecked(t1, listed, t', depth)
    requires Whole(t) && Whole(t1)
    ensures Whole(t') <==> Clear(t, listed, depth)
  {
    UncheckedIsWhole(t1, listed, t', depth);
    ClearSame(t, id, block, t1, listed, depth);
  }

  lemma ClearSame(t: Tree, id: BlockId, block: Block, t1: Tree, listed: set<BlockId>, depth: BlockId -> nat)
    requires Unlinkable(t, id, block, t1, listed, depth)
    ensures Clear(t1, listed, depth) <==> Clear(t, listed, depth)
  {
    forall x | x in t.blocks && t.Linked(x) ensures ClearAt(t1, listed, x, depth) <==> ClearAt(t, listed, x, depth) {
      SameClearAt(t, id, block, t1, listed, x, depth);
    }
    NewIsClear(t, id, block, t1, listed, depth);
    ClearIs(t, listed, depth);
    ClearIs(t1, listed, depth);
  }

  /** The condition of `Clear` at one block. */
  ghost predicate ClearAt(t: Tree, listed: set<BlockId>, x: BlockId, depth: BlockId -> nat)
    requires Acyclic(t.blocks, depth) && x in t.blocks
  {
    var p := t.blocks[x].previous;
    t.Linked(x) && AboveSome(t.blocks, x, listed, depth) ==> t.CanLink(p) || (p in t.blocks && AboveSome(t.blocks, p, listed, depth))
  }

  lemma ClearIs(t: Tree, listed: set<BlockId>, depth: BlockId -> nat)
    requires Shape(t) && Acyclic(t.blocks, depth)
    ensures Clear(t, listed, depth) <==> forall x | x in t.blocks && t.Linked(x) :: ClearAt(t, listed, x, depth)
  {
    if forall x | x in t.blocks && t.Linked(x) :: ClearAt(t, listed, x, depth) {
      forall x | x in t.blocks && t.Linked(x) && AboveSome(t.blocks, x, listed, depth)
        ensures
          var p := t.blocks[x].previous;
          t.CanLink(p) || (p in t.blocks && AboveSome(t.blocks, p, listed, depth))
      {
        assert ClearAt(t, listed, x, depth);
      }
    }
  }

  lemma SameClearAt(t: Tree, id: BlockId, block: Block, t1: Tree, listed: set<BlockId>, x: BlockId,
          depth: BlockId -> nat)
    requires Unlinkable(t, id, block, t1, listed, depth) && x in t.blocks && t.Linked(x)
    ensures ClearAt(t1, listed, x, depth) <==> ClearAt(t, listed, x, depth)
  {
    var p := t.blocks[x].previous;
    assert t1.blocks[x] == t.blocks[x];
    ConcernedSame(t, id, block, t1.blocks, listed, x, depth);
    PredecessorLinked(t, x);
    ConcernedSame(t, id, block, t1.blocks, listed, p, depth);
    assert p == NO_BLOCK || p in t.blocks by {
      assert t.forks[p].isKnown;
    }
  }

  lemma NewIsClear(t: Tree, id: BlockId, block: Block, t1: Tree, listed: set<BlockId>, depth: BlockId -> nat)
    requires Unlinkable(t, id, block, t1, listed, depth)
    ensures ClearAt(t1, listed, id, depth)
  {
    ConcernedNew(t1.blocks, id, listed, depth);
  }

  //  When a block can be taken back

  lemma PoppableInOrder(w: World, l: Ledger, i: nat)
    requires Counted(w, l) && l.regular && i < |l.chain|
    ensures Poppable(l.tree.blocks, l.undo, l.chain[i]) <==> Retained(i + 1, w.minUndo, l.tallest)
    ensures l.chain[i] in l.tree.blocks && l.tree.blocks[l.chain[i]].number != 0
  {
    assert Placed(l.tree.blocks, l.chain, l.numToId, l.undo, w.minUndo, l.tallest, i);
  }

  /** While numbers are places, the blocks from place `k` on can be taken back exactly when
      the lowest of them has not left the undo history. */
  lemma PopsInOrder(w: World, l: Ledger, k: nat)
    requires Counted(w, l) && l.regular && k <= |l.chain|
    ensures (forall i | k <= i < |l.chain| :: Poppable(l.tree.blocks, l.undo, l.chain[i]))
       <==> k == |l.chain| || Retained(k + 1, w.minUndo, l.tallest)
    ensures forall i | k <= i < |l.chain| :: l.chain[i] in l.tree.blocks && l.tree.blocks[l.chain[i]].number != 0
  {
    forall i | k <= i < |l.chain|
      ensures Poppable(l.tree.blocks, l.undo, l.chain[i]) <==> Retained(i + 1, w.minUndo, l.tallest)
      ensures l.chain[i] in l.tree.blocks && l.tree.blocks[l.chain[i]].number != 0
    {
      PoppableInOrder(w, l, i);
    }
    if k < |l.chain| {
      PoppableInOrder(w, l, k);
    }
  }

  //  When no switch can fail

  /** The blocks that can be switched to are numbered one above their predecessors. */
  ghost predicate SwitchableInOrder(t: Tree) {
    forall x | x in t.blocks && t.CanLink(x) :: InOrder(t.blocks, x)
  }

  /** A place `a` of the chain below which no switch has to go: every block that can be
      switched to is at or below it, or comes after it, and what is above it stays in the
      undo history while the chain grows to `top`. */
  ghost predicate Secure(w: World, l: Ledger, a: nat, top: nat) {
    && Acyclic(l.tree.blocks, w.depth) && Whole(l.tree) && l.regular && SwitchableInOrder(l.tree) && a <= |l.chain|
    && Retained(a + 1, w.minUndo, Max(l.tallest, top))
    && (forall x | x in l.tree.blocks && l.tree.CanLink(x) :: l.tree.blocks[x].number <= top && Anchored(w, l, a, x))
  }

  function Max(m: nat, n: nat): nat {
    if m < n then n else m
  }

  ghost predicate Anchored(w: World, l: Ledger, a: nat, x: BlockId)
    requires Acyclic(l.tree.blocks, w.depth) && a <= |l.chain|
  {
    x in l.chain[..a] || Above(l.tree.blocks, x, Before(l.chain, a), w.depth)
  }

  lemma SecurePops(w: World, l: Ledger, a: nat, top: nat, i: nat)
    requires Counted(w, l) && Secure(w, l, a, top) && a <= i < |l.chain|
    ensures Poppable(l.tree.blocks, l.undo, l.chain[i])
  {
    PoppableInOrder(w, l, i);
  }

  /** A block at or above the height of the chain, and not its head, is strictly after the
      place. */
  lemma StrictlyAfter(w: World, l: Ledger, a: nat, top: nat, x: BlockId)
    requires Ordered(w, l) && Secure(w, l, a, top)
    requires x in l.tree.blocks && l.tree.CanLink(x) && x != l.head && l.tree.blocks[x].number >= |l.chain|
    ensures x != Before(l.chain, a) && Above(l.tree.blocks, x, Before(l.chain, a), w.depth)
  {
    assert Anchored(w, l, a, x);
    forall i | 0 <= i < a ensures l.chain[i] != x {
      OnChain(w, l, l.chain[i], i);
    }
    assert forall i | 0 <= i < a :: l.chain[..a][i] == l.chain[i];
  }

  /** On a regular chain only the head has a number as high as the chain. */
  lemma OnChain(w: World, l: Ledger, x: BlockId, i: nat)
    requires Counted(w, l) && l.regular && l.head == Last(l.chain) && Current(l.tree, l.chain)
    requires i < |l.chain| && l.chain[i] == x
    ensures x in l.tree.blocks && l.tree.blocks[x].number == i + 1 && (i == |l.chain| - 1 ==> x == l.head)
    ensures l.tree.CanLink(x)
  {
    assert Placed(l.tree.blocks, l.chain, l.numToId, l.undo, w.minUndo, l.tallest, i);
  }

  /** A branch from a block strictly after a block of the chain meets the chain there or
      above. */
  lemma {:induction false} BranchStaysAbove(t: Tree, h: seq<BlockId>, base: BlockId, i: nat, depth: BlockId -> nat)
    requires Acyclic(t.blocks, depth) && |h| > 0 && Branch(t, h, h[0]) && i < |h|
    requires base in t.forks && t.forks[base].isIncluded
    requires h[0] != base && Above(t.blocks, h[0], base, depth)
    ensures Above(t.blocks, h[i], base, depth)
  {
    if i > 0 {
      BranchStaysAbove(t, h, base, i - 1, depth);
      var x := h[i - 1];
      assert x in t.blocks && t.blocks[x].previous == h[i];
      assert i > 1 ==> x in t.forks && !t.forks[x].isIncluded;
      assert x != base;
    }
  }

  /** Every place of the chain is marked. */
  lemma PlaceIncluded(t: Tree, chain: seq<BlockId>, a: nat)
    requires Shape(t) && Current(t, chain) && a <= |chain|
    ensures Before(chain, a) in t.forks && t.forks[Before(chain, a)].isIncluded
  {
    if a > 0 {
      assert t.CanLink(chain[a - 1]) && chain[a - 1] in chain;
    }
  }

  /** So no switch goes below the place. */
  lemma SecureFork(w: World, l: Ledger, a: nat, top: nat, h: seq<BlockId>, k: nat)
    requires Ordered(w, l) && Secure(w, l, a, top)
    requires |h| > 0 && Branch(l.tree, h, h[0]) && h[0] in l.tree.blocks && l.tree.CanLink(h[0])
    requires h[0] != l.head && l.tree.blocks[h[0]].number >= |l.chain|
    requires k <= |l.chain| && Before(l.chain, k) == h[|h| - 1]
    ensures a <= k
  {
    var base := Before(l.chain, a);
    StrictlyAfter(w, l, a, top, h[0]);
    PlaceIncluded(l.tree, l.chain, a);
    BranchStaysAbove(l.tree, h, base, |h| - 1, w.depth);
    AboveIsDeeper(l.tree.blocks, Before(l.chain, k), base, w.depth);
    if k < a {
      DepthGrows(l.tree.blocks, l.chain, k, a, w.depth);
    }
  }

  lemma DepthGrows(blocks: Blocks, chain: seq<BlockId>, k: nat, a: nat, depth: BlockId -> nat)
    requires Chained(blocks, chain) && Acyclic(blocks, depth) && k < a <= |chain|
    ensures depth(Before(chain, k)) < depth(Before(chain, a))
  {
    ChainedPrefix(blocks, chain, a);
    ChainDepth(blocks, chain[..a], k, depth);
    assert blocks[chain[k]].previous == Before(chain, k);
    assert chain[..a][k] == chain[k];
  }

  lemma SamePlace(chain: seq<BlockId>, chain': seq<BlockId>, a: nat)
    requires a <= |chain| && a <= |chain'| && chain[..a] == chain'[..a]
    ensures Before(chain, a) == Before(chain', a)
  {
    if a > 0 {
      assert chain[..a][a - 1] == chain'[..a][a - 1];
    }
  }

  /** A regular chain is as long as its head's number says, which bounds it. */
  lemma ChainUpTo(w: World, l: Ledger, top: nat)
    requires Counted(w, l) && l.regular && l.head == Last(l.chain) && Current(l.tree, l.chain)
    requires forall x | x in l.tree.blocks && l.tree.CanLink(x) :: l.tree.blocks[x].number <= top
    ensures |l.chain| <= top
  {
    if l.chain != [] {
      OnChain(w, l, l.chain[|l.chain| - 1], |l.chain| - 1);
    }
  }

  /** The place stays secure when a switch has failed at a refused block. */
  lemma SecureStays(w: World, l: Ledger, l': Ledger, a: nat, top: nat)
    requires Secure(w, l, a, top) && |l'.chain| <= Max(l.tallest, top) && l'.tree.blocks == l.tree.blocks
    requires Whole(l'.tree) && l'.regular
    requires forall x | l'.tree.CanLink(x) :: l.tree.CanLink(x)
    requires a <= |l'.chain| && l'.chain[..a] == l.chain[..a] && l'.tallest <= Max(l.tallest, |l'.chain|)
    ensures Secure(w, l', a, top)
  {
    SamePlace(l.chain, l'.chain, a);
    forall x | x in l'.tree.blocks && l'.tree.CanLink(x)
      ensures l'.tree.blocks[x].number <= top && Anchored(w, l', a, x) && InOrder(l'.tree.blocks, x)
    {
      assert Anchored(w, l, a, x) && InOrder(l.tree.blocks, x);
    }
  }

  /** A block that fits in numbers after its predecessor and is not higher than `top`. */
  ghost predicate FitsBelow(blocks: Blocks, x: BlockId, top: nat)
    requires x in blocks
  {
    InOrder(blocks, x) && blocks[x].number <= top
  }

  /** A place that will be secure once the block is stored. */
  ghost predicate SecureFor(w: World, l: Ledger, id: BlockId, block: Block, a: nat, top: nat) {
    && Acyclic(l.tree.blocks, w.depth) && Whole(l.tree) && l.regular && a <= |l.chain|
    && Retained(a + 1, w.minUndo, Max(l.tallest, top))
    && (forall x | x in l.tree.blocks && l.tree.CanLink(x) :: FitsBelow(l.tree.blocks, x, top) && Anchored(w, l, a, x))
    && (l.tree.CanLink(block.previous) ==>
          && Above(l.tree.blocks, block.previous, Before(l.chain, a), w.depth)
          && FitsBelow(l.tree.blocks[id := block], id, top)
          && forall x | x in l.tree.blocks && Above(l.tree.blocks, x, id, w.depth) :: FitsBelow(l.tree.blocks[id := block], x, top))
  }

  /** Nothing comes after a block that nothing waits for. */
  lemma {:induction false} NothingWaits(t: Tree, id: BlockId, x: BlockId, depth: BlockId -> nat)
    requires Shape(t) && Acyclic(t.blocks, depth) && Successors(t, id) == {} && x != id
    ensures !Above(t.blocks, x, id, depth)
    decreases depth(x)
  {
    if x in t.blocks {
      var p := t.blocks[x].previous;
      assert x in t.forks[p].next;
      NothingWaits(t, id, p, depth);
    }
  }

  /** Plain growth: where the chain is the only branch, its head is a secure place for the
      next block. */
  lemma ExtensionIsSecure(w: World, l: Ledger, id: BlockId, block: Block)
    requires Ordered(w, l) && Whole(l.tree) && l.regular && id != NO_BLOCK
    requires id !in l.tree.blocks && Successors(l.tree, id) == {}
    requires block.previous == l.head && block.number == |l.chain| + 1 && w.minUndo <= |l.chain| + 1
    requires forall x | x in l.tree.blocks && l.tree.CanLink(x) :: x in l.chain
    ensures SecureFor(w, l, id, block, |l.chain|, |l.chain| + 1)
  {
    var n := |l.chain|;
    assert l.chain[..n] == l.chain && Before(l.chain, n) == l.head;
    assert Retained(n + 1, w.minUndo, Max(l.tallest, n + 1)) by {
      assert l.tallest <= n + MAX_UNDO_HISTORY;
    }
    forall x | x in l.tree.blocks && l.tree.CanLink(x) ensures FitsBelow(l.tree.blocks, x, n + 1) && Anchored(w, l, n, x) {
      PlaceFits(w, l, x);
    }
    HeadFits(w, l, id, block);
    forall x | x in l.tree.blocks ensures !Above(l.tree.blocks, x, id, w.depth) {
      NothingWaits(l.tree, id, x, w.depth);
    }
  }

  lemma PlaceFits(w: World, l: Ledger, x: BlockId)
    requires Counted(w, l) && l.regular && l.head == Last(l.chain) && Current(l.tree, l.chain)
    requires Chained(l.tree.blocks, l.chain) && NO_BLOCK !in l.tree.blocks && x in l.chain
    ensures x in l.tree.blocks && FitsBelow(l.tree.blocks, x, |l.chain| + 1)
  {
    var i :| 0 <= i < |l.chain| && l.chain[i] == x;
    OnChain(w, l, x, i);
    assert l.tree.blocks[l.chain[i]].previous == Before(l.chain, i);
    if i > 0 {
      OnChain(w, l, l.chain[i - 1], i - 1);
    }
  }

  lemma HeadFits(w: World, l: Ledger, id: BlockId, block: Block)
    requires Counted(w, l) && l.regular && l.head == Last(l.chain) && Current(l.tree, l.chain)
    requires id !in l.tree.blocks && NO_BLOCK !in l.tree.blocks && id != NO_BLOCK
    requires block.previous == l.head && block.number == |l.chain| + 1
    ensures FitsBelow(l.tree.blocks[id := block], id, |l.chain| + 1)
  {
    if l.chain != [] {
      OnChain(w, l, l.head, |l.chain| - 1);
    }
  }

  /** A place secure for a block is secure once the block is stored. */
  lemma SecureStored(w: World, l: Ledger, id: BlockId, block: Block, l': Ledger, longest: BlockId, fork: ForkData,
          a: nat, top: nat)
    requires WellFormed(l.tree) && SecureFor(w, l, id, block, a, top) && StoredTo(w, l, id, block, l', longest, fork)
    ensures Secure(w, l', a, top)
  {
    forall x | x in l'.tree.blocks && l'.tree.CanLink(x)
      ensures InOrder(l'.tree.blocks, x) && FitsBelow(l'.tree.blocks, x, top) && Anchored(w, l', a, x)
    {
      if l.tree.CanLink(x) && x in l.tree.blocks {
        KnownStays(w, l, id, block, l', a, top, x);
      } else {
        assert !l.tree.CanLink(x) by {
          assert x == id ==> x in l.tree.forks ==> !l.tree.forks[x].isLinked;
        }
        NewStays(w, l, id, block, l', longest, fork, a, top, x);
      }
    }
  }

  lemma KnownStays(w: World, l: Ledger, id: BlockId, block: Block, l': Ledger, a: nat, top: nat, x: BlockId)
    requires WellFormed(l.tree) && Acyclic(l.tree.blocks, w.depth) && Acyclic(l'.tree.blocks, w.depth)
    requires id !in l.tree.blocks && id != NO_BLOCK
    requires l'.tree.blocks == l.tree.blocks[id := block] && l'.chain == l.chain && a <= |l.chain|
    requires x in l.tree.blocks && l.tree.CanLink(x) && FitsBelow(l.tree.blocks, x, top) && Anchored(w, l, a, x)
    ensures FitsBelow(l'.tree.blocks, x, top) && Anchored(w, l', a, x)
  {
    PredecessorLinked(l.tree, x);
    assert l.tree.blocks[x].previous != id by {
      assert id in l.tree.forks ==> !l.tree.forks[id].isKnown && !l.tree.forks[id].isLinked;
    }
    if x !in l.chain[..a] {
      AboveGrows(l.tree.blocks, l'.tree.blocks, x, Before(l.chain, a), w.depth);
    }
  }

  lemma NewStays(w: World, l: Ledger, id: BlockId, block: Block, l': Ledger, longest: BlockId, fork: ForkData, a: nat,
          top: nat, x: BlockId)
    requires SecureFor(w, l, id, block, a, top) && StoredTo(w, l, id, block, l', longest, fork)
    requires x in l'.tree.blocks && l'.tree.CanLink(x) && !l.tree.CanLink(x)
    ensures FitsBelow(l'.tree.blocks, x, top) && Anchored(w, l', a, x)
  {
    var base := Before(l.chain, a);
    AboveGrows(l.tree.blocks, l'.tree.blocks, block.previous, base, w.depth);
    AboveTrans(l'.tree.blocks, x, id, base, w.depth);
    if x != id {
      AboveBefore(l.tree.blocks, id, block, x, w.depth);
    }
  }

  /** With numbers in order, those of a branch count up from its lower end. */
  lemma {:induction false} BranchNumbers(blocks: Blocks, h: seq<BlockId>, base: nat, i: nat)
    requires NO_BLOCK !in blocks && i < |h| - 1
    requires forall j | 0 <= j < |h| - 1 :: h[j] in blocks && InOrder(blocks, h[j])
    requires forall j {:trigger blocks[h[j]]} | 0 <= j < |h| - 1 :: blocks[h[j]].previous == h[j + 1]
    requires if h[|h| - 1] in blocks then blocks[h[|h| - 1]].number == base else h[|h| - 1] == NO_BLOCK && base == 0
    ensures h[i] in blocks && blocks[h[i]].number == base + |h| - 1 - i
    decreases |h| - i
  {
    assert InOrder(blocks, h[i]) && blocks[h[i]].previous == h[i + 1];
    if i + 1 < |h| - 1 {
      BranchNumbers(blocks, h, base, i + 1);
    }
  }

  lemma PlaceNumber(w: World, l: Ledger, k: nat)
    requires Counted(w, l) && l.regular && l.head == Last(l.chain) && Current(l.tree, l.chain) && Shape(l.tree)
    requires k <= |l.chain|
    ensures
      var b := Before(l.chain, k);
      if b in l.tree.blocks then l.tree.blocks[b].number == k else b == NO_BLOCK && k == 0
    ensures NO_BLOCK !in l.tree.blocks
  {
    if k > 0 {
      OnChain(w, l, l.chain[k - 1], k - 1);
    }
  }
}
