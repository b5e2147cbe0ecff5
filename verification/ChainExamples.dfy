/** Databases, reached by arriving blocks, on which the code does less than it says. */
module ChainExamples {
  import opened UndoStates
  import opened ForkTree
  import opened ChainLedger
  import opened ChainRuns

  /** Rules that accept every block and change nothing. */
  const LENIENT := Rules((now, parent, id, block, rows) => true, (parent, id, block, rows) => Change(map[], map[], {}))

  const NO_ROWS: Rows := Tables(map[], map[])

  /** The surroundings of a node with these rules. */
  ghost function Node(rules: Rules, genesis: Rows): World {
    World(rules, genesis, 0, id => id)
  }

  /** A block whose predecessor is genesis. */
  function First(timestamp: nat): Block {
    Block(1, NO_BLOCK, timestamp, "")
  }

  /** Stores a block on one that can be switched to and that nothing waits for. */
  method StoreOn(db: ChainDatabase, id: BlockId, block: Block)
    requires db.Recorded() && id !in db.tree.blocks && id != NO_BLOCK
    requires db.world.depth(block.previous) < db.world.depth(id)
    requires db.tree.CanLink(block.previous)
    modifies db`tree, db.log
    ensures db.Recorded() && db.tree.blocks == old(db.tree).blocks[id := block]
    ensures db.tree.CanLink(id) && forall x | old(db.tree).CanLink(x) :: db.tree.CanLink(x)
    ensures old(db.log.past) <= db.log.past && db.log.events == old(db.log.events) + [Event.Store(id, block)]
  {
    var longest, fork := db.StoreBlock(id, block);
  }

  method NewNode(rules: Rules, genesis: Rows) returns (db: ChainDatabase)
    ensures fresh(db) && fresh(db.db) && fresh(db.log) && db.Recorded() && db.world == Node(rules, genesis)
    ensures db.Now() == Initial(db.world)
  {
    db := new ChainDatabase(rules, 0, genesis, id => id);
  }

  //  A fork that is too deep

  /** The chain of blocks numbered from 1 to `n`, ten seconds apart. */
  function MainBlocks(n: nat): Blocks {
    map i: nat | 1 <= i <= n :: Block(i, i - 1, 10 * i, "")
  }

  function MainChain(n: nat): seq<BlockId> {
    seq(n, i => i + 1)
  }

  ghost predicate OnMain(db: ChainDatabase, n: nat)
    reads db, db.db, db.log
  {
    && db.Recorded() && db.world == Node(LENIENT, NO_ROWS)
    && db.tree.blocks == MainBlocks(n) && db.chain == MainChain(n) && db.head == n
    && db.regular && db.tallest == n && db.tree.CanLink(n)
  }

  lemma MainGrows(n: nat)
    ensures MainBlocks(n + 1) == MainBlocks(n)[n + 1 := Block(n + 1, n, 10 * (n + 1), "")]
    ensures MainChain(n + 1) == MainChain(n) + [n + 1]
  {
  }

  lemma MainPasses(now: nat, l: Ledger, n: nat)
    requires l.head == n && n + 1 in l.tree.blocks && l.tree.blocks[n + 1] == Block(n + 1, n, 10 * (n + 1), "")
    requires l.headBlock == if n == 0 then NO_HEADER else Block(n, n - 1, 10 * n, "")
    requires 10 * (n + 1) <= now
    requires n + 1 <= MAX_UNDO_HISTORY || n + 1 - MAX_UNDO_HISTORY in l.numToId
    ensures Judgement(Node(LENIENT, NO_ROWS), now, l, n + 1) == Accepted
  {
  }

  method GrowMain(db: ChainDatabase, now: nat, n: nat)
    requires OnMain(db, n) && 10 * (n + 1) <= now
    modifies db, db.db, db.log
    ensures OnMain(db, n + 1)
  {
    MainGrows(n);
    StoreOn(db, n + 1, Block(n + 1, n, 10 * (n + 1), ""));
    db.ChainFacts(n);
    if n + 1 > MAX_UNDO_HISTORY {
      db.IndexFacts(n - MAX_UNDO_HISTORY);
    }
    MainPasses(now, db.Now(), n);
    var verdict := db.ExtendRecorded(now, n + 1);
    assert db.tree.CanLink(n + 1);
  }

  /** The way from a block whose predecessor is genesis. */
  lemma OneStep(t: Tree, h: seq<BlockId>, id: BlockId)
    requires Branch(t, h, id) && |h| > 1 && id in t.blocks && t.blocks[id].previous == NO_BLOCK && NO_BLOCK !in t.blocks
    ensures h == [id, NO_BLOCK] && Upward(h) == [id]
  {
    assert t.blocks[h[0]].previous == h[1];
  }

  /** Blocks 1 to 361 arrive in order, and then a block numbered 362 that forks off at
      genesis. It is not too old to be taken in, and higher than the head; but block 1 has
      left the undo history, so the switch to it is lost, and the head is stranded. */
  method LostExample() returns (db: ChainDatabase, outcome: SwitchOutcome)
    ensures outcome == Lost && db.Halted() && db.minUndo == 0 && Stranded(db.world, db.Now())
  {
    db := NewNode(LENIENT, NO_ROWS);
    var n := 0;
    while n < 361
      invariant n <= 361 && OnMain(db, n) && fresh(db) && fresh(db.db) && fresh(db.log)
    {
      GrowMain(db, 3610, n);
      n := n + 1;
    }
    outcome := ForkAtGenesis(db);
  }

  method ForkAtGenesis(db: ChainDatabase) returns (outcome: SwitchOutcome)
    requires OnMain(db, 361)
    modifies db, db.db, db.log
    ensures outcome == Lost && db.Halted() && db.minUndo == 0 && Stranded(db.world, db.Now())
  {
    db.GenesisFacts();
    StoreOn(db, 362, Block(362, NO_BLOCK, 10, ""));
    outcome := SwitchDeep(db);
  }

  method SwitchDeep(db: ChainDatabase) returns (outcome: SwitchOutcome)
    requires db.Recorded() && db.world == Node(LENIENT, NO_ROWS)
    requires db.tree.blocks == MainBlocks(361)[362 := Block(362, NO_BLOCK, 10, "")] && db.tree.CanLink(362)
    requires db.chain == MainChain(361) && db.head == 361 && db.regular && db.tallest == 361
    modifies db, db.db, db.log
    ensures outcome == Lost && db.Halted() && db.minUndo == 0 && Stranded(db.world, db.Now())
  {
    ghost var l := db.Now();
    ghost var h, k, m;
    outcome, h, k, m := db.SwitchToFork(3610, 362);
    DeepSwitch(db.world, l, outcome, h, k, m, db.Now());
  }

  lemma DeepSwitch(w: World, l: Ledger, outcome: SwitchOutcome, h: seq<BlockId>, k: nat, m: nat, l': Ledger)
    requires w == Node(LENIENT, NO_ROWS) && SwitchResult(w, 3610, l, 362, outcome, h, k, m, l')
    requires l.tree.blocks == MainBlocks(361)[362 := Block(362, NO_BLOCK, 10, "")]
    requires l.chain == MainChain(361) && l.head == 361
    requires outcome != Stuck && (outcome == Lost <==> k < |l.chain| && !Retained(k + 1, 0, 361))
    ensures outcome == Lost
  {
    if |h| > 1 {
      OneStep(l.tree, h, 362);
    }
  }

  //  A block numbered 0

  /** Stores a block that follows the head, and adds it to the chain. */
  method Grow(db: ChainDatabase, now: nat, id: BlockId, block: Block)
    requires db.Recorded() && db.world.rules.accepts(now, db.headBlock, id, block, db.db.tables)
    requires db.world.minUndo == 0
    requires id !in db.tree.blocks && id != NO_BLOCK && db.world.depth(block.previous) < db.world.depth(id)
    requires Fits(db.head, db.headBlock, block) && block.timestamp <= now && block.number <= MAX_UNDO_HISTORY
    modifies db, db.db, db.log
    ensures db.Recorded() && db.chain == old(db.chain) + [id] && db.head == id && db.headBlock == block
    ensures db.tree.blocks == old(db.tree).blocks[id := block] && old(db.undo.Keys) + {id} <= db.undo.Keys
    ensures db.tree.CanLink(id) && forall x | old(db.tree).CanLink(x) :: db.tree.CanLink(x)
    ensures db.future == old(db.future)
    ensures old(db.log.past) <= db.log.past
    ensures old(db.log.events) + [Event.Store(id, block), Event.Extend(id, now)] == db.log.events
  {
    db.HeadLinks();
    StoreOn(db, id, block);
    var verdict := db.ExtendRecorded(now, id);
    db.ChainFacts(id);
  }

  const TWO: Blocks := map[1 := First(10), 2 := Block(0, 1, 20, "")]
  const FOUR: Blocks := TWO[3 := Block(1, 2, 30, "")][4 := Block(2, 3, 40, "")]
  const SIX: Blocks := FOUR[5 := Block(2, 1, 20, "")][6 := Block(3, 5, 30, "")]

  /** The branch to block 6 leaves the chain at its first block. */
  lemma WayToSix(t: Tree, h: seq<BlockId>, k: nat)
    requires Branch(t, h, 6) && t.blocks == SIX && k <= 4 && Before([1, 2, 3, 4], k) == h[|h| - 1]
    requires 1 in t.forks && t.forks[1].isIncluded
    ensures k == 1 && |h| == 3
  {
    assert t.blocks[h[0]].previous == h[1] == 5;
    assert t.blocks[h[1]].previous == h[2] == 1;
  }

  /** That is below the block numbered 0. */
  lemma StuckSwitch(l: Ledger, outcome: SwitchOutcome, h: seq<BlockId>, k: nat, m: nat, l': Ledger)
    requires SwitchResult(Node(LENIENT, NO_ROWS), 100, l, 6, outcome, h, k, m, l') && l.chain == [1, 2, 3, 4]
    requires l.tree.blocks == SIX
    requires k == 1 && l.head == 4 && 3 in l.undo && 4 in l.undo
    ensures outcome == Stuck
  {
    assert !Poppable(l.tree.blocks, l.undo, l.chain[1]);
    var n := |l'.chain|;
    assert l'.chain[n - 1] == l.chain[n - 1];
  }

  /** Blocks 1 to 4 arrive; block 2 has the number 0, which is not compared with the
      head's, and block 4 makes the branch longer. Then 5 and 6 arrive on a branch from
      block 1, which is longer again: the switch to it never ends. */
  method StuckExample() returns (db: ChainDatabase, outcome: SwitchOutcome)
    ensures outcome == Stuck && db.Halted()
  {
    db := NewNode(LENIENT, NO_ROWS);
    GrowTwo(db);
    GrowFour(db);
    StoreSix(db);
    outcome := GetStuck(db);
  }

  method GrowTwo(db: ChainDatabase)
    requires db.Recorded() && db.world == Node(LENIENT, NO_ROWS) && db.Now() == Initial(db.world)
    modifies db, db.db, db.log
    ensures db.Recorded() && db.chain == [1, 2] && db.tree.blocks == TWO && db.head == 2 && db.headBlock == TWO[2]
    ensures db.tree.CanLink(1)
  {
    Grow(db, 100, 1, First(10));
    Grow(db, 100, 2, Block(0, 1, 20, ""));
  }

  method GrowFour(db: ChainDatabase)
    requires db.Recorded() && db.world == Node(LENIENT, NO_ROWS)
    requires db.chain == [1, 2] && db.tree.blocks == TWO && db.head == 2 && db.headBlock == TWO[2] && db.tree.CanLink(1)
    modifies db, db.db, db.log
    ensures db.Recorded() && db.chain == [1, 2, 3, 4] && db.tree.blocks == FOUR && db.head == 4 && db.tree.CanLink(1)
    ensures 3 in db.undo && 4 in db.undo
  {
    Grow(db, 100, 3, Block(1, 2, 30, ""));
    Grow(db, 100, 4, Block(2, 3, 40, ""));
  }

  method StoreSix(db: ChainDatabase)
    requires db.Recorded() && db.world == Node(LENIENT, NO_ROWS) && db.tree.blocks == FOUR && db.tree.CanLink(1)
    modifies db`tree, db.log
    ensures db.Recorded() && db.tree.blocks == SIX && db.tree.CanLink(6)
  {
    StoreOn(db, 5, Block(2, 1, 20, ""));
    StoreOn(db, 6, Block(3, 5, 30, ""));
  }

  method GetStuck(db: ChainDatabase) returns (outcome: SwitchOutcome)
    requires db.Recorded() && db.world == Node(LENIENT, NO_ROWS) && db.chain == [1, 2, 3, 4] && db.head == 4
    requires db.tree.blocks == SIX && db.tree.CanLink(6) && 3 in db.undo && 4 in db.undo
    modifies db, db.db, db.log
    ensures outcome == Stuck && db.Halted()
  {
    db.ChainFacts(1);
    ghost var l := db.Now();
    ghost var h, k, m;
    outcome, h, k, m := db.SwitchToFork(100, 6);
    WayToSix(l.tree, h, k);
    StuckSwitch(l, outcome, h, k, m, db.Now());
  }

  //  A block from the future

  /** Judges a block on the head whose time has not come, and lists the one pushed. */
  method RefuseEarly(db: ChainDatabase, now: nat, id: BlockId, pushed: BlockId)
    requires db.Recorded() && id in db.tree.blocks && db.tree.CanLink(id) && pushed in db.tree.blocks
    requires Fits(db.head, db.headBlock, db.tree.blocks[id]) && db.tree.blocks[id].timestamp > now + 2 * BLOCK_INTERVAL
    modifies db, db.db, db.log
    ensures db.Recorded() && Narrowed(old(db.tree), db.tree) && !db.tree.CanLink(id)
    ensures db.future == old(db.future) + {pushed} && db.chain == old(db.chain) && db.head == old(db.head)
    ensures db.undo == old(db.undo)
    ensures db.headBlock == old(db.headBlock) && Acyclic(db.tree.blocks, db.world.depth)
    ensures forall x | old(db.tree).CanLink(x) && !Above(db.tree.blocks, x, id, db.world.depth) :: db.tree.CanLink(x)
  {
    var verdict := db.ExtendRecorded(now, id);
    assert Above(db.tree.blocks, id, id, db.world.depth);
    db.ListBlock(pushed);
  }

  /** Block 1 is dated in the future, is refused and listed. Then a block arrives whose
      predecessor is not known: block 1 can be switched to again, and is above the head. */
  method FutureExample() returns (db: ChainDatabase, ghost before: Ledger)
    ensures db.Recorded() && Fine(before)
    ensures !NoneAbove(db.tree, db.headBlock.number)
  {
    db := NewNode(LENIENT, NO_ROWS);
    FutureRefused(db);
    before := db.Now();
    db.TreeFacts();
    OnlyRefused(before);
    var outcome := db.PushBlock(0, 5, Block(2, 4, 0, ""));
    FutureBack(before, db.Now());
  }

  method FutureRefused(db: ChainDatabase)
    requires db.Recorded() && db.world == Node(LENIENT, NO_ROWS) && db.Now() == Initial(db.world)
    modifies db, db.db, db.log
    ensures db.Recorded() && db.tree.blocks == map[1 := First(100)] && db.tree.Linked(1) && !db.tree.CanLink(1)
    ensures db.future == {1} && db.headBlock == NO_HEADER && db.tree.CanLink(NO_BLOCK)
  {
    db.GenesisFacts();
    StoreOn(db, 1, First(100));
    RefuseEarly(db, 0, 1, 1);
    db.GenesisFacts();
  }

  lemma OnlyRefused(l: Ledger)
    requires WellFormed(l.tree) && l.tree.blocks == map[1 := First(100)] && !l.tree.CanLink(1)
    ensures Fine(l)
  {
  }

  lemma FutureBack(l: Ledger, l': Ledger)
    requires WellFormed(l.tree) && l.tree.Linked(1) && l.tree.blocks == map[1 := First(100)]
    requires l.future == {1} && l.headBlock == NO_HEADER
    requires Reopens(Node(LENIENT, NO_ROWS), 0, l, Block(2, 4, 0, ""), l') && NoneAbove(l.tree, 0)
    ensures !NoneAbove(l'.tree, l'.headBlock.number)
  {
    var listed := Unexpired(0, l.tree.blocks, l.future);
    assert 1 in listed && AboveSome(l.tree.blocks, 1, listed, id => id) by {
      assert Above(l.tree.blocks, 1, 1, id => id);
    }
    assert !NoneToReopen(Node(LENIENT, NO_ROWS), 0, l, Block(2, 4, 0, ""), 0);
  }

  //  A verdict withdrawn after one that stands

  /** Rules that refuse block 3 and accept all others. */
  const STRICT := Rules((now, parent, id, block, rows) => id != 3, (parent, id, block, rows) => Change(map[], map[], {}))

  const RIVALS: Blocks := map[1 := First(10), 2 := Block(2, 1, 1000, ""), 10 := Block(1, 9, 0, "")]
  const RIVALS_AND_BRANCH: Blocks := RIVALS[3 := First(20)][4 := Block(2, 3, 30, "")]

  /** Block 1 is the head, and block 2 on it is dated in the future: it is refused and listed,
      and comes back when an unlinkable block arrives. Then block 4 arrives on block 3: block 2
      is tried again and refused for its time, so the block pushed, 4, is listed; then block 3
      is tried and fails for good. The next unlinkable block takes the verdict off block 4,
      which can then be switched to, though it comes after an invalid one. */
  method OrderExample() returns (db: ChainDatabase)
    ensures db.Recorded() && WellFormed(db.tree) && !Whole(db.tree) && !Judged(db.tree)
    ensures Acyclic(db.tree.blocks, db.world.depth)
    ensures exists x :: db.tree.CanLink(x) && !Rooted(db.tree, x, db.world.depth)
  {
    db := NewNode(STRICT, NO_ROWS);
    RivalsArrive(db);
    BranchFails(db);
    WithdrawVerdict(db);
    db.TreeFacts();
    if Judged(db.tree) {
      JudgedIsWhole(db.tree);
    }
    if forall x | db.tree.CanLink(x) :: Rooted(db.tree, x, db.world.depth) {
      RootedIsWhole(db.tree, db.world.depth);
    }
  }

  /** Block 1 is the head of a node with these rules. */
  ghost predicate AtFirst(db: ChainDatabase, blocks: Blocks, listed: set<BlockId>)
    reads db, db.db, db.log
  {
    && db.Recorded() && db.world == Node(STRICT, NO_ROWS) && db.tree.blocks == blocks && db.future == listed
    && db.chain == [1] && db.head == 1 && db.headBlock == First(10) && 1 in db.undo
    && db.tree.CanLink(NO_BLOCK) && db.tree.CanLink(1)
  }

  const ONE_AND_RIVAL: Blocks := map[1 := First(10), 2 := Block(2, 1, 1000, "")]

  method RivalsArrive(db: ChainDatabase)
    requires db.Recorded() && db.world == Node(STRICT, NO_ROWS) && db.Now() == Initial(db.world)
    modifies db, db.db, db.log
    ensures AtFirst(db, RIVALS, {2}) && db.tree.CanLink(2)
  {
    Grow(db, 100, 1, First(10));
    RivalRefused(db);
    RivalReturns(db);
  }

  method RivalRefused(db: ChainDatabase)
    requires db.Recorded() && db.world == Node(STRICT, NO_ROWS) && db.tree.blocks == map[1 := First(10)]
    requires db.future == {}
    requires db.chain == [1] && db.head == 1 && db.headBlock == First(10) && 1 in db.undo && db.tree.CanLink(1)
    modifies db, db.db, db.log
    ensures AtFirst(db, ONE_AND_RIVAL, {2}) && !db.tree.CanLink(2) && db.tree.Linked(2)
  {
    StoreOn(db, 2, Block(2, 1, 1000, ""));
    RefuseEarly(db, 100, 2, 2);
    db.GenesisFacts();
  }

  method RivalReturns(db: ChainDatabase)
    requires AtFirst(db, ONE_AND_RIVAL, {2}) && !db.tree.CanLink(2) && db.tree.Linked(2)
    modifies db, db.db, db.log
    ensures AtFirst(db, RIVALS, {2}) && db.tree.CanLink(2)
  {
    ghost var l := db.Now();
    db.TreeFacts();
    HeadIsFine(l);
    var outcome := db.PushBlock(100, 10, Block(1, 9, 0, ""));
    RivalIsBack(l, db.Now());
    db.GenesisFacts();
    db.HeadLinks();
  }

  lemma HeadIsFine(l: Ledger)
    requires WellFormed(l.tree) && l.tree.blocks == ONE_AND_RIVAL && l.headBlock == First(10) && !l.tree.CanLink(2)
    ensures NoneAbove(l.tree, 1) && !l.tree.Linked(9)
  {
    UnknownIsUnlinked(l.tree, 9);
  }

  lemma RivalReopens(l: Ledger)
    requires l.tree.blocks == ONE_AND_RIVAL && l.tree.Linked(2) && l.future == {2}
    ensures Unexpired(100, l.tree.blocks, l.future) == {2}
    ensures !NoneToReopen(Node(STRICT, NO_ROWS), 100, l, Block(1, 9, 0, ""), 1)
  {
    assert AboveSome(l.tree.blocks, 2, {2}, id => id) by {
      assert Above(l.tree.blocks, 2, 2, id => id);
    }
  }

  lemma RivalIsBack(l: Ledger, l': Ledger)
    requires l.tree.blocks == ONE_AND_RIVAL && l'.tree.blocks == RIVALS
    requires l.tree.Linked(2) && l.future == {2} && l.headBlock == First(10) && NoneAbove(l.tree, 1)
    requires Reopens(Node(STRICT, NO_ROWS), 100, l, Block(1, 9, 0, ""), l')
    ensures l'.future == {2} && l'.tree.CanLink(2)
  {
    RivalReopens(l);
    assert !NoneAbove(l'.tree, 1);
  }

  method BranchFails(db: ChainDatabase)
    requires AtFirst(db, RIVALS, {2}) && db.tree.CanLink(2)
    modifies db, db.db, db.log
    ensures AtFirst(db, RIVALS_AND_BRANCH, {2, 4})
    ensures !db.tree.CanLink(2) && !db.tree.CanLink(3) && !db.tree.CanLink(4) && db.tree.Linked(4)
  {
    StoreOn(db, 3, First(20));
    StoreOn(db, 4, Block(2, 3, 30, ""));
    RefuseEarly(db, 100, 2, 4);
    db.GenesisFacts();
    TakeBackFirst(db);
    RefuseBranch(db);
    ReturnToFirst(db);
  }

  method TakeBackFirst(db: ChainDatabase)
    requires AtFirst(db, RIVALS_AND_BRANCH, {2, 4}) && !db.tree.CanLink(2) && db.tree.Linked(4) && db.tree.CanLink(3)
    modifies db, db.db, db.log
    ensures AtNone(db) && !db.tree.CanLink(2) && db.tree.CanLink(3)
  {
    var outcome := db.PopRecorded();
    db.ChainFacts(0);
    db.GenesisFacts();
  }

  ghost predicate AtNone(db: ChainDatabase)
    reads db, db.db, db.log
  {
    && db.Recorded() && db.world == Node(STRICT, NO_ROWS) && db.tree.blocks == RIVALS_AND_BRANCH && db.future == {2, 4}
    && db.chain == [] && db.head == NO_BLOCK && db.headBlock == NO_HEADER && db.tree.CanLink(1) && db.tree.Linked(4)
  }

  lemma AboveThree()
    ensures Acyclic(RIVALS_AND_BRANCH, id => id)
    ensures Above(RIVALS_AND_BRANCH, 3, 3, id => id) && Above(RIVALS_AND_BRANCH, 4, 3, id => id)
    ensures !Above(RIVALS_AND_BRANCH, 1, 3, id => id)
  {
  }

  method RefuseBranch(db: ChainDatabase)
    requires AtNone(db) && !db.tree.CanLink(2) && db.tree.CanLink(3)
    modifies db, db.db, db.log
    ensures AtNone(db) && !db.tree.CanLink(3) && !db.tree.CanLink(4)
    ensures !db.tree.CanLink(2)
  {
    AboveThree();
    var verdict := db.ExtendRecorded(100, 3);
  }

  method ReturnToFirst(db: ChainDatabase)
    requires AtNone(db) && !db.tree.CanLink(2) && !db.tree.CanLink(3) && !db.tree.CanLink(4)
    modifies db, db.db, db.log
    ensures AtFirst(db, RIVALS_AND_BRANCH, {2, 4})
    ensures !db.tree.CanLink(2) && !db.tree.CanLink(3) && !db.tree.CanLink(4) && db.tree.Linked(4)
  {
    var verdict := db.ExtendRecorded(100, 1);
    db.ChainFacts(0);
    db.GenesisFacts();
  }

  method WithdrawVerdict(db: ChainDatabase)
    requires AtFirst(db, RIVALS_AND_BRANCH, {2, 4})
    requires !db.tree.CanLink(2) && !db.tree.CanLink(3) && !db.tree.CanLink(4) && db.tree.Linked(4)
    modifies db, db.db, db.log
    ensures db.Recorded() && !Whole(db.tree)
  {
    BeforeWithdrawal(db);
    var outcome := db.PushBlock(100, 12, Block(1, 11, 0, ""));
  }

  lemma BeforeWithdrawal(db: ChainDatabase)
    requires AtFirst(db, RIVALS_AND_BRANCH, {2, 4})
    requires !db.tree.CanLink(2) && !db.tree.CanLink(3) && !db.tree.CanLink(4) && db.tree.Linked(4)
    ensures Whole(db.tree) && !db.tree.CanLink(11) && !ClearNow(db.world, 100, db.Now())
  {
    db.TreeFacts();
    StillWhole(db.Now());
    NotClear(db.Now());
  }

  lemma Unknown(t: Tree, x: BlockId, y: BlockId)
    requires WellFormed(t) && x in t.blocks && t.blocks[x].previous == y && y !in t.blocks && y != NO_BLOCK
    ensures !t.Linked(x)
  {
    UnknownIsUnlinked(t, y);
    if t.Linked(x) {
      PredecessorLinked(t, x);
    }
  }

  lemma StillWhole(l: Ledger)
    requires WellFormed(l.tree) && l.tree.blocks == RIVALS_AND_BRANCH
    requires l.tree.CanLink(NO_BLOCK) && !l.tree.CanLink(2) && !l.tree.CanLink(3) && !l.tree.CanLink(4)
    ensures Whole(l.tree) && !l.tree.Linked(11)
  {
    Unknown(l.tree, 10, 9);
    UnknownIsUnlinked(l.tree, 11);
    OnlyFirst(l.tree);
  }

  lemma OnlyFirst(t: Tree)
    requires t.blocks == RIVALS_AND_BRANCH && t.CanLink(NO_BLOCK)
    requires !t.CanLink(2) && !t.CanLink(3) && !t.CanLink(4) && !t.CanLink(10)
    ensures Whole(t)
  {
  }

  lemma NotClear(l: Ledger)
    requires l.tree.blocks == RIVALS_AND_BRANCH && l.future == {2, 4} && l.tree.Linked(4) && !l.tree.CanLink(3)
    ensures !ClearNow(Node(STRICT, NO_ROWS), 100, l)
  {
    var listed := Unexpired(100, l.tree.blocks, l.future);
    assert 4 in listed && AboveSome(l.tree.blocks, 4, listed, id => id) by {
      assert Above(l.tree.blocks, 4, 4, id => id);
    }
    assert !Above(l.tree.blocks, 3, 2, id => id) && !Above(l.tree.blocks, 3, 4, id => id);
    assert !AboveSome(l.tree.blocks, 3, listed, id => id);
    assert l.tree.blocks[4].previous == 3;
  }

  //  A waiting block lower than the one it waits for

  const WAITING: Blocks := map[1 := First(10), 3 := Block(1, 2, 30, "")]

  /** Block 1 is the head; block 3, numbered 1, waits for block 2, which arrives and is
      numbered 2. The branch completed is measured by block 3, which is not higher than the
      head: nothing is tried, and block 2 can be switched to above the head. */
  method WaitingExample() returns (db: ChainDatabase)
    ensures db.Recorded() && db.tree.CanLink(2) && !NoneAbove(db.tree, db.headBlock.number)
  {
    db := NewNode(LENIENT, NO_ROWS);
    Grow(db, 100, 1, First(10));
    var longest, fork := db.StoreBlock(3, Block(1, 2, 30, ""));
    AwaitedArrives(db);
  }

  /** The steps with which the database takes in block 2. */
  method AwaitedArrives(db: ChainDatabase)
    requires db.Recorded() && db.world == Node(LENIENT, NO_ROWS) && db.tree.blocks == WAITING
    requires db.head == 1 && db.headBlock == First(10) && db.tree.CanLink(1)
    modifies db, db.db, db.log
    ensures db.Recorded() && db.tree.CanLink(2) && !NoneAbove(db.tree, db.headBlock.number)
  {
    ghost var l := db.Now();
    db.TreeFacts();
    var longest, fork := db.StoreBlock(2, Block(2, 1, 20, ""));
    LowerIsReturned(l, db.Now(), longest, fork);
    if fork.CanLink() {
      var outcome := db.TryLongest(100, longest, 2, 0, 0);
    } else {
      ghost var l1 := db.Now();
      db.ClearInvalidation(100);
      StillLinks(l1, db.Now());
    }
  }

  lemma LowerIsReturned(l: Ledger, l': Ledger, longest: BlockId, fork: ForkData)
    requires WellFormed(l.tree) && l.tree.blocks == WAITING && l.tree.CanLink(1)
    requires StoredTo(Node(LENIENT, NO_ROWS), l, 2, Block(2, 1, 20, ""), l', longest, fork)
    ensures l'.tree.CanLink(2) && l'.tree.blocks[2].number == 2
    ensures fork.CanLink() ==> longest in l'.tree.blocks && l'.tree.blocks[longest].number <= 1
  {
    NotReaching(l.tree);
    LowerIs(l.tree, l'.tree, longest, fork);
  }

  lemma LowerIs(t: Tree, t': Tree, longest: BlockId, fork: ForkData)
    requires t.blocks == WAITING && t'.blocks == WAITING[2 := Block(2, 1, 20, "")] && t.CanLink(1)
    requires Acyclic(t.blocks, id => id) && Acyclic(t'.blocks, id => id)
    requires Grown(t, t', 2, Block(2, 1, 20, ""), longest, fork, id => id)
    requires !Reaching(t, 2, Block(2, 1, 20, ""), id => id)
    ensures t'.CanLink(2)
    ensures fork.CanLink() ==> longest in t'.blocks && t'.blocks[longest].number <= 1
  {
    assert !Topped(t, t', longest, fork);
  }

  lemma NotReaching(t: Tree)
    requires WellFormed(t) && t.blocks == WAITING && Acyclic(t.blocks, id => id)
    ensures !Reaching(t, 2, Block(2, 1, 20, ""), id => id)
  {
    assert t.blocks[3].previous == 2 && 3 in t.forks[2].next;
    assert !Above(t.blocks, 1, 2, id => id);
  }

  lemma StillLinks(l: Ledger, l': Ledger)
    requires ReopenedTo(Node(LENIENT, NO_ROWS), 100, l, l') && l.tree.CanLink(2) && 2 in l.tree.blocks && Shape(l.tree)
    ensures l'.tree.CanLink(2) && l'.tree.blocks == l.tree.blocks && l'.headBlock == l.headBlock
  {
    UncheckedCanLink(l.tree, Unexpired(100, l.tree.blocks, l.future), l'.tree, 2, id => id);
  }

  //  Equal heads, different tables

  /** Rules by which block 2 writes the first storage of the contract "c". */
  const WRITING := Rules(
    (now, parent, id, block, rows) => true,
    (parent, id, block, rows) => Change(map[], if id == 2 then map["c" := "s"] else map[], {}))

  /** The contract is registered at genesis. */
  const REGISTERED: Rows := Tables(map["c" := "code"], map[])

  /** What a step of these rules does to the tables. */
  lemma WritingExtends(l: Ledger, id: BlockId, l': Ledger)
    requires Step(Node(WRITING, REGISTERED), l, Event.Extend(id, 100), l') && l.rows == REGISTERED
    requires id in l.tree.blocks && l.tree.blocks[id].number == 1
    ensures id != 2 ==> l'.rows == REGISTERED
    ensures id == 2 ==> l'.rows.storages == map["c" := "s"] && id in l'.undo
    ensures id == 2 ==> l'.rows == View(Change(map[], map["c" := "s"], {}), REGISTERED)
    ensures id == 2 ==> l'.undo[id] == Undo(Change(map[], map["c" := "s"], {}), REGISTERED)
  {
  }

  lemma StorageStays(l: Ledger, l': Ledger)
    requires Step(Node(WRITING, REGISTERED), l, Pop, l') && l.head == 2
    requires l.rows == View(Change(map[], map["c" := "s"], {}), REGISTERED)
    requires 2 in l.undo && l.undo[2] == Undo(Change(map[], map["c" := "s"], {}), REGISTERED)
    ensures l'.rows.storages == map["c" := "s"]
  {
    FirstStorageStays("c", "code", "s");
  }

  /** Adds block 1 or 2 to a chain without blocks. */
  method AddFirst(db: ChainDatabase, id: BlockId)
    requires db.Recorded() && db.world == Node(WRITING, REGISTERED) && db.chain == [] && (id == 1 || id == 2)
    requires db.tree.blocks == map[1 := First(10), 2 := First(20)] && db.tree.CanLink(id)
    modifies db, db.db, db.log
    ensures db.Recorded() && db.tree.blocks == old(db.tree).blocks && db.head == id && db.chain == [id]
    ensures forall x | old(db.tree).CanLink(x) :: db.tree.CanLink(x)
    ensures Step(db.world, old(db.Now()), Event.Extend(id, 100), db.Now())
  {
    ghost var past, l, es := db.log.past, db.Now(), db.log.events;
    db.ChainFacts(0);
    db.ChainIs();
    var verdict := db.ExtendRecorded(100, id);
    db.StepTaken(past, l, es, Event.Extend(id, 100));
  }

  method RemoveFirst(db: ChainDatabase)
    requires db.Recorded() && db.world == Node(WRITING, REGISTERED) && db.chain == [2] && db.head == 2 && 2 in db.undo
    requires db.tree.blocks == map[1 := First(10), 2 := First(20)] && db.tree.CanLink(1)
    modifies db, db.db, db.log
    ensures db.Recorded() && db.tree.blocks == old(db.tree).blocks && db.chain == [] && db.tree.CanLink(1)
    ensures Step(db.world, old(db.Now()), Pop, db.Now())
  {
    ghost var past, l, es := db.log.past, db.Now(), db.log.events;
    var outcome := db.PopRecorded();
    db.StepTaken(past, l, es, Pop);
  }

  /** A node that knows both blocks. */
  method KnowBoth() returns (db: ChainDatabase)
    ensures fresh(db) && fresh(db.db) && fresh(db.log) && db.Recorded() && db.world == Node(WRITING, REGISTERED)
    ensures db.chain == [] && db.db.tables == REGISTERED && db.tree.CanLink(1) && db.tree.CanLink(2)
    ensures db.tree.blocks == map[1 := First(10), 2 := First(20)]
  {
    db := NewNode(WRITING, REGISTERED);
    db.GenesisFacts();
    StoreOn(db, 1, First(10));
    StoreOn(db, 2, First(20));
  }

  method StraightNode() returns (db: ChainDatabase)
    ensures fresh(db) && fresh(db.db) && fresh(db.log) && db.Recorded() && db.world == Node(WRITING, REGISTERED)
    ensures db.head == 1 && db.db.tables.storages == map[] && db.tree.blocks == map[1 := First(10), 2 := First(20)]
  {
    db := KnowBoth();
    ghost var l := db.Now();
    AddFirst(db, 1);
    WritingExtends(l, 1, db.Now());
  }

  method ForkedNode() returns (db: ChainDatabase)
    ensures fresh(db) && fresh(db.db) && fresh(db.log) && db.Recorded() && db.world == Node(WRITING, REGISTERED)
    ensures db.head == 1 && db.db.tables.storages == map["c" := "s"]
    ensures db.tree.blocks == map[1 := First(10), 2 := First(20)]
  {
    db := KnowBoth();
    ghost var l := db.Now();
    AddFirst(db, 2);
    ghost var l1 := db.Now();
    WritingExtends(l, 2, l1);
    RemoveFirst(db);
    ghost var l2 := db.Now();
    StorageStays(l1, l2);
    AddFirst(db, 1);
    WritingKeeps(l2, db.Now());
  }

  lemma WritingKeeps(l: Ledger, l': Ledger)
    requires Step(Node(WRITING, REGISTERED), l, Event.Extend(1, 100), l')
    ensures l'.rows.storages == l.rows.storages
  {
  }

  /** Two nodes get the same two blocks. One adds block 1; the other adds block 2, takes it
      back and then adds block 1. They have the same head, and different tables. */
  method TablesExample() returns (a: ChainDatabase, b: ChainDatabase)
    ensures a.Recorded() && b.Recorded() && a.world == b.world && a.tree.blocks == b.tree.blocks && a.head == b.head
    ensures a.db.tables != b.db.tables
  {
    a := StraightNode();
    b := ForkedNode();
    assert "c" in b.db.tables.storages && "c" !in a.db.tables.storages;
  }
}
