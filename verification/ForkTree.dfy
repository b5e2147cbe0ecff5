/**
 The tree of known blocks. Every block names its predecessor; the tree records for
 each block its successors and whether it links back to genesis, is known to be
 invalid, and is part of the current chain. A block that is named as a predecessor
 before it arrives has a placeholder.
 */
module ForkTree {
  import opened Basics

  /** The digest of a block header. */
  type BlockId = nat

  /** The empty digest, which stands for genesis. */
  const NO_BLOCK: BlockId := 0

  /** A block: the parts of its header that are compared, and all else. */
  datatype Block = Block(number: nat, previous: BlockId, timestamp: nat, contents: string)

  datatype ForkData = ForkData(next: set<BlockId>, isLinked: bool, isValid: Option<bool>, isIncluded: bool, isKnown: bool) {
    predicate Invalid() {
      isValid == Some(false)
    }

    predicate CanLink() {
      isLinked && !Invalid()
    }
  }

  const PLACEHOLDER := ForkData({}, false, None, false, false)

  datatype Tree = Tree(blocks: map<BlockId, Block>, forks: map<BlockId, ForkData>, atNumber: map<nat, seq<BlockId>>) {
    predicate CanLink(id: BlockId) {
      id in forks && forks[id].CanLink()
    }

    predicate Linked(id: BlockId) {
      id in forks && forks[id].isLinked
    }
  }

  const EMPTY_TREE := Tree(map[], map[NO_BLOCK := ForkData({}, true, Some(true), true, true)], map[])

  /** Links and successor sets agree, and every entry without a block is awaited. */
  ghost predicate Shape(t: Tree) {
    && NO_BLOCK !in t.blocks && NO_BLOCK in t.forks
    && (forall id {:trigger t.blocks[id]} | id in t.blocks ::
          && id in t.forks && t.blocks[id].previous in t.forks
          && id in t.forks[t.blocks[id].previous].next)
    && (forall p, c {:trigger c in t.forks[p].next} | p in t.forks && c in t.forks[p].next :: c in t.blocks && t.blocks[c].previous == p)
    && (forall id {:trigger t.forks[id]} | id in t.forks ::
          && (t.forks[id].isKnown <==> id == NO_BLOCK || id in t.blocks)
          && (!t.forks[id].isKnown ==> t.forks[id].next != {}))
    && (forall id {:trigger t.blocks[id]} | id in t.blocks ::
          t.blocks[id].number in t.atNumber && id in t.atNumber[t.blocks[id].number])
    && (forall n, i | n in t.atNumber && 0 <= i < |t.atNumber[n]| ::
          t.atNumber[n][i] in t.blocks && t.blocks[t.atNumber[n][i]].number == n)
  }

  /** What the flags along one link say of each other: a block is linked only after a
      linked one; and, if the marks are `judged`, it is linked and not invalid exactly when
      nothing stands against it. */
  ghost predicate LinkFlags(parent: ForkData, child: ForkData, judged: bool) {
    && (child.isLinked ==> parent.isLinked)
    && (judged ==>
          && (parent.isLinked && !child.Invalid() ==> child.isLinked)
          && (child.isLinked && parent.Invalid() ==> child.Invalid())
          && (child.Invalid() ==> child.isLinked || parent.Invalid()))
  }

  ghost predicate Flags(t: Tree, judged: bool)
    requires Shape(t)
  {
    && t.forks[NO_BLOCK].CanLink() && t.forks[NO_BLOCK].isIncluded
    && (forall id | id in t.forks && !t.forks[id].isKnown ::
          !t.forks[id].isLinked && t.forks[id].isValid == None)
    && (forall id {:trigger t.blocks[id]} | id in t.blocks ::
          LinkFlags(t.forks[t.blocks[id].previous], t.forks[id], judged))
  }

  ghost predicate Flagged(t: Tree, judged: bool) {
    Shape(t) && Flags(t, judged)
  }

  /** What holds of a tree always. */
  ghost predicate WellFormed(t: Tree) {
    Flagged(t, false)
  }

  /** What holds as long as no verdict is withdrawn. */
  ghost predicate Judged(t: Tree) {
    Flagged(t, true)
  }

  /** A digest is taken over the predecessor's digest, so links cannot run in a
      circle: `depth` witnesses it. */
  ghost predicate Acyclic(blocks: map<BlockId, Block>, depth: BlockId -> nat) {
    forall id {:trigger blocks[id]} | id in blocks :: depth(blocks[id].previous) < depth(id)
  }

  /** The block is numbered one above its predecessor. */
  ghost predicate InOrder(blocks: map<BlockId, Block>, id: BlockId)
    requires id in blocks
  {
    var p := blocks[id].previous;
    && (p == NO_BLOCK ==> blocks[id].number == 1)
    && (p in blocks ==> blocks[id].number == blocks[p].number + 1)
  }

  //  Which blocks can be switched to

  /** Every block back to genesis is known and none is invalid. */
  ghost predicate Rooted(t: Tree, id: BlockId, depth: BlockId -> nat)
    requires Shape(t) && Acyclic(t.blocks, depth)
    decreases depth(id)
  {
    || id == NO_BLOCK
    || (id in t.blocks && !t.forks[id].Invalid() && Rooted(t, t.blocks[id].previous, depth))
  }

  /** In a judged tree the two flags of a block tell whether its whole branch back to
      genesis is there and free of invalid blocks. */
  lemma {:induction false} CanLinkIffRooted(t: Tree, id: BlockId, depth: BlockId -> nat)
    requires Judged(t) && Acyclic(t.blocks, depth)
    ensures t.CanLink(id) <==> Rooted(t, id, depth)
    decreases depth(id)
  {
    if id in t.blocks {
      CanLinkIffRooted(t, t.blocks[id].previous, depth);
    }
  }

  /** `x` is `y` or comes after it along some branch. */
  ghost predicate Above(blocks: map<BlockId, Block>, x: BlockId, y: BlockId, depth: BlockId -> nat)
    requires Acyclic(blocks, depth)
    decreases depth(x)
  {
    x == y || (x in blocks && Above(blocks, blocks[x].previous, y, depth))
  }

  /** In a judged tree, what a block that can be switched to comes after can be too. */
  lemma {:induction false} AboveCanLink(t: Tree, x: BlockId, y: BlockId, depth: BlockId -> nat)
    requires Judged(t) && Acyclic(t.blocks, depth) && t.CanLink(x) && Above(t.blocks, x, y, depth)
    ensures t.CanLink(y)
    decreases depth(x)
  {
    if x != y {
      PredecessorCanLink(t, x);
      AboveCanLink(t, t.blocks[x].previous, y, depth);
    }
  }

  /** Every block before a linked one is known, back to genesis. */
  lemma {:induction false} LinkedIsGrounded(t: Tree, x: BlockId, depth: BlockId -> nat)
    requires WellFormed(t) && Acyclic(t.blocks, depth) && x in t.forks && t.forks[x].isLinked
    ensures Above(t.blocks, x, NO_BLOCK, depth)
    decreases depth(x)
  {
    if x != NO_BLOCK {
      assert t.forks[x].isKnown;
      LinkedIsGrounded(t, t.blocks[x].previous, depth);
    }
  }

  /** Only blocks with a known way back to genesis are marked invalid. */
  ghost predicate Grounded(t: Tree, depth: BlockId -> nat)
    requires Acyclic(t.blocks, depth)
  {
    forall x | x in t.forks && t.forks[x].Invalid() :: Above(t.blocks, x, NO_BLOCK, depth)
  }

  /** What every change of a tree leaves as it should be. */
  ghost predicate Kept(t: Tree, t': Tree, depth: BlockId -> nat) {
    && WellFormed(t') && Acyclic(t'.blocks, depth) && Grounded(t', depth)
    && (Judged(t) ==> Judged(t')) && (Whole(t) ==> Whole(t'))
  }

  /** The predecessor of a block that can be switched to can be, too. */
  ghost predicate Whole(t: Tree) {
    forall id {:trigger t.blocks[id]} | id in t.blocks && t.CanLink(id) :: t.CanLink(t.blocks[id].previous)
  }

  /** So in a whole tree a block can be switched to only if its branch back to genesis is
      known and free of invalid blocks. */
  lemma {:induction false} WholeIsRooted(t: Tree, id: BlockId, depth: BlockId -> nat)
    requires WellFormed(t) && Whole(t) && Acyclic(t.blocks, depth) && t.CanLink(id)
    ensures Rooted(t, id, depth)
    decreases depth(id)
  {
    if id != NO_BLOCK {
      assert t.forks[id].isKnown;
      WholeIsRooted(t, t.blocks[id].previous, depth);
    }
  }

  /** And only in a whole tree is that so. */
  lemma RootedIsWhole(t: Tree, depth: BlockId -> nat)
    requires WellFormed(t) && Acyclic(t.blocks, depth) && forall x | t.CanLink(x) :: Rooted(t, x, depth)
    ensures Whole(t)
  {
    forall id | id in t.blocks && t.CanLink(id) ensures t.CanLink(t.blocks[id].previous) {
      var p := t.blocks[id].previous;
      assert Rooted(t, id, depth) && Rooted(t, p, depth);
      assert LinkFlags(t.forks[p], t.forks[id], false);
    }
  }

  /** Verdicts that are judged leave every branch whole. */
  lemma JudgedIsWhole(t: Tree)
    requires Judged(t)
    ensures Whole(t)
  {
    forall id | id in t.blocks && t.CanLink(id) ensures t.CanLink(t.blocks[id].previous) {
      PredecessorCanLink(t, id);
    }
  }

  /** The way back from a block after a placeholder ends at the placeholder. */
  lemma {:induction false} NotGrounded(blocks: map<BlockId, Block>, x: BlockId, id: BlockId, depth: BlockId -> nat)
    requires Acyclic(blocks, depth) && NO_BLOCK !in blocks
    requires id !in blocks && id != NO_BLOCK && Above(blocks, x, id, depth)
    ensures !Above(blocks, x, NO_BLOCK, depth)
    decreases depth(x)
  {
    if x != id {
      NotGrounded(blocks, blocks[x].previous, id, depth);
    }
  }

  lemma {:induction false} AboveTrans(blocks: map<BlockId, Block>, x: BlockId, y: BlockId, z: BlockId,
          depth: BlockId -> nat)
    requires Acyclic(blocks, depth) && Above(blocks, x, y, depth) && Above(blocks, y, z, depth)
    ensures Above(blocks, x, z, depth)
    decreases depth(x)
  {
    if x != y {
      AboveTrans(blocks, blocks[x].previous, y, z, depth);
    }
  }

  lemma {:induction false} AboveIsDeeper(blocks: map<BlockId, Block>, x: BlockId, y: BlockId, depth: BlockId -> nat)
    requires Acyclic(blocks, depth) && Above(blocks, x, y, depth)
    ensures x == y || depth(y) < depth(x)
    decreases depth(x)
  {
    if x != y {
      AboveIsDeeper(blocks, blocks[x].previous, y, depth);
    }
  }

  lemma {:induction false} AboveGrows(blocks: map<BlockId, Block>, more: map<BlockId, Block>, x: BlockId, y: BlockId,
          depth: BlockId -> nat)
    requires Acyclic(blocks, depth) && Acyclic(more, depth) && Above(blocks, x, y, depth)
    requires forall id | id in blocks :: id in more && more[id] == blocks[id]
    ensures Above(more, x, y, depth)
    decreases depth(x)
  {
    if x != y {
      AboveGrows(blocks, more, blocks[x].previous, y, depth);
    }
  }

  //  Marking every descendant of a block

  /** `marked` are the descendants of `b`, except those below `front`. */
  ghost predicate Spread(t: Tree, b: BlockId, marked: set<BlockId>, front: set<BlockId>, depth: BlockId -> nat) {
    && marked <= t.blocks.Keys && front <= t.blocks.Keys && t.blocks.Keys <= t.forks.Keys
    && (forall x | x in marked :: t.forks[x].next <= marked + front)
    && (forall x | x in marked || x in front ::
          (t.blocks[x].previous == b || t.blocks[x].previous in marked) && depth(b) < depth(x))
  }

  /** `marked` are exactly the descendants of `b`. */
  ghost predicate Descendants(t: Tree, b: BlockId, marked: set<BlockId>, depth: BlockId -> nat) {
    b in t.forks && t.forks[b].next <= marked && Spread(t, b, marked, {}, depth)
  }

  /** The marked blocks are those after `b`. */
  lemma {:induction false} MarkedIsAbove(t: Tree, b: BlockId, marked: set<BlockId>, x: BlockId, depth: BlockId -> nat)
    requires Acyclic(t.blocks, depth) && Descendants(t, b, marked, depth) && x in marked
    ensures Above(t.blocks, x, b, depth)
    decreases depth(x)
  {
    var p := t.blocks[x].previous;
    if p != b {
      MarkedIsAbove(t, b, marked, p, depth);
    }
  }

  lemma {:induction false} AboveIsMarked(t: Tree, b: BlockId, marked: set<BlockId>, x: BlockId, depth: BlockId -> nat)
    requires Shape(t) && Acyclic(t.blocks, depth) && Descendants(t, b, marked, depth) && Above(t.blocks, x, b, depth)
    ensures x == b || x in marked
    decreases depth(x)
  {
    if x != b {
      AboveIsMarked(t, b, marked, t.blocks[x].previous, depth);
      assert x in t.forks[t.blocks[x].previous].next;
    }
  }

  function LinkAll(forks: map<BlockId, ForkData>, marked: set<BlockId>): map<BlockId, ForkData> {
    map id | id in forks :: if id in marked then forks[id].(isLinked := true) else forks[id]
  }

  function JudgeAll(forks: map<BlockId, ForkData>, marked: set<BlockId>,
          verdict: Option<bool>): map<BlockId, ForkData> {
    map id | id in forks :: if id in marked then forks[id].(isValid := verdict) else forks[id]
  }

  lemma LinkStep(forks: map<BlockId, ForkData>, marked: set<BlockId>, id: BlockId)
    requires id in forks
    ensures LinkAll(forks, marked + {id}) == LinkAll(forks, marked)[id := LinkAll(forks, marked)[id].(isLinked := true)]
  {
  }

  lemma JudgeStep(forks: map<BlockId, ForkData>, marked: set<BlockId>, id: BlockId, verdict: Option<bool>)
    requires id in forks
    ensures JudgeAll(forks, marked + {id}, verdict) ==
              JudgeAll(forks, marked, verdict)[id := JudgeAll(forks, marked, verdict)[id].(isValid := verdict)]
  {
  }

  lemma MarkNothing(forks: map<BlockId, ForkData>, verdict: Option<bool>)
    ensures LinkAll(forks, {}) == forks && JudgeAll(forks, {}, verdict) == forks
  {
  }

  lemma DepthBound(ids: set<BlockId>, depth: BlockId -> nat) returns (bound: nat)
    ensures forall x | x in ids :: depth(x) <= bound
  {
    bound := 0;
    var rest := ids;
    while rest != {}
      invariant forall x | x in ids && x !in rest :: depth(x) <= bound
      decreases |rest|
    {
      var x :| x in rest;
      if depth(x) > bound { bound := depth(x); }
      rest := rest - {x};
    }
  }

  /** Everything that comes directly after one of `front`. */
  ghost function After(t: Tree, front: set<BlockId>): set<BlockId>
    requires front <= t.forks.Keys
  {
    set x, c | x in front && c in t.forks[x].next :: c
  }

  lemma AfterStep(t: Tree, done: set<BlockId>, x: BlockId)
    requires done <= t.forks.Keys && x in t.forks
    ensures After(t, done + {x}) == After(t, done) + t.forks[x].next
  {
  }

  lemma AfterAt(t: Tree, front: set<BlockId>, y: BlockId)
    requires Shape(t) && front <= t.forks.Keys && y in After(t, front)
    ensures y in t.blocks && t.blocks[y].previous in front
  {
    var x :| x in front && y in t.forks[x].next;
  }

  /** The whole front moves to the marked blocks and what comes after it is the new
      front, one level further from genesis. */
  lemma SpreadLevel(t: Tree, b: BlockId, marked: set<BlockId>, front: set<BlockId>, level: nat, depth: BlockId -> nat)
    requires Shape(t) && Acyclic(t.blocks, depth)
    requires Spread(t, b, marked, front, depth)
    requires forall x | x in front :: level <= depth(x)
    ensures Spread(t, b, marked + front, After(t, front), depth)
    ensures forall x | x in After(t, front) :: level + 1 <= depth(x)
  {
    var next := After(t, front);
    forall y | y in next
      ensures y in t.blocks && t.blocks[y].previous in front && depth(b) < depth(y) && level < depth(y)
    {
      AfterAt(t, front, y);
      assert depth(t.blocks[y].previous) < depth(y);
    }
    SpreadNext(t, b, marked, front, depth);
  }

  lemma SpreadNext(t: Tree, b: BlockId, marked: set<BlockId>, front: set<BlockId>, depth: BlockId -> nat)
    requires Spread(t, b, marked, front, depth)
    ensures forall x | x in marked + front :: t.forks[x].next <= (marked + front) + After(t, front)
  {
  }

  lemma Finished(t: Tree, b: BlockId, marked: set<BlockId>, depth: BlockId -> nat)
    requires b in t.forks && Spread(t, b, marked, {}, depth) && t.forks[b].next <= marked + {}
    ensures Descendants(t, b, marked, depth)
  {
    assert marked + {} == marked;
  }

  lemma Starting(t: Tree, b: BlockId, depth: BlockId -> nat)
    requires Shape(t) && Acyclic(t.blocks, depth) && b in t.forks
    ensures Spread(t, b, {}, t.forks[b].next, depth)
  {
    forall x | x in t.forks[b].next ensures x in t.blocks && t.blocks[x].previous == b && depth(b) < depth(x) {
    }
  }

  /** `longest` has the highest number of the marked blocks. */
  ghost predicate Highest(t: Tree, marked: set<BlockId>, highest: nat, longest: BlockId)
    requires marked <= t.blocks.Keys
  {
    && (forall x | x in marked :: t.blocks[x].number <= highest)
    && if highest == 0 then longest == NO_BLOCK else longest in marked && t.blocks[longest].number == highest
  }

  lemma HighestStep(t: Tree, marked: set<BlockId>, highest: nat, longest: BlockId, x: BlockId)
    requires marked <= t.blocks.Keys && x in t.blocks && Highest(t, marked, highest, longest)
    ensures if t.blocks[x].number > highest then Highest(t, marked + {x}, t.blocks[x].number, x)
            else Highest(t, marked + {x}, highest, longest)
  {
  }

  method LinkLevel(t: Tree, before: map<BlockId, ForkData>, front: set<BlockId>, tallest: nat, end: BlockId,
          ghost marked: set<BlockId>)
    returns (forks: map<BlockId, ForkData>, pending: set<BlockId>, highest: nat, longest: BlockId)
    requires front <= t.blocks.Keys <= t.forks.Keys && marked <= t.blocks.Keys
    requires before == LinkAll(t.forks, marked) && Highest(t, marked, tallest, end)
    ensures forks == LinkAll(t.forks, marked + front)
    ensures pending == After(t, front)
    ensures Highest(t, marked + front, highest, longest)
  {
    forks, pending, highest, longest := before, {}, tallest, end;
    var todo := front;
    ghost var done := {};
    assert marked + done == marked;
    while todo != {}
      invariant todo <= front && done == front - todo
      invariant forks == LinkAll(t.forks, marked + done)
      invariant pending == After(t, done)
      invariant Highest(t, marked + done, highest, longest)
      decreases |todo|
    {
      var x :| x in todo;
      LinkStep(t.forks, marked + done, x);
      AfterStep(t, done, x);
      TakeOne(front, todo, x);
      HighestStep(t, marked + done, highest, longest, x);
      assert marked + (done + {x}) == marked + done + {x};
      pending := pending + forks[x].next;
      forks := forks[x := forks[x].(isLinked := true)];
      if t.blocks[x].number > highest {
        highest, longest := t.blocks[x].number, x;
      }
      todo, done := todo - {x}, done + {x};
    }
    assert done == front;
  }

  /** Marks everything after `b` as linked to genesis, level by level, and finds the
      block with the highest number among them (genesis when there is none). */
  method MarkAsLinked(t: Tree, b: BlockId, ghost depth: BlockId -> nat)
    returns (forks: map<BlockId, ForkData>, longest: BlockId, ghost marked: set<BlockId>, ghost highest: nat)
    requires Shape(t) && Acyclic(t.blocks, depth) && b in t.forks
    ensures Descendants(t, b, marked, depth)
    ensures forks == LinkAll(t.forks, marked)
    ensures Highest(t, marked, highest, longest)
  {
    forks, longest, marked := t.forks, NO_BLOCK, {};
    var front, tallest := forks[b].next, 0;
    ghost var bound := DepthBound(t.blocks.Keys, depth);
    ghost var level := 0;
    MarkNothing(t.forks, None);
    Starting(t, b, depth);
    while front != {}
      invariant t.forks[b].next <= marked + front
      invariant Spread(t, b, marked, front, depth)
      invariant forall x | x in front :: level <= depth(x)
      invariant forks == LinkAll(t.forks, marked)
      invariant Highest(t, marked, tallest, longest)
      decreases if front == {} then 0 else 1, bound - level
    {
      LevelInBound(t, front, level, bound, depth);
      SpreadLevel(t, b, marked, front, level, depth);
      var pending;
      forks, pending, tallest, longest := LinkLevel(t, forks, front, tallest, longest, marked);
      marked, front, level := marked + front, pending, level + 1;
    }
    highest := tallest;
    Finished(t, b, marked, depth);
  }

  lemma LevelInBound(t: Tree, front: set<BlockId>, level: nat, bound: nat, depth: BlockId -> nat)
    requires front != {} && front <= t.blocks.Keys
    requires forall x | x in front :: level <= depth(x)
    requires forall x | x in t.blocks.Keys :: depth(x) <= bound
    ensures level <= bound
  {
    var x :| x in front;
    assert x in t.blocks.Keys;
  }

  method JudgeLevel(t: Tree, before: map<BlockId, ForkData>, front: set<BlockId>, verdict: Option<bool>,
          ghost marked: set<BlockId>)
    returns (forks: map<BlockId, ForkData>, pending: set<BlockId>)
    requires front <= t.forks.Keys && before == JudgeAll(t.forks, marked, verdict)
    ensures forks == JudgeAll(t.forks, marked + front, verdict)
    ensures pending == After(t, front)
  {
    forks, pending := before, {};
    var todo := front;
    ghost var done := {};
    assert marked + done == marked;
    while todo != {}
      invariant todo <= front && done == front - todo
      invariant forks == JudgeAll(t.forks, marked + done, verdict)
      invariant pending == After(t, done)
      decreases |todo|
    {
      var x :| x in todo;
      JudgeStep(t.forks, marked + done, x, verdict);
      AfterStep(t, done, x);
      TakeOne(front, todo, x);
      assert marked + (done + {x}) == marked + done + {x};
      pending := pending + forks[x].next;
      forks := forks[x := forks[x].(isValid := verdict)];
      todo, done := todo - {x}, done + {x};
    }
    assert done == front;
  }

  /** Marks everything after `b`, level by level, as invalid or as not checked. */
  method JudgeBelow(t: Tree, b: BlockId, verdict: Option<bool>, ghost depth: BlockId -> nat)
    returns (forks: map<BlockId, ForkData>, ghost marked: set<BlockId>)
    requires Shape(t) && Acyclic(t.blocks, depth) && b in t.forks
    ensures Descendants(t, b, marked, depth)
    ensures forks == JudgeAll(t.forks, marked, verdict)
  {
    forks, marked := t.forks, {};
    var front := forks[b].next;
    ghost var bound := DepthBound(t.blocks.Keys, depth);
    ghost var level := 0;
    MarkNothing(t.forks, verdict);
    Starting(t, b, depth);
    while front != {}
      invariant t.forks[b].next <= marked + front
      invariant Spread(t, b, marked, front, depth)
      invariant forall x | x in front :: level <= depth(x)
      invariant forks == JudgeAll(t.forks, marked, verdict)
      decreases if front == {} then 0 else 1, bound - level
    {
      LevelInBound(t, front, level, bound, depth);
      SpreadLevel(t, b, marked, front, level, depth);
      var pending;
      forks, pending := JudgeLevel(t, forks, front, verdict, marked);
      marked, front, level := marked + front, pending, level + 1;
    }
    Finished(t, b, marked, depth);
  }

  //  Storing a block

  function Parent(t: Tree, block: Block): ForkData {
    if block.previous in t.forks then t.forks[block.previous] else PLACEHOLDER
  }

  /** The tree with the block in it and its predecessor told, its own entry being
      `current`. */
  function Planted(t: Tree, id: BlockId, block: Block, current: ForkData): Tree {
    var parent := Parent(t, block);
    var others := if block.number in t.atNumber then t.atNumber[block.number] else [];
    Tree(
      t.blocks[id := block],
      t.forks[block.previous := parent.(next := parent.next + {id})][id := current],
      t.atNumber[block.number := others + [id]])
  }

  /** A block that may be stored: new, not genesis, and not its own ancestor. */
  ghost predicate Storable(t: Tree, id: BlockId, block: Block, depth: BlockId -> nat) {
    id != NO_BLOCK && id !in t.blocks && Acyclic(t.blocks[id := block], depth)
  }

  function Successors(t: Tree, id: BlockId): set<BlockId> {
    if id in t.forks then t.forks[id].next else {}
  }

  lemma PlantedShape(t: Tree, id: BlockId, block: Block, current: ForkData, depth: BlockId -> nat)
    requires Shape(t) && Storable(t, id, block, depth)
    requires current.isKnown && current.next == Successors(t, id)
    ensures Shape(Planted(t, id, block, current)) && id != block.previous
  {
    assert depth(t.blocks[id := block][id].previous) < depth(id);
    var t' := Planted(t, id, block, current);
    PlantedLinks(t, id, block, current);
    PlantedNumbers(t, id, block, current);
  }

  lemma PlantedNumbers(t: Tree, id: BlockId, block: Block, current: ForkData)
    requires Shape(t) && id !in t.blocks
    ensures
      var t' := Planted(t, id, block, current);
      && (forall x | x in t'.blocks ::
            t'.blocks[x].number in t'.atNumber && x in t'.atNumber[t'.blocks[x].number])
      && (forall n, i | n in t'.atNumber && 0 <= i < |t'.atNumber[n]| ::
            t'.atNumber[n][i] in t'.blocks && t'.blocks[t'.atNumber[n][i]].number == n)
  {
  }

  lemma PlantedLinks(t: Tree, id: BlockId, block: Block, current: ForkData)
    requires Shape(t) && id !in t.blocks && id != block.previous && id != NO_BLOCK
    requires current.isKnown && current.next == Successors(t, id)
    ensures
      var t' := Planted(t, id, block, current);
      && (forall x | x in t'.blocks ::
            && x in t'.forks && t'.blocks[x].previous in t'.forks
            && x in t'.forks[t'.blocks[x].previous].next)
      && (forall p, c | p in t'.forks && c in t'.forks[p].next :: c in t'.blocks && t'.blocks[c].previous == p)
      && (forall x | x in t'.forks ::
            && (t'.forks[x].isKnown <==> x == NO_BLOCK || x in t'.blocks)
            && (!t'.forks[x].isKnown ==> t'.forks[x].next != {}))
  {
    var t' := Planted(t, id, block, current);
    forall x | x in t'.blocks
      ensures x in t'.forks && t'.blocks[x].previous in t'.forks && x in t'.forks[t'.blocks[x].previous].next
    {
      PlantedBlock(t, id, block, current, x);
    }
    forall p, c | p in t'.forks && c in t'.forks[p].next ensures c in t'.blocks && t'.blocks[c].previous == p {
      PlantedSuccessor(t, id, block, current, p, c);
    }
  }

  lemma PlantedBlock(t: Tree, id: BlockId, block: Block, current: ForkData, x: BlockId)
    requires Shape(t) && id !in t.blocks && id != block.previous
    requires current.next == Successors(t, id)
    requires x == id || x in t.blocks
    ensures
      var t' := Planted(t, id, block, current);
      x in t'.forks && t'.blocks[x].previous in t'.forks && x in t'.forks[t'.blocks[x].previous].next
  {
    if x != id {
      assert x in t.forks[t.blocks[x].previous].next;
    }
  }

  lemma PlantedSuccessor(t: Tree, id: BlockId, block: Block, current: ForkData, p: BlockId, c: BlockId)
    requires Shape(t) && id !in t.blocks && id != block.previous
    requires current.next == Successors(t, id)
    requires p in Planted(t, id, block, current).forks && c in Planted(t, id, block, current).forks[p].next
    ensures
      var t' := Planted(t, id, block, current);
      c in t'.blocks && t'.blocks[c].previous == p
  {
    if !(p == block.previous && c == id) {
      assert c in Successors(t, p);
      assert c in t.blocks && t.blocks[c].previous == p;
    }
  }

  //  The flags after storing

  /** Below a placeholder nothing is linked and nothing is invalid. */
  lemma {:induction false} NothingKnownBelow(t: Tree, id: BlockId, marked: set<BlockId>, x: BlockId,
          depth: BlockId -> nat)
    requires WellFormed(t) && Acyclic(t.blocks, depth) && Grounded(t, depth)
    requires id in t.forks && !t.forks[id].isKnown
    requires marked <= t.blocks.Keys && x in marked
    requires forall y | y in marked :: t.blocks[y].previous == id || t.blocks[y].previous in marked
    ensures !t.forks[x].isLinked && !t.forks[x].Invalid() && Above(t.blocks, x, id, depth)
    decreases depth(x)
  {
    var p := t.blocks[x].previous;
    if p != id {
      NothingKnownBelow(t, id, marked, p, depth);
    }
    assert LinkFlags(t.forks[p], t.forks[x], false);
    NotGrounded(t.blocks, x, id, depth);
  }

  ghost predicate SameLinks(f: map<BlockId, ForkData>, g: map<BlockId, ForkData>) {
    && f.Keys == g.Keys
    && forall x | x in f :: f[x].next == g[x].next && f[x].isKnown == g[x].isKnown
  }

  /** The two tables differ at most in what they say of links and validity. */
  ghost predicate SameSuccessors(f: map<BlockId, ForkData>, g: map<BlockId, ForkData>) {
    && SameLinks(f, g)
    && forall x | x in f :: f[x].isIncluded == g[x].isIncluded
  }

  lemma ShapeKept(t: Tree, f: map<BlockId, ForkData>)
    requires Shape(t) && SameLinks(f, t.forks)
    ensures Shape(t.(forks := f))
  {
    forall id | id in t.blocks ensures id in f && t.blocks[id].previous in f && id in f[t.blocks[id].previous].next {
      assert id in t.forks[t.blocks[id].previous].next;
    }
    forall p, c | p in f && c in f[p].next ensures c in t.blocks && t.blocks[c].previous == p {
      assert c in t.forks[p].next;
    }
    assert t.(forks := f).blocks == t.blocks && t.(forks := f).atNumber == t.atNumber;
  }

  lemma LinksKeepSuccessors(g: map<BlockId, ForkData>, marked: set<BlockId>)
    ensures SameSuccessors(LinkAll(g, marked), g)
    ensures forall x | x in g && x !in marked :: LinkAll(g, marked)[x] == g[x]
  {
  }

  lemma VerdictsKeepSuccessors(g: map<BlockId, ForkData>, marked: set<BlockId>, verdict: Option<bool>)
    ensures SameSuccessors(JudgeAll(g, marked, verdict), g)
    ensures forall x | x in g && x !in marked :: JudgeAll(g, marked, verdict)[x] == g[x]
  {
  }

  /** Flags are right everywhere if they are right at the stored block and below it,
      and nothing else was touched. */
  lemma FlagsAfterStoring(t: Tree, id: BlockId, block: Block, current: ForkData, t': Tree, marked: set<BlockId>,
          f: map<BlockId, ForkData>, judged: bool, depth: BlockId -> nat)
    requires Flagged(t, judged) && id !in t.blocks && id != NO_BLOCK
    requires t' == Planted(t, id, block, current) && current.isKnown
    requires Shape(t') && Descendants(t', id, marked, depth)
    requires SameSuccessors(f, t'.forks)
    requires forall x | x in f && x !in marked :: f[x] == t'.forks[x]
    requires LinkFlags(f[block.previous], f[id], judged)
    requires forall x | x in marked :: LinkFlags(f[t'.blocks[x].previous], f[x], judged)
    ensures Flagged(t'.(forks := f), judged)
  {
    ShapeKept(t', f);
    forall x | x in t'.blocks ensures LinkFlags(f[t'.blocks[x].previous], f[x], judged) {
      if x == id {
        assert t'.blocks[x] == block;
      } else if x !in marked {
        LinkElsewhere(t, id, block, current, t', marked, f, x, judged, depth);
      }
    }
    AwaitedAfterStoring(t, id, block, current, t', marked, f, judged);
  }

  lemma AwaitedAfterStoring(t: Tree, id: BlockId, block: Block, current: ForkData, t': Tree, marked: set<BlockId>,
          f: map<BlockId, ForkData>, judged: bool)
    requires Flagged(t, judged) && id != NO_BLOCK && current.isKnown
    requires t' == Planted(t, id, block, current)
    requires SameSuccessors(f, t'.forks)
    requires Shape(t') && marked <= t'.blocks.Keys
    requires forall x | x in f && x !in marked :: f[x] == t'.forks[x]
    ensures f[NO_BLOCK].CanLink() && f[NO_BLOCK].isIncluded
    ensures forall x | x in f && !f[x].isKnown :: !f[x].isLinked && f[x].isValid == None
  {
    forall x | x in f && !f[x].isKnown ensures !f[x].isLinked && f[x].isValid == None {
      assert x !in t'.blocks;
      assert f[x] == t'.forks[x];
    }
  }

  /** A link that does not start at the stored block or below it does not end there. */
  lemma Untouched(t: Tree, id: BlockId, marked: set<BlockId>, x: BlockId, depth: BlockId -> nat)
    requires Shape(t) && Descendants(t, id, marked, depth)
    requires x in t.blocks && x !in marked
    ensures t.blocks[x].previous !in marked && t.blocks[x].previous != id
  {
    assert x in t.forks[t.blocks[x].previous].next;
  }

  lemma LinkElsewhere(t: Tree, id: BlockId, block: Block, current: ForkData, t': Tree, marked: set<BlockId>,
          f: map<BlockId, ForkData>, x: BlockId, judged: bool, depth: BlockId -> nat)
    requires Flagged(t, judged) && id !in t.blocks
    requires t' == Planted(t, id, block, current)
    requires Shape(t') && Descendants(t', id, marked, depth)
    requires f.Keys == t'.forks.Keys
    requires forall y | y in f && y !in marked :: f[y] == t'.forks[y]
    requires x in t.blocks && x !in marked
    ensures t'.blocks[x].previous in f && x in f && LinkFlags(f[t'.blocks[x].previous], f[x], judged)
  {
    Untouched(t', id, marked, x, depth);
    PlantedLink(t, id, block, current, x, judged);
  }

  lemma PlantedLink(t: Tree, id: BlockId, block: Block, current: ForkData, x: BlockId, judged: bool)
    requires Flagged(t, judged) && x in t.blocks && id !in t.blocks && t.blocks[x].previous != id
    ensures
      var f := Planted(t, id, block, current).forks;
      LinkFlags(f[t.blocks[x].previous], f[x], judged)
  {
    assert LinkFlags(t.forks[t.blocks[x].previous], t.forks[x], judged);
  }

  /** Of the blocks that wait for `id` there is one numbered above 0 that is at least as
      high, or none at all. */
  ghost predicate Reaching(t: Tree, id: BlockId, block: Block, depth: BlockId -> nat)
    requires Acyclic(t.blocks, depth)
  {
    || Successors(t, id) == {}
    || exists d | d in t.blocks :: Above(t.blocks, d, id, depth) && t.blocks[d].number > 0 && t.blocks[d].number >= block.number
  }

  /** The block returned is the highest of those that have become switchable. */
  ghost predicate Topped(t: Tree, t': Tree, longest: BlockId, fork: ForkData) {
    && fork.CanLink() && longest in t'.blocks
    && forall x | x in t'.blocks && t'.CanLink(x) && !t.CanLink(x) :: t'.blocks[x].number <= t'.blocks[longest].number
  }

  /** What storing a block does for the tree: the current chain and every branch that
      could be switched to stay; the new block can be switched to exactly when its
      predecessor can, and nothing else can now and could not before, save what comes
      after it; and then the block returned is the highest of those exactly when one that
      waited for the block is as high as the block itself. */
  ghost predicate Grown(t: Tree, t': Tree, id: BlockId, block: Block, longest: BlockId, fork: ForkData,
          depth: BlockId -> nat)
    requires Acyclic(t.blocks, depth) && Acyclic(t'.blocks, depth)
  {
    && (forall x | x in t'.forks :: t'.forks[x].isIncluded <==> x in t.forks && t.forks[x].isIncluded)
    && (forall x | t.CanLink(x) :: t'.CanLink(x))
    && (forall x | t'.CanLink(x) :: t.CanLink(x) || (t'.CanLink(id) && Above(t'.blocks, x, id, depth)))
    && (t'.CanLink(id) <==> t.CanLink(block.previous))
    && (longest in t'.blocks || fork == PLACEHOLDER)
    && (longest in t'.blocks ==> longest in t'.forks && fork == t'.forks[longest])
    && (fork.CanLink() ==> t'.CanLink(id))
    && (!t'.CanLink(id) ==> forall x :: t'.Linked(x) <==> t.Linked(x) || (x == id && t.Linked(block.previous)))
    && (t'.CanLink(id) ==> (Topped(t, t', longest, fork) <==> Reaching(t, id, block, depth)))
  }

  lemma PlantedFlags(t: Tree, id: BlockId, block: Block, current: ForkData, x: BlockId)
    requires x != id
    ensures
      var f := Planted(t, id, block, current).forks;
      && (x in f <==> x in t.forks || x == block.previous)
      && (x in t.forks ==> f[x].isLinked == t.forks[x].isLinked && f[x].isValid == t.forks[x].isValid
                           && f[x].isIncluded == t.forks[x].isIncluded)
      && (x in f && x !in t.forks ==> !f[x].isLinked && f[x].isValid == None && !f[x].isIncluded)
  {
  }

  /** The awaited block arrives and its predecessor is linked and not invalid. */
  lemma AwaitedLinks(t: Tree, id: BlockId, block: Block, current: ForkData, t': Tree, marked: set<BlockId>,
          f: map<BlockId, ForkData>, judged: bool, depth: BlockId -> nat)
    requires Flagged(t, judged) && Storable(t, id, block, depth)
    requires id in t.forks && Parent(t, block).CanLink()
    requires current == t.forks[id].(isKnown := true, isLinked := true)
    requires t' == Planted(t, id, block, current) && Shape(t')
    requires Descendants(t', id, marked, depth) && f == LinkAll(t'.forks, marked)
    requires forall x | x in marked :: f[x].CanLink()
    ensures Flagged(t'.(forks := f), judged)
  {
    assert depth(t'.blocks[id].previous) < depth(id);
    PlantedFlags(t, id, block, current, block.previous);
    assert f[id].CanLink();
    forall x | x in marked ensures LinkFlags(f[t'.blocks[x].previous], f[x], judged) {
      var p := t'.blocks[x].previous;
      assert f[p].CanLink() && f[x].CanLink();
    }
    LinksKeepSuccessors(t'.forks, marked);
    FlagsAfterStoring(t, id, block, current, t', marked, f, judged, depth);
  }

  /** What waits for a block is neither linked nor invalid when it arrives. */
  lemma BelowAwaited(t: Tree, id: BlockId, block: Block, current: ForkData, t': Tree, marked: set<BlockId>,
          depth: BlockId -> nat)
    requires WellFormed(t) && Storable(t, id, block, depth) && Acyclic(t.blocks, depth) && Grounded(t, depth)
    requires id in t.forks && t' == Planted(t, id, block, current)
    requires Descendants(t', id, marked, depth)
    ensures forall x | x in marked ::
              && x != id && x in t.blocks && !t.forks[x].isLinked && !t.forks[x].Invalid()
              && t'.forks[x].isLinked == t.forks[x].isLinked && t'.forks[x].isValid == t.forks[x].isValid
  {
    assert id !in marked;
    forall y | y in marked ensures y in t.blocks && (t.blocks[y].previous == id || t.blocks[y].previous in marked) {
      assert t'.blocks[y] == t.blocks[y];
    }
    forall x | x in marked
      ensures !t.forks[x].isLinked && !t.forks[x].Invalid()
      ensures t'.forks[x].isLinked == t.forks[x].isLinked && t'.forks[x].isValid == t.forks[x].isValid
    {
      NothingKnownBelow(t, id, marked, x, depth);
      PlantedFlags(t, id, block, current, x);
    }
  }

  /** The awaited block arrives and its predecessor is linked but invalid. */
  lemma AwaitedIsInvalid(t: Tree, id: BlockId, block: Block, current: ForkData, t': Tree, marked: set<BlockId>,
          f: map<BlockId, ForkData>, judged: bool, depth: BlockId -> nat)
    requires Flagged(t, judged) && Storable(t, id, block, depth)
    requires id in t.forks && Parent(t, block).isLinked && Parent(t, block).Invalid()
    requires current == t.forks[id].(isKnown := true, isLinked := true, isValid := Some(false))
    requires t' == Planted(t, id, block, current) && Shape(t')
    requires Descendants(t', id, marked, depth) && f == JudgeAll(t'.forks, marked, Some(false))
    requires forall x | x in marked :: !t'.forks[x].isLinked
    ensures Flagged(t'.(forks := f), judged)
  {
    assert depth(t'.blocks[id].previous) < depth(id);
    PlantedFlags(t, id, block, current, block.previous);
    assert f[id].Invalid();
    forall x | x in marked ensures LinkFlags(f[t'.blocks[x].previous], f[x], judged) {
      var p := t'.blocks[x].previous;
      assert f[p].Invalid() && f[x].Invalid() && !f[x].isLinked;
    }
    VerdictsKeepSuccessors(t'.forks, marked, Some(false));
    FlagsAfterStoring(t, id, block, current, t', marked, f, judged, depth);
  }

  /** A block whose predecessor is not linked, or that nothing waits for. */
  lemma JustPlanted(t: Tree, id: BlockId, block: Block, current: ForkData, t': Tree, judged: bool,
          depth: BlockId -> nat)
    requires Flagged(t, judged) && Storable(t, id, block, depth) && current.isKnown
    requires t' == Planted(t, id, block, current) && Shape(t')
    requires LinkFlags(Parent(t, block), current, judged)
    requires id in t.forks ==> current.isLinked == t.forks[id].isLinked && current.isValid == t.forks[id].isValid
    ensures Flagged(t', judged)
  {
    assert depth(t'.blocks[id].previous) < depth(id);
    forall x | x in t'.blocks ensures LinkFlags(t'.forks[t'.blocks[x].previous], t'.forks[x], judged) {
      if x == id {
        PlantedFlags(t, id, block, current, block.previous);
      } else if t'.blocks[x].previous == id {
        assert LinkFlags(t.forks[id], t.forks[x], judged);
        PlantedFlags(t, id, block, current, x);
      } else {
        PlantedLink(t, id, block, current, x, judged);
      }
    }
    forall x | x in t'.forks && !t'.forks[x].isKnown
      ensures !t'.forks[x].isLinked && t'.forks[x].isValid == None
    {
      PlantedFlags(t, id, block, current, x);
    }
    PlantedFlags(t, id, block, current, NO_BLOCK);
  }

  /** What is newly marked invalid comes after the stored block, which comes after a
      linked one. */
  lemma GroundedAfter(t: Tree, t': Tree, id: BlockId, block: Block, depth: BlockId -> nat)
    requires Acyclic(t.blocks, depth) && Grounded(t, depth) && t'.blocks == t.blocks[id := block]
    requires Acyclic(t'.blocks, depth)
    requires id !in t.blocks
    requires forall x | x in t'.forks && t'.forks[x].Invalid() && !(x in t.forks && t.forks[x].Invalid()) ::
               Above(t'.blocks, x, id, depth) && Above(t.blocks, block.previous, NO_BLOCK, depth)
    ensures Grounded(t', depth)
  {
    forall x | x in t'.forks && t'.forks[x].Invalid() ensures Above(t'.blocks, x, NO_BLOCK, depth) {
      if x in t.forks && t.forks[x].Invalid() {
        AboveGrows(t.blocks, t'.blocks, x, NO_BLOCK, depth);
      } else {
        AboveGrows(t.blocks, t'.blocks, block.previous, NO_BLOCK, depth);
        AboveTrans(t'.blocks, x, id, NO_BLOCK, depth);
      }
    }
  }

  /** Nothing but the stored block and those below it changes its standing. */
  ghost predicate Elsewhere(t: Tree, f: map<BlockId, ForkData>, id: BlockId, marked: set<BlockId>) {
    && (forall x | x in f :: f[x].isIncluded <==> x in t.forks && t.forks[x].isIncluded)
    && (forall x | x in t.forks && t.forks[x].CanLink() :: x in f && f[x].CanLink())
    && (forall x | x in f && f[x].CanLink() :: t.CanLink(x) || x == id || x in marked)
  }

  lemma GrownBy(t: Tree, t': Tree, id: BlockId, block: Block, longest: BlockId, fork: ForkData, marked: set<BlockId>,
          depth: BlockId -> nat)
    requires Acyclic(t.blocks, depth) && Acyclic(t'.blocks, depth) && Elsewhere(t, t'.forks, id, marked)
    requires forall x | x in marked && t'.CanLink(x) :: t'.CanLink(id) && Above(t'.blocks, x, id, depth)
    requires t'.CanLink(id) <==> t.CanLink(block.previous)
    requires longest in t'.blocks || fork == PLACEHOLDER
    requires longest in t'.blocks ==> longest in t'.forks && fork == t'.forks[longest]
    requires fork.CanLink() ==> t'.CanLink(id)
    requires !t'.CanLink(id) ==> forall x :: t'.Linked(x) <==> t.Linked(x) || (x == id && t.Linked(block.previous))
    requires t'.CanLink(id) ==> (Topped(t, t', longest, fork) <==> Reaching(t, id, block, depth))
    ensures Grown(t, t', id, block, longest, fork, depth)
  {
    forall x | t'.CanLink(x) ensures t.CanLink(x) || (t'.CanLink(id) && Above(t'.blocks, x, id, depth)) {
      assert t.CanLink(x) || x == id || x in marked;
    }
  }

  lemma GrownElsewhere(t: Tree, id: BlockId, block: Block, current: ForkData, t': Tree, marked: set<BlockId>,
          f: map<BlockId, ForkData>)
    requires t' == Planted(t, id, block, current) && id !in marked
    requires id in t.forks ==> current.isIncluded == t.forks[id].isIncluded && !t.forks[id].isLinked
    requires id !in t.forks ==> !current.isIncluded
    requires SameSuccessors(f, t'.forks)
    requires forall x | x in f && x !in marked :: f[x] == t'.forks[x]
    requires forall x | x in marked :: !t.CanLink(x)
    ensures Elsewhere(t, f, id, marked)
  {
    forall x | x in f ensures f[x].isIncluded <==> x in t.forks && t.forks[x].isIncluded {
      if x != id { PlantedFlags(t, id, block, current, x); }
    }
    forall x | x in t.forks && t.forks[x].CanLink() ensures x in f && f[x].CanLink() {
      assert t.CanLink(x);
      PlantedFlags(t, id, block, current, x);
    }
    forall x | x in f && f[x].CanLink() ensures t.CanLink(x) || x == id || x in marked {
      if x != id && x !in marked { PlantedFlags(t, id, block, current, x); }
    }
  }

  lemma {:induction false} AboveBefore(blocks: map<BlockId, Block>, id: BlockId, block: Block, x: BlockId,
          depth: BlockId -> nat)
    requires Acyclic(blocks, depth) && Acyclic(blocks[id := block], depth) && Above(blocks[id := block], x, id, depth)
    ensures Above(blocks, x, id, depth)
    decreases depth(x)
  {
    if x != id {
      assert blocks[id := block][x] == blocks[x];
      AboveBefore(blocks, id, block, blocks[x].previous, depth);
    }
  }

  /** The waiting blocks are those marked once the block is there. */
  lemma WaitingAreMarked(t: Tree, id: BlockId, block: Block, planted: Tree, marked: set<BlockId>, x: BlockId,
          depth: BlockId -> nat)
    requires Acyclic(t.blocks, depth) && id !in t.blocks && planted.blocks == t.blocks[id := block]
    requires Shape(planted) && Acyclic(planted.blocks, depth) && Descendants(planted, id, marked, depth)
    ensures x in t.blocks && Above(t.blocks, x, id, depth) <==> x in marked
  {
    if x in marked {
      MarkedIsAbove(planted, id, marked, x, depth);
      AboveBefore(t.blocks, id, block, x, depth);
    }
    if x in t.blocks && Above(t.blocks, x, id, depth) {
      AboveGrows(t.blocks, planted.blocks, x, id, depth);
      AboveIsMarked(planted, id, marked, x, depth);
    }
  }

  /** Of the awaited block and those that waited for it, all now linked, the highest that
      waited is returned. */
  lemma HighestIsReturned(t: Tree, id: BlockId, block: Block, planted: Tree, t': Tree, marked: set<BlockId>,
          highest: nat, longest: BlockId, fork: ForkData, depth: BlockId -> nat)
    requires Acyclic(t.blocks, depth) && id !in t.blocks && planted.blocks == t.blocks[id := block]
    requires NO_BLOCK !in planted.blocks
    requires Shape(planted) && Acyclic(planted.blocks, depth) && Descendants(planted, id, marked, depth)
    requires Highest(planted, marked, highest, longest) && Successors(t, id) != {}
    requires t'.blocks == planted.blocks && marked <= t'.forks.Keys
    requires fork == if longest == NO_BLOCK then PLACEHOLDER else t'.forks[longest]
    requires forall x | x in marked :: t'.forks[x].CanLink() && !t.CanLink(x)
    requires t'.CanLink(id) && !t.CanLink(id)
    requires forall x | t'.CanLink(x) :: t.CanLink(x) || x == id || x in marked
    ensures Topped(t, t', longest, fork) <==> Reaching(t, id, block, depth)
  {
    forall x ensures x in t.blocks && Above(t.blocks, x, id, depth) <==> x in marked {
      WaitingAreMarked(t, id, block, planted, marked, x, depth);
    }
    if Topped(t, t', longest, fork) {
      assert longest in marked && t.blocks[longest] == t'.blocks[longest];
      assert t'.blocks[id].number <= t'.blocks[longest].number;
    }
    if Reaching(t, id, block, depth) {
      var d :| d in t.blocks && Above(t.blocks, d, id, depth) && t.blocks[d].number > 0 && t.blocks[d].number >= block.number;
      assert t'.blocks[d].number <= highest;
    }
  }

  lemma BranchLinked(t: Tree, id: BlockId, block: Block, current: ForkData, planted: Tree, marked: set<BlockId>,
          t': Tree, depth: BlockId -> nat)
    requires WellFormed(t) && Storable(t, id, block, depth) && Acyclic(t.blocks, depth) && Grounded(t, depth)
    requires id in t.forks && Parent(t, block).CanLink()
    requires current == t.forks[id].(isKnown := true, isLinked := true)
    requires planted == Planted(t, id, block, current) && Shape(planted)
    requires Descendants(planted, id, marked, depth)
    requires t' == planted.(forks := LinkAll(planted.forks, marked))
    ensures Kept(t, t', depth)
    ensures Elsewhere(t, t'.forks, id, marked) && t'.CanLink(id) && t.CanLink(block.previous) && !t.CanLink(id)
    ensures forall x | x in marked :: t'.forks[x].CanLink() && !t.CanLink(x)
  {
    BelowAwaited(t, id, block, current, planted, marked, depth);
    LinkedKeeps(t, id, block, current, planted, marked, t', depth);
    LinksKeepSuccessors(planted.forks, marked);
    GrownElsewhere(t, id, block, current, planted, marked, t'.forks);
    WholeAfterStoring(t, t', id, block, marked);
  }

  /** What is newly switchable comes after what is. */
  lemma WholeAfterStoring(t: Tree, t': Tree, id: BlockId, block: Block, marked: set<BlockId>)
    requires Elsewhere(t, t'.forks, id, marked) && id !in t.blocks && t'.blocks == t.blocks[id := block]
    requires t'.CanLink(id) ==> t.CanLink(block.previous)
    requires forall x | x in marked && t'.CanLink(x) :: x in t'.blocks && t'.CanLink(t'.blocks[x].previous)
    ensures Whole(t) ==> Whole(t')
  {
    if Whole(t) {
      forall x | x in t'.blocks && t'.CanLink(x) ensures t'.CanLink(t'.blocks[x].previous) {
        if x != id && x !in marked {
          assert t.CanLink(x) && t.CanLink(t.blocks[x].previous);
        }
      }
    }
  }

  lemma LinkedKeeps(t: Tree, id: BlockId, block: Block, current: ForkData, planted: Tree, marked: set<BlockId>,
          t': Tree, depth: BlockId -> nat)
    requires WellFormed(t) && Storable(t, id, block, depth) && Acyclic(t.blocks, depth) && Grounded(t, depth)
    requires id in t.forks && Parent(t, block).CanLink()
    requires current == t.forks[id].(isKnown := true, isLinked := true)
    requires planted == Planted(t, id, block, current) && Shape(planted)
    requires Descendants(planted, id, marked, depth)
    requires t' == planted.(forks := LinkAll(planted.forks, marked))
    requires forall x | x in marked :: t'.forks[x].CanLink()
    ensures WellFormed(t') && Acyclic(t'.blocks, depth) && Grounded(t', depth) && (Judged(t) ==> Judged(t'))
  {
    AwaitedLinks(t, id, block, current, planted, marked, t'.forks, false, depth);
    if Judged(t) {
      AwaitedLinks(t, id, block, current, planted, marked, t'.forks, true, depth);
    }
    LinkedGrounded(t, id, block, current, marked, t', depth);
  }

  lemma LinkedGrounded(t: Tree, id: BlockId, block: Block, current: ForkData, marked: set<BlockId>, t': Tree,
          depth: BlockId -> nat)
    requires Storable(t, id, block, depth) && Acyclic(t.blocks, depth) && Grounded(t, depth) && id in t.forks
    requires current == t.forks[id].(isKnown := true, isLinked := true)
    requires t' == Planted(t, id, block, current).(forks := LinkAll(Planted(t, id, block, current).forks, marked))
    ensures Grounded(t', depth)
  {
    forall x | x in t'.forks && t'.forks[x].Invalid() ensures x in t.forks && t.forks[x].Invalid() {
      if x != id { PlantedFlags(t, id, block, current, x); }
    }
    GroundedAfter(t, t', id, block, depth);
  }

  lemma MarkedAreAbove(t: Tree, id: BlockId, marked: set<BlockId>, depth: BlockId -> nat)
    requires Acyclic(t.blocks, depth) && Descendants(t, id, marked, depth)
    ensures forall x | x in marked :: Above(t.blocks, x, id, depth)
  {
    forall x | x in marked ensures Above(t.blocks, x, id, depth) {
      MarkedIsAbove(t, id, marked, x, depth);
    }
  }

  lemma BranchRejected(t: Tree, id: BlockId, block: Block, current: ForkData, planted: Tree, marked: set<BlockId>,
          t': Tree, depth: BlockId -> nat)
    requires WellFormed(t) && Storable(t, id, block, depth) && Acyclic(t.blocks, depth) && Grounded(t, depth)
    requires id in t.forks && Parent(t, block).isLinked && Parent(t, block).Invalid()
    requires current == t.forks[id].(isKnown := true, isLinked := true, isValid := Some(false))
    requires planted == Planted(t, id, block, current) && Shape(planted)
    requires Descendants(planted, id, marked, depth)
    requires t' == planted.(forks := JudgeAll(planted.forks, marked, Some(false)))
    ensures Kept(t, t', depth)
    ensures Elsewhere(t, t'.forks, id, marked) && t'.forks[id] == current
    ensures !t'.CanLink(id) && !t.CanLink(block.previous)
    ensures forall x | x in marked :: !t'.CanLink(x)
    ensures forall x :: t'.Linked(x) <==> t.Linked(x) || (x == id && t.Linked(block.previous))
  {
    BelowAwaited(t, id, block, current, planted, marked, depth);
    RejectedMarks(t, id, block, current, planted, marked, t');
    WholeAfterStoring(t, t', id, block, marked);
    RejectedKeeps(t, id, block, current, planted, marked, t', depth);
  }

  lemma RejectedMarks(t: Tree, id: BlockId, block: Block, current: ForkData, planted: Tree, marked: set<BlockId>,
          t': Tree)
    requires id in t.forks && !t.forks[id].isLinked && id !in marked && id != block.previous
    requires Parent(t, block).isLinked && Parent(t, block).Invalid()
    requires current == t.forks[id].(isKnown := true, isLinked := true, isValid := Some(false))
    requires planted == Planted(t, id, block, current)
    requires t' == planted.(forks := JudgeAll(planted.forks, marked, Some(false)))
    requires forall x | x in marked :: !t.CanLink(x)
    ensures Elsewhere(t, t'.forks, id, marked) && t'.forks[id] == current
    ensures !t'.CanLink(id) && !t.CanLink(block.previous)
    ensures forall x | x in marked :: !t'.CanLink(x)
    ensures forall x :: t'.Linked(x) <==> t.Linked(x) || (x == id && t.Linked(block.previous))
  {
    VerdictsKeepSuccessors(planted.forks, marked, Some(false));
    GrownElsewhere(t, id, block, current, planted, marked, t'.forks);
    LinksAfterStoring(t, id, block, current, t');
  }

  lemma LinksAfterStoring(t: Tree, id: BlockId, block: Block, current: ForkData, t': Tree)
    requires id != block.previous
    requires t'.forks.Keys == Planted(t, id, block, current).forks.Keys
    requires forall x | x in t'.forks :: t'.forks[x].isLinked == Planted(t, id, block, current).forks[x].isLinked
    requires current.isLinked <==> t.Linked(block.previous) || t.Linked(id)
    ensures forall x :: t'.Linked(x) <==> t.Linked(x) || (x == id && t.Linked(block.previous))
  {
    forall x ensures t'.Linked(x) <==> t.Linked(x) || (x == id && t.Linked(block.previous)) {
      if x != id { PlantedFlags(t, id, block, current, x); }
    }
  }

  lemma RejectedKeeps(t: Tree, id: BlockId, block: Block, current: ForkData, planted: Tree, marked: set<BlockId>,
          t': Tree, depth: BlockId -> nat)
    requires WellFormed(t) && Storable(t, id, block, depth) && Acyclic(t.blocks, depth) && Grounded(t, depth)
    requires id in t.forks && Parent(t, block).isLinked && Parent(t, block).Invalid()
    requires current == t.forks[id].(isKnown := true, isLinked := true, isValid := Some(false))
    requires planted == Planted(t, id, block, current) && Shape(planted)
    requires Descendants(planted, id, marked, depth)
    requires t' == planted.(forks := JudgeAll(planted.forks, marked, Some(false)))
    requires forall x | x in marked :: !planted.forks[x].isLinked
    ensures WellFormed(t') && Acyclic(t'.blocks, depth) && Grounded(t', depth) && (Judged(t) ==> Judged(t'))
  {
    AwaitedIsInvalid(t, id, block, current, planted, marked, t'.forks, false, depth);
    if Judged(t) {
      AwaitedIsInvalid(t, id, block, current, planted, marked, t'.forks, true, depth);
    }
    LinkedIsGrounded(t, block.previous, depth);
    MarkedAreAbove(planted, id, marked, depth);
    forall x | x in t'.forks && t'.forks[x].Invalid() && x != id && x !in marked ensures x in t.forks && t.forks[x].Invalid() {
      PlantedFlags(t, id, block, current, x);
    }
    GroundedAfter(t, t', id, block, depth);
  }

  lemma BranchPlanted(t: Tree, id: BlockId, block: Block, current: ForkData, t': Tree, depth: BlockId -> nat)
    requires WellFormed(t) && Storable(t, id, block, depth) && Acyclic(t.blocks, depth) && Grounded(t, depth)
    requires t' == Planted(t, id, block, current)
    requires current == if id in t.forks then t.forks[id].(isKnown := true)
                        else ForkData({}, Parent(t, block).isLinked, if Parent(t, block).Invalid() then Some(false) else None, false, true)
    requires id in t.forks ==> !Parent(t, block).isLinked
    ensures Kept(t, t', depth)
    ensures Elsewhere(t, t'.forks, id, {}) && (t'.CanLink(id) <==> t.CanLink(block.previous))
    ensures t'.CanLink(id) ==> Successors(t, id) == {}
    ensures forall x :: t'.Linked(x) <==> t.Linked(x) || (x == id && t.Linked(block.previous))
  {
    PlantedShape(t, id, block, current, depth);
    PlantedLinkFlags(t, id, block, current, false);
    GrownElsewhere(t, id, block, current, t', {}, t'.forks);
    WholeAfterStoring(t, t', id, block, {});
    LinksAfterStoring(t, id, block, current, t');
    PlantedKeeps(t, id, block, current, t', depth);
  }

  lemma PlantedKeeps(t: Tree, id: BlockId, block: Block, current: ForkData, t': Tree, depth: BlockId -> nat)
    requires WellFormed(t) && Storable(t, id, block, depth) && Acyclic(t.blocks, depth) && Grounded(t, depth)
    requires t' == Planted(t, id, block, current) && Shape(t')
    requires current == if id in t.forks then t.forks[id].(isKnown := true)
                        else ForkData({}, Parent(t, block).isLinked, if Parent(t, block).Invalid() then Some(false) else None, false, true)
    requires id in t.forks ==> !Parent(t, block).isLinked
    ensures WellFormed(t') && Acyclic(t'.blocks, depth) && Grounded(t', depth) && (Judged(t) ==> Judged(t'))
  {
    PlantedLinkFlags(t, id, block, current, false);
    JustPlanted(t, id, block, current, t', false, depth);
    if Judged(t) {
      PlantedLinkFlags(t, id, block, current, true);
      JustPlanted(t, id, block, current, t', true, depth);
    }
    forall x | x in t'.forks && t'.forks[x].Invalid() && x != id ensures x in t.forks && t.forks[x].Invalid() {
      PlantedFlags(t, id, block, current, x);
    }
    if block.previous in t.forks && Parent(t, block).Invalid() {
      assert Above(t.blocks, block.previous, NO_BLOCK, depth);
    }
    GroundedAfter(t, t', id, block, depth);
  }

  lemma PlantedLinkFlags(t: Tree, id: BlockId, block: Block, current: ForkData, judged: bool)
    requires Flagged(t, judged) && id !in t.blocks && id != NO_BLOCK
    requires current == if id in t.forks then t.forks[id].(isKnown := true)
                        else ForkData({}, Parent(t, block).isLinked, if Parent(t, block).Invalid() then Some(false) else None, false, true)
    requires id in t.forks ==> !Parent(t, block).isLinked
    ensures LinkFlags(Parent(t, block), current, judged)
    ensures id in t.forks ==> !t.forks[id].isKnown && !t.forks[id].isLinked && t.forks[id].isValid == None
  {
    if id in t.forks {
      assert !t.forks[id].isKnown;
    }
  }

  lemma PlantedGrows(t: Tree, id: BlockId, block: Block, current: ForkData, t': Tree, depth: BlockId -> nat)
    requires WellFormed(t) && Storable(t, id, block, depth) && Acyclic(t.blocks, depth) && Grounded(t, depth)
    requires t' == Planted(t, id, block, current)
    requires current == if id in t.forks then t.forks[id].(isKnown := true)
                        else ForkData({}, Parent(t, block).isLinked, if Parent(t, block).Invalid() then Some(false) else None, false, true)
    requires id in t.forks ==> !Parent(t, block).isLinked
    ensures Kept(t, t', depth) && Grown(t, t', id, block, id, current, depth)
  {
    BranchPlanted(t, id, block, current, t', depth);
    PlantedTops(t, id, block, current, t', depth);
    GrownBy(t, t', id, block, id, current, {}, depth);
  }

  lemma PlantedTops(t: Tree, id: BlockId, block: Block, current: ForkData, t': Tree, depth: BlockId -> nat)
    requires Acyclic(t.blocks, depth) && Elsewhere(t, t'.forks, id, {})
    requires t'.blocks == t.blocks[id := block] && id in t'.forks && t'.forks[id] == current
    requires t'.CanLink(id) ==> Successors(t, id) == {}
    ensures t'.CanLink(id) ==> Topped(t, t', id, current) && Reaching(t, id, block, depth)
  {
  }

  /** Places a block in the tree; returns the highest block of the branch it completes,
      or itself. */
  method StoreAndIndex(t: Tree, id: BlockId, block: Block, ghost depth: BlockId -> nat)
    returns (t': Tree, longest: BlockId, fork: ForkData)
    requires WellFormed(t) && Storable(t, id, block, depth) && Acyclic(t.blocks, depth) && Grounded(t, depth)
    ensures Kept(t, t', depth) && t'.blocks == t.blocks[id := block]
    ensures Grown(t, t', id, block, longest, fork, depth)
  {
    var parent := Parent(t, block);
    if id in t.forks && parent.isLinked {
      if parent.Invalid() {
        t', longest, fork := StoreRejected(t, id, block, depth);
      } else {
        t', longest, fork := StoreAwaited(t, id, block, depth);
      }
    } else {
      fork := if id in t.forks then t.forks[id].(isKnown := true)
              else ForkData({}, parent.isLinked, if parent.Invalid() then Some(false) else None, false, true);
      t', longest := Planted(t, id, block, fork), id;
      PlantedGrows(t, id, block, fork, t', depth);
    }
  }

  method StoreRejected(t: Tree, id: BlockId, block: Block, ghost depth: BlockId -> nat)
    returns (t': Tree, longest: BlockId, fork: ForkData)
    requires WellFormed(t) && Storable(t, id, block, depth) && Acyclic(t.blocks, depth) && Grounded(t, depth)
    requires id in t.forks && Parent(t, block).isLinked && Parent(t, block).Invalid()
    ensures Kept(t, t', depth) && t'.blocks == t.blocks[id := block]
    ensures Grown(t, t', id, block, longest, fork, depth)
  {
    var current := t.forks[id].(isKnown := true, isLinked := true, isValid := Some(false));
    var planted := Planted(t, id, block, current);
    PlantedShape(t, id, block, current, depth);
    var f, marked := JudgeBelow(planted, id, Some(false), depth);
    t', longest, fork := planted.(forks := f), id, current;
    BranchRejected(t, id, block, current, planted, marked, t', depth);
    GrownBy(t, t', id, block, longest, fork, marked, depth);
  }

  method StoreAwaited(t: Tree, id: BlockId, block: Block, ghost depth: BlockId -> nat)
    returns (t': Tree, longest: BlockId, fork: ForkData)
    requires WellFormed(t) && Storable(t, id, block, depth) && Acyclic(t.blocks, depth) && Grounded(t, depth)
    requires id in t.forks && Parent(t, block).CanLink()
    ensures Kept(t, t', depth) && t'.blocks == t.blocks[id := block]
    ensures Grown(t, t', id, block, longest, fork, depth)
  {
    var current := t.forks[id].(isKnown := true, isLinked := true);
    var planted := Planted(t, id, block, current);
    PlantedShape(t, id, block, current, depth);
    var f, last, marked, highest := MarkAsLinked(planted, id, depth);
    t', longest := planted.(forks := f), last;
    fork := if last == NO_BLOCK then PLACEHOLDER else f[last];
    BranchLinked(t, id, block, current, planted, marked, t', depth);
    HighestIsReturned(t, id, block, planted, t', marked, highest, last, fork, depth);
    MarkedAreAbove(planted, id, marked, depth);
    GrownBy(t, t', id, block, longest, fork, marked, depth);
  }

  //  Marks of the current chain

  function Included(t: Tree, id: BlockId, included: bool): Tree
    requires id in t.forks
  {
    var fork := t.forks[id];
    t.(forks := t.forks[id := fork.(isIncluded := included, isValid := if included then Some(true) else fork.isValid)])
  }

  lemma FlagsKept(t: Tree, f: map<BlockId, ForkData>, judged: bool)
    requires WellFormed(t) && SameLinks(f, t.forks)
    requires forall x {:trigger t.blocks[x]} | x in t.blocks :: LinkFlags(f[t.blocks[x].previous], f[x], judged)
    requires forall x | x in f && x !in t.blocks :: f[x] == t.forks[x]
    ensures Flagged(t.(forks := f), judged)
  {
    ShapeKept(t, f);
    forall x | x in f && !f[x].isKnown ensures !f[x].isLinked && f[x].isValid == None {
      assert x !in t.blocks;
    }
  }

  /** Whether a mark of the chain may be set on `id` in a judged tree: nothing invalid
      waits unlinked after it. */
  ghost predicate Markable(t: Tree, id: BlockId)
    requires id in t.forks
  {
    && (id in t.blocks && t.blocks[id].previous in t.forks ==> !t.forks[t.blocks[id].previous].Invalid())
    && forall c | c in t.forks[id].next && c in t.forks && t.forks[c].Invalid() :: t.forks[c].isLinked
  }

  /** In a judged tree a block that can be switched to may be marked. */
  lemma CanLinkIsMarkable(t: Tree, id: BlockId)
    requires Judged(t) && id in t.blocks && t.CanLink(id)
    ensures Markable(t, id)
  {
    assert LinkFlags(t.forks[t.blocks[id].previous], t.forks[id], true);
    forall c | c in t.forks[id].next && c in t.forks && t.forks[c].Invalid() ensures t.forks[c].isLinked {
      assert LinkFlags(t.forks[id], t.forks[c], true);
    }
  }

  lemma IncludedKeeps(t: Tree, id: BlockId, included: bool, t': Tree, judged: bool)
    requires Flagged(t, judged) && id in t.blocks && t.forks[id].isLinked && t' == Included(t, id, included)
    requires judged && included ==> Markable(t, id)
    ensures Flagged(t', judged)
  {
    var f := t'.forks;
    assert SameLinks(f, t.forks);
    forall x | x in t.blocks ensures LinkFlags(f[t.blocks[x].previous], f[x], judged) {
      IncludedLink(t, id, included, f, x, judged);
    }
    FlagsKept(t, f, judged);
  }

  lemma IncludedLink(t: Tree, id: BlockId, included: bool, f: map<BlockId, ForkData>, x: BlockId, judged: bool)
    requires Flagged(t, judged) && id in t.blocks && t.forks[id].isLinked && x in t.blocks
    requires f == Included(t, id, included).forks && (judged && included ==> Markable(t, id))
    ensures LinkFlags(f[t.blocks[x].previous], f[x], judged)
  {
    assert LinkFlags(t.forks[t.blocks[x].previous], t.forks[x], judged);
    assert x in t.forks[t.blocks[x].previous].next;
  }

  lemma IncludedCanLink(t: Tree, id: BlockId, included: bool, t': Tree)
    requires id in t.forks && t.forks[id].isLinked && t' == Included(t, id, included)
    ensures forall x :: t'.CanLink(x) <==> t.CanLink(x) || (included && x == id)
  {
  }

  lemma IncludedGrounded(t: Tree, id: BlockId, included: bool, t': Tree, depth: BlockId -> nat)
    requires Acyclic(t.blocks, depth) && Grounded(t, depth) && id in t.forks && t' == Included(t, id, included)
    ensures Grounded(t', depth)
  {
    forall x | x in t'.forks && t'.forks[x].Invalid() ensures x in t.forks && t.forks[x].Invalid() {
    }
  }

  //  Verdicts on a block and what comes after it

  /** A block is refused with everything after it. */
  lemma RefusalKeeps(t: Tree, id: BlockId, marked: set<BlockId>, t': Tree, judged: bool, depth: BlockId -> nat)
    requires Flagged(t, judged) && id in t.blocks && t.forks[id].isLinked
    requires Descendants(t, id, marked, depth)
    requires t' == t.(forks := JudgeAll(t.forks, marked + {id}, Some(false)))
    ensures Flagged(t', judged)
  {
    var f := t'.forks;
    VerdictsKeepSuccessors(t.forks, marked + {id}, Some(false));
    forall x | x in t.blocks ensures LinkFlags(f[t.blocks[x].previous], f[x], judged) {
      RefusedLink(t, id, marked, f, x, judged, depth);
    }
    NoGenesisMarked(t, id, marked, depth);
    FlagsKept(t, f, judged);
  }

  lemma NoGenesisMarked(t: Tree, id: BlockId, marked: set<BlockId>, depth: BlockId -> nat)
    requires Shape(t) && id in t.blocks && Descendants(t, id, marked, depth)
    ensures marked + {id} <= t.blocks.Keys && NO_BLOCK !in marked + {id}
  {
  }

  lemma RefusedLink(t: Tree, id: BlockId, marked: set<BlockId>, f: map<BlockId, ForkData>, x: BlockId, judged: bool,
          depth: BlockId -> nat)
    requires Flagged(t, judged) && id in t.blocks && t.forks[id].isLinked
    requires Descendants(t, id, marked, depth)
    requires f == JudgeAll(t.forks, marked + {id}, Some(false)) && x in t.blocks
    ensures LinkFlags(f[t.blocks[x].previous], f[x], judged)
  {
    assert LinkFlags(t.forks[t.blocks[x].previous], t.forks[x], judged);
    if x !in marked {
      Untouched(t, id, marked, x, depth);
    }
  }

  lemma RefusalGrounded(t: Tree, id: BlockId, marked: set<BlockId>, t': Tree, depth: BlockId -> nat)
    requires WellFormed(t) && Acyclic(t.blocks, depth) && Grounded(t, depth) && id in t.blocks && t.forks[id].isLinked
    requires Descendants(t, id, marked, depth)
    requires t' == t.(forks := JudgeAll(t.forks, marked + {id}, Some(false)))
    ensures Grounded(t', depth)
  {
    LinkedIsGrounded(t, id, depth);
    forall x | x in t'.forks && t'.forks[x].Invalid() ensures Above(t'.blocks, x, NO_BLOCK, depth) {
      if x in marked {
        MarkedIsAbove(t, id, marked, x, depth);
        AboveTrans(t.blocks, x, id, NO_BLOCK, depth);
      }
    }
  }

  lemma Refusal(t: Tree, id: BlockId, marked: set<BlockId>, t': Tree, depth: BlockId -> nat)
    requires WellFormed(t) && Acyclic(t.blocks, depth) && Grounded(t, depth) && id in t.blocks && t.forks[id].isLinked
    requires Descendants(t, id, marked, depth)
    requires t' == t.(forks := JudgeAll(t.forks, marked + {id}, Some(false)))
    ensures Kept(t, t', depth)
  {
    RefusalKeeps(t, id, marked, t', false, depth);
    RefusalGrounded(t, id, marked, t', depth);
    RefusalWhole(t, id, marked, t', depth);
    if Judged(t) {
      RefusalKeeps(t, id, marked, t', true, depth);
    }
  }

  lemma RefusalWhole(t: Tree, id: BlockId, marked: set<BlockId>, t': Tree, depth: BlockId -> nat)
    requires Shape(t) && Acyclic(t.blocks, depth) && Descendants(t, id, marked, depth)
    requires t' == t.(forks := JudgeAll(t.forks, marked + {id}, Some(false)))
    ensures Whole(t) ==> Whole(t')
  {
    if Whole(t) {
      forall x | x in t.blocks && t'.CanLink(x) ensures t'.CanLink(t.blocks[x].previous) {
        RefusedStanding(t, id, marked, t'.forks, x, depth);
        RefusedStanding(t, id, marked, t'.forks, t.blocks[x].previous, depth);
      }
    }
  }

  /** Gives a block, and everything after it, the same verdict. */
  method Judge(t: Tree, id: BlockId, verdict: Option<bool>, ghost depth: BlockId -> nat) returns (t': Tree,
          ghost marked: set<BlockId>)
    requires Shape(t) && Acyclic(t.blocks, depth) && id in t.blocks
    ensures Shape(t') && Descendants(t, id, marked, depth)
    ensures t' == t.(forks := JudgeAll(t.forks, marked + {id}, verdict))
  {
    var own := t.forks[id := t.forks[id].(isValid := verdict)];
    ShapeKept(t, own);
    var f;
    f, marked := JudgeBelow(t.(forks := own), id, verdict, depth);
    t' := t.(forks := f);
    SameDescendants(t, own, id, marked, depth);
    JudgeTwice(t.forks, id, marked, verdict);
    VerdictsKeepSuccessors(t.forks, marked + {id}, verdict);
    ShapeKept(t, f);
  }

  lemma SameDescendants(t: Tree, f: map<BlockId, ForkData>, id: BlockId, marked: set<BlockId>, depth: BlockId -> nat)
    requires SameSuccessors(f, t.forks) && Descendants(t.(forks := f), id, marked, depth)
    ensures Descendants(t, id, marked, depth)
  {
  }

  lemma JudgeTwice(f: map<BlockId, ForkData>, id: BlockId, marked: set<BlockId>, verdict: Option<bool>)
    requires id in f
    ensures JudgeAll(f[id := f[id].(isValid := verdict)], marked, verdict) == JudgeAll(f, marked + {id}, verdict)
  {
  }

  /** Marks a block that failed, and everything after it, as invalid. */
  method MarkInvalid(t: Tree, id: BlockId, ghost depth: BlockId -> nat) returns (t': Tree, ghost marked: set<BlockId>)
    requires WellFormed(t) && Acyclic(t.blocks, depth) && Grounded(t, depth) && id in t.blocks && t.forks[id].isLinked
    ensures Kept(t, t', depth) && Descendants(t, id, marked, depth)
    ensures t' == t.(forks := JudgeAll(t.forks, marked + {id}, Some(false)))
  {
    t', marked := Judge(t, id, Some(false), depth);
    Refusal(t, id, marked, t', depth);
  }

  /** Of the blocks that can be switched to, those that lose it are the refused one and
      those after it. */
  lemma RefusedStanding(t: Tree, id: BlockId, marked: set<BlockId>, f: map<BlockId, ForkData>, x: BlockId,
          depth: BlockId -> nat)
    requires Shape(t) && Acyclic(t.blocks, depth) && Descendants(t, id, marked, depth) && x in t.forks
    requires f == JudgeAll(t.forks, marked + {id}, Some(false))
    ensures x in f && (f[x].CanLink() <==> t.CanLink(x) && !Above(t.blocks, x, id, depth))
  {
    if x in marked {
      MarkedIsAbove(t, id, marked, x, depth);
    }
    if Above(t.blocks, x, id, depth) {
      AboveIsMarked(t, id, marked, x, depth);
    }
  }

  /** In a judged tree a block that can be switched to has a predecessor that can. */
  lemma PredecessorCanLink(t: Tree, id: BlockId)
    requires Judged(t) && id in t.blocks && t.CanLink(id)
    ensures t.CanLink(t.blocks[id].previous)
  {
    assert LinkFlags(t.forks[t.blocks[id].previous], t.forks[id], true);
  }

  /** In every tree a linked block has a linked predecessor. */
  lemma PredecessorLinked(t: Tree, id: BlockId)
    requires WellFormed(t) && id in t.blocks && t.forks[id].isLinked
    ensures t.blocks[id].previous in t.forks && t.forks[t.blocks[id].previous].isLinked
  {
    assert LinkFlags(t.forks[t.blocks[id].previous], t.forks[id], false);
  }

  //  Verdicts withdrawn

  /** The blocks that are listed or come after one that is. */
  ghost function Reopened(blocks: map<BlockId, Block>, listed: set<BlockId>, depth: BlockId -> nat): set<BlockId>
    requires Acyclic(blocks, depth)
  {
    set x | x in blocks && AboveSome(blocks, x, listed, depth)
  }

  ghost predicate AboveSome(blocks: map<BlockId, Block>, x: BlockId, listed: set<BlockId>, depth: BlockId -> nat)
    requires Acyclic(blocks, depth)
  {
    exists f | f in listed :: Above(blocks, x, f, depth)
  }

  /** `t'` is `t` with no verdict on the listed blocks and what comes after them. */
  ghost predicate Unchecked(t: Tree, listed: set<BlockId>, t': Tree, depth: BlockId -> nat) {
    Acyclic(t.blocks, depth) && t' == t.(forks := JudgeAll(t.forks, Reopened(t.blocks, listed, depth), None))
  }

  /** The condition under which withdrawing those verdicts leaves a judged tree: each
      block concerned is linked if its predecessor is, and no verdict stands before it. */
  ghost predicate Reopenable(t: Tree, listed: set<BlockId>, depth: BlockId -> nat)
    requires Shape(t) && Acyclic(t.blocks, depth)
  {
    forall x {:trigger t.blocks[x]} | x in t.blocks && AboveSome(t.blocks, x, listed, depth) ::
      var p := t.blocks[x].previous;
      && (t.forks[p].isLinked ==> t.forks[x].isLinked)
      && (t.forks[x].isLinked && t.forks[p].Invalid() ==> p in t.blocks && AboveSome(t.blocks, p, listed, depth))
  }

  lemma UncheckedLink(t: Tree, listed: set<BlockId>, t': Tree, x: BlockId, judged: bool, depth: BlockId -> nat)
    requires Flagged(t, judged) && Unchecked(t, listed, t', depth) && x in t.blocks
    requires judged ==> Reopenable(t, listed, depth)
    ensures LinkFlags(t'.forks[t.blocks[x].previous], t'.forks[x], judged)
  {
    var p := t.blocks[x].previous;
    assert LinkFlags(t.forks[p], t.forks[x], judged);
    if p in t.blocks && AboveSome(t.blocks, p, listed, depth) {
      var f :| f in listed && Above(t.blocks, p, f, depth);
      assert Above(t.blocks, x, f, depth);
    }
  }

  /** A tree stays well formed when verdicts are withdrawn; it stays judged exactly under
      that condition. */
  lemma UncheckedKeeps(t: Tree, listed: set<BlockId>, t': Tree, judged: bool, depth: BlockId -> nat)
    requires Flagged(t, judged) && Unchecked(t, listed, t', depth)
    requires judged ==> Reopenable(t, listed, depth)
    ensures Flagged(t', judged)
  {
    VerdictsKeepSuccessors(t.forks, Reopened(t.blocks, listed, depth), None);
    forall x | x in t.blocks ensures LinkFlags(t'.forks[t.blocks[x].previous], t'.forks[x], judged) {
      UncheckedLink(t, listed, t', x, judged, depth);
    }
    FlagsKept(t, t'.forks, judged);
  }

  lemma UncheckedIsJudged(t: Tree, listed: set<BlockId>, t': Tree, depth: BlockId -> nat)
    requires Judged(t) && Unchecked(t, listed, t', depth)
    ensures Judged(t') <==> Reopenable(t, listed, depth)
  {
    if Reopenable(t, listed, depth) {
      UncheckedKeeps(t, listed, t', true, depth);
    }
    if Judged(t') {
      forall x | x in t.blocks && AboveSome(t.blocks, x, listed, depth)
        ensures
          var p := t.blocks[x].previous;
          && (t.forks[p].isLinked ==> t.forks[x].isLinked)
          && (t.forks[x].isLinked && t.forks[p].Invalid() ==> p in t.blocks && AboveSome(t.blocks, p, listed, depth))
      {
        assert LinkFlags(t'.forks[t'.blocks[x].previous], t'.forks[x], true);
      }
    }
  }

  /** The condition under which it leaves a whole tree: what stands before a linked block
      concerned can be switched to, or is concerned too. */
  ghost predicate Clear(t: Tree, listed: set<BlockId>, depth: BlockId -> nat)
    requires Shape(t) && Acyclic(t.blocks, depth)
  {
    forall x {:trigger t.blocks[x]} | x in t.blocks && t.Linked(x) && AboveSome(t.blocks, x, listed, depth) ::
      var p := t.blocks[x].previous;
      t.CanLink(p) || (p in t.blocks && AboveSome(t.blocks, p, listed, depth))
  }

  lemma UncheckedIsWhole(t: Tree, listed: set<BlockId>, t': Tree, depth: BlockId -> nat)
    requires WellFormed(t) && Whole(t) && Unchecked(t, listed, t', depth)
    ensures Whole(t') <==> Clear(t, listed, depth)
  {
    forall x | x in t.blocks ensures t.Linked(x) ==> t.Linked(t.blocks[x].previous) {
      assert LinkFlags(t.forks[t.blocks[x].previous], t.forks[x], false);
    }
    if Clear(t, listed, depth) {
      forall x | x in t.blocks && t'.CanLink(x) ensures t'.CanLink(t.blocks[x].previous) {
        StaysAfter(t, listed, x, depth);
      }
    }
    if Whole(t') {
      forall x | x in t.blocks && t.Linked(x) && AboveSome(t.blocks, x, listed, depth)
        ensures
          var p := t.blocks[x].previous;
          t.CanLink(p) || (p in t.blocks && AboveSome(t.blocks, p, listed, depth))
      {
        assert t'.CanLink(x) && t'.CanLink(t'.blocks[x].previous);
      }
    }
  }

  /** A block after a concerned one is concerned. */
  lemma StaysAfter(t: Tree, listed: set<BlockId>, x: BlockId, depth: BlockId -> nat)
    requires Acyclic(t.blocks, depth) && x in t.blocks
    ensures AboveSome(t.blocks, t.blocks[x].previous, listed, depth) ==> AboveSome(t.blocks, x, listed, depth)
  {
    if AboveSome(t.blocks, t.blocks[x].previous, listed, depth) {
      var f :| f in listed && Above(t.blocks, t.blocks[x].previous, f, depth);
      assert Above(t.blocks, x, f, depth);
    }
  }

  lemma UncheckedGrounded(t: Tree, listed: set<BlockId>, t': Tree, depth: BlockId -> nat)
    requires Unchecked(t, listed, t', depth) && Grounded(t, depth)
    ensures Grounded(t', depth)
  {
    forall x | x in t'.forks && t'.forks[x].Invalid() ensures x in t.forks && t.forks[x].Invalid() {
    }
  }

  /** A block can be switched to then exactly if it could before, or is linked and
      concerned. */
  lemma UncheckedCanLink(t: Tree, listed: set<BlockId>, t': Tree, x: BlockId, depth: BlockId -> nat)
    requires Shape(t) && Unchecked(t, listed, t', depth) && x in t.blocks
    ensures t'.CanLink(x) <==> t.CanLink(x) || (t.forks[x].isLinked && AboveSome(t.blocks, x, listed, depth))
  {
  }

  lemma ReopenedOne(t: Tree, id: BlockId, marked: set<BlockId>, depth: BlockId -> nat)
    requires Shape(t) && Acyclic(t.blocks, depth) && id in t.blocks && Descendants(t, id, marked, depth)
    ensures Reopened(t.blocks, {id}, depth) == marked + {id}
  {
    forall x ensures x in Reopened(t.blocks, {id}, depth) <==> x in marked + {id} {
      if x in marked {
        MarkedIsAbove(t, id, marked, x, depth);
      }
      if x in Reopened(t.blocks, {id}, depth) {
        assert Above(t.blocks, x, id, depth);
        AboveIsMarked(t, id, marked, x, depth);
      }
    }
  }

  lemma ReopenedMore(blocks: map<BlockId, Block>, listed: set<BlockId>, id: BlockId, depth: BlockId -> nat)
    requires Acyclic(blocks, depth)
    ensures Reopened(blocks, listed + {id}, depth) == Reopened(blocks, listed, depth) + Reopened(blocks, {id}, depth)
  {
    forall x | x in blocks
      ensures AboveSome(blocks, x, listed + {id}, depth) <==> AboveSome(blocks, x, listed, depth) || AboveSome(blocks, x, {id}, depth)
    {
      if AboveSome(blocks, x, listed, depth) {
        var f :| f in listed && Above(blocks, x, f, depth);
        assert f in listed + {id};
      }
      if AboveSome(blocks, x, {id}, depth) {
        assert Above(blocks, x, id, depth) && id in listed + {id};
      }
      if AboveSome(blocks, x, listed + {id}, depth) {
        var f :| f in listed + {id} && Above(blocks, x, f, depth);
        assert f in listed || f in {id};
      }
    }
  }

  lemma JudgeMore(f: map<BlockId, ForkData>, a: set<BlockId>, b: set<BlockId>, verdict: Option<bool>)
    ensures JudgeAll(JudgeAll(f, a, verdict), b, verdict) == JudgeAll(f, a + b, verdict)
  {
  }

  lemma UncheckMore(t: Tree, listed: set<BlockId>, t1: Tree, id: BlockId, marked: set<BlockId>, t': Tree,
          depth: BlockId -> nat)
    requires Shape(t) && Unchecked(t, listed, t1, depth) && id in t.blocks && Shape(t1)
    requires Descendants(t1, id, marked, depth) && t' == t1.(forks := JudgeAll(t1.forks, marked + {id}, None))
    ensures Unchecked(t, listed + {id}, t', depth)
  {
    ReopenedOne(t1, id, marked, depth);
    ReopenedMore(t.blocks, listed, id, depth);
    JudgeMore(t.forks, Reopened(t.blocks, listed, depth), marked + {id}, None);
  }

  lemma UncheckNone(t: Tree, depth: BlockId -> nat)
    requires Acyclic(t.blocks, depth)
    ensures Unchecked(t, {}, t, depth)
  {
    assert Reopened(t.blocks, {}, depth) == {};
    MarkNothing(t.forks, None);
  }

  /** Withdraws the verdicts on the listed blocks and what comes after them, one listed
      block at a time. */
  method MarkAsUnchecked(t: Tree, listed: set<BlockId>, ghost depth: BlockId -> nat) returns (t': Tree)
    requires Shape(t) && Acyclic(t.blocks, depth) && listed <= t.blocks.Keys
    ensures Shape(t') && Unchecked(t, listed, t', depth)
  {
    t' := t;
    var todo := listed;
    ghost var done: set<BlockId> := {};
    UncheckNone(t, depth);
    while todo != {}
      invariant todo <= listed && done == listed - todo
      invariant Shape(t') && Unchecked(t, done, t', depth)
      decreases |todo|
    {
      var id :| id in todo;
      ghost var t1 := t';
      ghost var marked;
      t', marked := Judge(t', id, None, depth);
      UncheckMore(t, done, t1, id, marked, t', depth);
      TakeOne(listed, todo, id);
      todo, done := todo - {id}, done + {id};
    }
    assert done == listed;
  }
}
