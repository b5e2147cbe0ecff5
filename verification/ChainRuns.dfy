/**
 The chain database in place: blocks are added and taken back, the chain is led along
 another branch, and blocks are taken in from the network.
 */
module ChainRuns {
  import opened Basics
  import opened UndoStates
  import opened PendingStates
  import opened ForkTree
  import opened ChainLedger

  datatype PopOutcome = Popped | AtGenesis | NoUndo

  datatype SwitchOutcome =
    | Switched
    | DeadEnd                // the branch does not lead back to the chain
    | Refused(early: bool)   // a block of the branch was refused, perhaps for its time only
    | Lost                   // a block to take back has no undo state
    | Stuck                  // a block to take back has the number 0

  datatype TryOutcome = Found | Exhausted | Failed

  /** A block from the network, and the time it came. */
  datatype Arrival = Arrival(now: nat, id: BlockId, block: Block)

  datatype PushOutcome = TooOld | AlreadyKnown | Pushed | Broken

  /** The same blocks, of which fewer can be switched to if the tree is whole. */
  ghost predicate Narrowed(t: Tree, t': Tree) {
    && t'.blocks == t.blocks && t'.atNumber == t.atNumber && (forall x :: t'.Linked(x) <==> t.Linked(x))
    && (Whole(t) ==> Whole(t') && forall x | t'.CanLink(x) :: t.CanLink(x))
  }

  /** Whether two trees hold the same blocks and the same branches to switch to. */
  ghost predicate SameBranches(t: Tree, t': Tree) {
    Narrowed(t, t') && (Whole(t) ==> forall x | t.CanLink(x) :: t'.CanLink(x))
  }

  /** Two trees that differ in the marks of the chain only. */
  ghost predicate SameStanding(t: Tree, t': Tree) {
    && t'.blocks == t.blocks && t'.atNumber == t.atNumber && (forall x :: t'.Linked(x) <==> t.Linked(x))
    && forall x :: t'.CanLink(x) <==> t.CanLink(x)
  }

  lemma SameIsWhole(t: Tree, t': Tree)
    requires SameStanding(t, t')
    ensures SameBranches(t, t') && (Whole(t') ==> Whole(t))
  {
  }

  lemma NarrowedTwice(t: Tree, t1: Tree, t': Tree)
    requires Narrowed(t, t1) && Narrowed(t1, t')
    ensures Narrowed(t, t')
  {
  }

  /** What switching, whatever its end, leaves as it is. */
  ghost predicate Steady(l: Ledger, l': Ledger) {
    Narrowed(l.tree, l'.tree) && l'.future == l.future
  }

  /** `l'` is `l` without its head. */
  ghost predicate PoppedTo(l: Ledger, l': Ledger) {
    && l.chain != [] && l'.chain == l.chain[..|l.chain| - 1] && l'.head == Before(l.chain, |l.chain| - 1)
    && PopKeeps(l, l')
  }

  /** What taking blocks back leaves as it is. */
  ghost predicate PopKeeps(l: Ledger, l': Ledger) {
    && SameStanding(l.tree, l'.tree) && l'.future == l.future
    && l'.undo == l.undo && l'.tallest == l.tallest && l'.regular == l.regular
  }

  /** `l` is `l0` with some blocks above place `k` taken back. */
  ghost predicate PoppedDown(l0: Ledger, l: Ledger, k: nat) {
    && k <= |l.chain| <= |l0.chain| && l.chain == l0.chain[..|l.chain|]
    && (forall i | |l.chain| <= i < |l0.chain| :: Poppable(l0.tree.blocks, l0.undo, l0.chain[i]))
    && PopKeeps(l0, l)
  }

  lemma PopMore(l0: Ledger, l: Ledger, l': Ledger, k: nat)
    requires PoppedDown(l0, l, k) && k < |l.chain| && PoppedTo(l, l')
    requires l.head == l.chain[|l.chain| - 1] && Poppable(l.tree.blocks, l.undo, l.head)
    ensures PoppedDown(l0, l', k)
  {
    var n := |l.chain|;
    PrefixPlace(l0.chain, l'.chain, n, k);
    assert l0.chain[..n][n - 1] == l0.chain[n - 1];
  }

  /** While blocks are taken back. */
  ghost predicate Popping(l0: Ledger, es0: seq<Event>, k: nat, l: Ledger, es: seq<Event>) {
    PoppedDown(l0, l, k) && es == es0 + Pops(|l0.chain| - |l.chain|)
  }

  lemma PoppingOn(l0: Ledger, es0: seq<Event>, k: nat, l: Ledger, es: seq<Event>, l': Ledger)
    requires Popping(l0, es0, k, l, es) && k < |l.chain| && PoppedOnce(l, Popped, l')
    ensures Popping(l0, es0, k, l', es + [Pop])
  {
    PopMore(l0, l, l', k);
    PopsMore(es0, |l0.chain| - |l.chain|, es, es + [Pop]);
  }

  lemma PoppingPlace(l0: Ledger, es0: seq<Event>, k: nat, l: Ledger, es: seq<Event>)
    requires Popping(l0, es0, k, l, es)
    ensures k <= |l.chain| && Before(l.chain, k) == Before(l0.chain, k)
  {
  }

  lemma PoppingStarts(l: Ledger, es: seq<Event>, k: nat)
    requires k <= |l.chain|
    ensures Popping(l, es, k, l, es)
  {
    assert l.chain[..|l.chain|] == l.chain;
    assert es + Pops(0) == es;
  }

  /** What is left of `l` when its head cannot be taken back. */
  ghost function Stopped(l: Ledger): Ledger
    requires l.head in l.tree.forks
  {
    if l.headBlock.number == 0 then l else Missed(l)
  }

  lemma PopFacts(w: World, l: Ledger)
    requires Standing(w, l) && l.chain != []
    ensures l.head in l.tree.blocks && l.headBlock == l.tree.blocks[l.head] && l.head in l.tree.forks
    ensures l.head == l.chain[|l.chain| - 1] && l.headBlock.previous == Before(l.chain, |l.chain| - 1)
    ensures SameStanding(l.tree, Included(l.tree, l.head, false))
  {
    HeadOfChain(w, l);
    assert l.tree.CanLink(l.chain[|l.chain| - 1]);
    UnmarkedFacts(l.tree, l.head);
  }

  lemma UnmarkedFacts(t: Tree, id: BlockId)
    requires t.Linked(id)
    ensures SameStanding(t, Included(t, id, false))
  {
    IncludedCanLink(t, id, false, Included(t, id, false));
  }

  /** How taking the head back ends. */
  ghost predicate PoppedOnce(l: Ledger, outcome: PopOutcome, l': Ledger) {
    && l.chain != [] && l.head == l.chain[|l.chain| - 1]
    && l.head in l.tree.blocks && l.headBlock == l.tree.blocks[l.head] && l.head in l.tree.forks
    && (outcome == Popped <==> Poppable(l.tree.blocks, l.undo, l.head))
    && (outcome == AtGenesis <==> l.headBlock.number == 0)
    && PopKeeps(l, l')
    && if outcome == Popped then PoppedTo(l, l') else l' == Stopped(l)
  }

  lemma PopIs(l: Ledger, outcome: PopOutcome, l': Ledger)
    requires l.chain != [] && l.head == l.chain[|l.chain| - 1] && l.headBlock.previous == Before(l.chain, |l.chain| - 1)
    requires l.head in l.tree.blocks && l.headBlock == l.tree.blocks[l.head] && l.head in l.tree.forks
    requires SameStanding(l.tree, Included(l.tree, l.head, false))
    requires outcome == AtGenesis <==> l.headBlock.number == 0
    requires outcome == NoUndo <==> l.headBlock.number != 0 && l.head !in l.undo
    requires match outcome case AtGenesis => l' == l case NoUndo => l' == Missed(l) case Popped => l' == Shortened(l)
    ensures PoppedOnce(l, outcome, l')
  {
  }

  /** While the undo history is not full, it gains a block and loses none. */
  ghost predicate Saved(w: World, blocks: Blocks, undo: map<BlockId, Delta>, id: BlockId, undo': map<BlockId, Delta>)
    requires id in blocks
  {
    blocks[id].number <= MAX_UNDO_HISTORY ==>
      undo.Keys <= undo'.Keys && (w.minUndo <= blocks[id].number ==> id in undo')
  }

  /** The same for the blocks `up`. */
  ghost predicate AllSaved(w: World, blocks: Blocks, undo: map<BlockId, Delta>, up: seq<BlockId>,
          undo': map<BlockId, Delta>) {
    (forall i | 0 <= i < |up| :: up[i] in blocks && blocks[up[i]].number <= MAX_UNDO_HISTORY) ==>
      && undo.Keys <= undo'.Keys
      && (forall i | 0 <= i < |up| :: w.minUndo <= blocks[up[i]].number ==> up[i] in undo')
  }

  lemma SaveMore(w: World, blocks: Blocks, undo: map<BlockId, Delta>, up: seq<BlockId>, undo1: map<BlockId, Delta>,
          id: BlockId, undo': map<BlockId, Delta>, longer: seq<BlockId>)
    requires AllSaved(w, blocks, undo, up, undo1) && id in blocks && Saved(w, blocks, undo1, id, undo')
    requires longer == up + [id]
    ensures AllSaved(w, blocks, undo, longer, undo')
  {
    if forall i | 0 <= i < |longer| :: longer[i] in blocks && blocks[longer[i]].number <= MAX_UNDO_HISTORY {
      forall i | 0 <= i < |up| ensures up[i] in blocks && blocks[up[i]].number <= MAX_UNDO_HISTORY {
        assert longer[i] == up[i];
      }
      assert longer[|up|] == id;
    }
  }

  /** The blocks `up` are each numbered one above their predecessor. */
  ghost predicate AllInOrder(blocks: Blocks, up: seq<BlockId>) {
    forall i | 0 <= i < |up| :: up[i] in blocks && InOrder(blocks, up[i])
  }

  lemma OneMoreInOrder(blocks: Blocks, up: seq<BlockId>, id: BlockId, longer: seq<BlockId>)
    requires id in blocks && longer == up + [id]
    ensures AllInOrder(blocks, longer) <==> AllInOrder(blocks, up) && InOrder(blocks, id)
  {
    if AllInOrder(blocks, longer) {
      assert longer[|up|] == id;
      forall i | 0 <= i < |up| ensures up[i] in blocks && InOrder(blocks, up[i]) {
        assert longer[i] == up[i];
      }
    }
  }

  /** `l'` is `l` with `id` as its new head. */
  ghost predicate ExtendedBy(w: World, l: Ledger, id: BlockId, l': Ledger) {
    && id in l.tree.blocks && Saved(w, l.tree.blocks, l.undo, id, l'.undo)
    && l'.chain == l.chain + [id] && l'.head == id && l'.tallest == Max(l.tallest, |l'.chain|)
    && (l'.regular <==> l.regular && InOrder(l.tree.blocks, id))
    && l'.tree.blocks == l.tree.blocks && l'.tree.atNumber == l.tree.atNumber && l'.future == l.future
    && (forall x :: l'.tree.Linked(x) <==> l.tree.Linked(x))
    && (forall x :: l'.tree.CanLink(x) <==> l.tree.CanLink(x) || x == id)
  }

  /** `l'` is `l` with `id`, which failed the checks, and what comes after it refused. */
  ghost predicate RefusedBy(w: World, now: nat, l: Ledger, id: BlockId, early: bool, l': Ledger) {
    && l'.chain == l.chain && l'.head == l.head && l'.tallest == l.tallest && l'.undo == l.undo && l'.regular == l.regular
    && l'.headBlock == l.headBlock && Steady(l, l') && StandsRefused(w, now, l', id, early)
    && forall x :: l'.tree.CanLink(x) <==> l.tree.CanLink(x) && !Above(l'.tree.blocks, x, id, w.depth)
  }

  /** A block that would come next fails the checks, and with what comes after it cannot be
      switched to. */
  ghost predicate StandsRefused(w: World, now: nat, l: Ledger, id: BlockId, early: bool) {
    && id in l.tree.blocks && l.tree.blocks[id].previous == l.head
    && Judgement(w, now, l, id) == (if early then Early else Rejected)
    && Acyclic(l.tree.blocks, w.depth) && forall x | Above(l.tree.blocks, x, id, w.depth) :: !l.tree.CanLink(x)
  }

  /** `l` is `l0` led `m` blocks up the branch. */
  ghost predicate ExtendedUp(w: World, l0: Ledger, l: Ledger, h: seq<BlockId>, m: nat)
    requires m < |h|
  {
    && l.head == h[|h| - 1 - m] && l.chain == l0.chain + Upward(h)[..m]
    && SameBranches(l0.tree, l.tree) && l.future == l0.future && l0.tallest <= l.tallest <= Max(l0.tallest, |l.chain|)
    && (l.regular <==> l0.regular && AllInOrder(l0.tree.blocks, Upward(h)[..m]))
    && AllSaved(w, l0.tree.blocks, l0.undo, Upward(h)[..m], l.undo)
  }

  lemma ExtendMore(w: World, l0: Ledger, l: Ledger, h: seq<BlockId>, m: nat, l': Ledger)
    requires m + 1 < |h| && ExtendedUp(w, l0, l, h, m) && ExtendedBy(w, l, h[|h| - 2 - m], l')
    requires Whole(l0.tree) ==> l0.tree.CanLink(h[|h| - 2 - m])
    ensures ExtendedUp(w, l0, l', h, m + 1)
  {
    UpwardStep(h, |h| - 1 - m);
    SaveMore(w, l0.tree.blocks, l0.undo, Upward(h)[..m], l.undo, h[|h| - 2 - m], l'.undo, Upward(h)[..m + 1]);
    OneMoreInOrder(l0.tree.blocks, Upward(h)[..m], h[|h| - 2 - m], Upward(h)[..m + 1]);
    BranchesStay(l0.tree, l.tree, h[|h| - 2 - m], l'.tree);
  }

  lemma BranchesStay(t0: Tree, t: Tree, id: BlockId, t': Tree)
    requires SameBranches(t0, t) && (Whole(t0) ==> t0.CanLink(id))
    requires t'.blocks == t.blocks && t'.atNumber == t.atNumber && forall x :: t'.Linked(x) <==> t.Linked(x)
    requires forall x :: t'.CanLink(x) <==> t.CanLink(x) || x == id
    ensures SameBranches(t0, t')
  {
    if Whole(t0) {
      forall x | x in t'.blocks && t'.CanLink(x) ensures t'.CanLink(t'.blocks[x].previous) {
        assert t.CanLink(x) && t.CanLink(t.blocks[x].previous);
      }
    }
  }

  lemma ExtendFacts(w: World, l: Ledger, id: BlockId, l': Ledger)
    requires Follows(w, l, id) && l' == Extended(w, l, id) && HeadCounted(l)
    ensures ExtendedBy(w, l, id, l')
  {
    StaysRegular(w, l, id);
    IncludedCanLink(l.tree, id, true, l'.tree);
  }

  lemma RefuseFacts(w: World, now: nat, l: Ledger, id: BlockId, early: bool, l': Ledger)
    requires Shape(l.tree) && Acyclic(l.tree.blocks, w.depth)
    requires Follows(w, l, id) && Judgement(w, now, l, id) == (if early then Early else Rejected)
    requires RefusedTo(w, l, id, l')
    ensures RefusedBy(w, now, l, id, early, l')
  {
    var marked := RefusedMarks(w, l, id, l');
    RefusedFrom(w, now, l, id, early, marked, l');
  }

  lemma RefusedMarks(w: World, l: Ledger, id: BlockId, l': Ledger) returns (marked: set<BlockId>)
    requires RefusedTo(w, l, id, l')
    ensures Descendants(l.tree, id, marked, w.depth)
    ensures l' == l.(tree := l.tree.(forks := JudgeAll(l.tree.forks, marked + {id}, Some(false))))
  {
    marked :| Descendants(l.tree, id, marked, w.depth)
      && l' == l.(tree := l.tree.(forks := JudgeAll(l.tree.forks, marked + {id}, Some(false))));
  }

  lemma RefusedFrom(w: World, now: nat, l: Ledger, id: BlockId, early: bool, marked: set<BlockId>, l': Ledger)
    requires Shape(l.tree) && Acyclic(l.tree.blocks, w.depth)
    requires Follows(w, l, id) && Judgement(w, now, l, id) == (if early then Early else Rejected)
    requires Descendants(l.tree, id, marked, w.depth)
    requires l' == l.(tree := l.tree.(forks := JudgeAll(l.tree.forks, marked + {id}, Some(false))))
    ensures RefusedBy(w, now, l, id, early, l')
  {
    RefusedTree(l.tree, id, marked, l'.tree, w.depth);
    RefusedIs(w, now, l, id, early, l'.tree, l');
  }

  lemma RefusedIs(w: World, now: nat, l: Ledger, id: BlockId, early: bool, t': Tree, l': Ledger)
    requires Acyclic(l.tree.blocks, w.depth) && Narrowed(l.tree, t') && l' == l.(tree := t')
    requires Follows(w, l, id) && Judgement(w, now, l, id) == (if early then Early else Rejected)
    requires forall x :: t'.CanLink(x) <==> l.tree.CanLink(x) && !Above(l.tree.blocks, x, id, w.depth)
    ensures RefusedBy(w, now, l, id, early, l')
  {
  }

  lemma RefusedTree(t: Tree, id: BlockId, marked: set<BlockId>, t': Tree, depth: BlockId -> nat)
    requires Shape(t) && Acyclic(t.blocks, depth) && Descendants(t, id, marked, depth)
    requires t' == t.(forks := JudgeAll(t.forks, marked + {id}, Some(false)))
    ensures Narrowed(t, t')
    ensures forall x :: t'.CanLink(x) <==> t.CanLink(x) && !Above(t.blocks, x, id, depth)
  {
    RefusalWhole(t, id, marked, t', depth);
    forall x ensures t'.CanLink(x) <==> t.CanLink(x) && !Above(t.blocks, x, id, depth) {
      if x in t.forks {
        RefusedStanding(t, id, marked, t'.forks, x, depth);
      }
    }
  }

  /**
   How taking blocks back to place `k` ends: there, exactly when every block above can be
   taken back, and otherwise at the topmost that cannot.
   */
  ghost predicate PopResult(l: Ledger, k: nat, outcome: PopOutcome, l': Ledger) {
    && k <= |l.chain| && PopKeeps(l, l')
    && (outcome == Popped <==> forall i | k <= i < |l.chain| :: Poppable(l.tree.blocks, l.undo, l.chain[i]))
    && (outcome == Popped ==> l'.chain == l.chain[..k] && l'.head == Before(l.chain, k))
    && (outcome != Popped ==>
          && k < |l'.chain| <= |l.chain| && l'.chain == l.chain[..|l'.chain|]
          && (forall i | |l'.chain| <= i < |l.chain| :: Poppable(l.tree.blocks, l.undo, l.chain[i]))
          && var stop := l'.chain[|l'.chain| - 1];
          && stop in l.tree.blocks && l'.head == stop && l'.headBlock == l.tree.blocks[stop]
          && (outcome == AtGenesis <==> l.tree.blocks[stop].number == 0)
          && (outcome == NoUndo ==> stop !in l.undo))
  }

  lemma PopEnds(l0: Ledger, l: Ledger, k: nat, outcome: PopOutcome, l': Ledger)
    requires PoppedDown(l0, l, k) && PopKeeps(l, l') && l'.chain == l.chain
    requires outcome == Popped ==> |l.chain| == k && l'.head == Before(l0.chain, k)
    requires outcome != Popped ==>
               && k < |l.chain| && var stop := l.chain[|l.chain| - 1];
               && stop in l0.tree.blocks && !Poppable(l0.tree.blocks, l0.undo, stop)
               && l'.head == stop && l'.headBlock == l0.tree.blocks[stop]
               && (outcome == AtGenesis <==> l0.tree.blocks[stop].number == 0)
    ensures PopResult(l0, k, outcome, l')
  {
    if outcome != Popped {
      var n := |l.chain| - 1;
      assert l0.chain[n] == l0.chain[..|l.chain|][n];
    }
  }

  lemma PoppingStops(l0: Ledger, es0: seq<Event>, k: nat, l: Ledger, es: seq<Event>, outcome: PopOutcome, l': Ledger)
    requires Popping(l0, es0, k, l, es) && k < |l.chain| && outcome != Popped && PoppedOnce(l, outcome, l')
    ensures PopResult(l0, k, outcome, l') && l'.chain == l.chain
  {
    PopEnds(l0, l, k, outcome, l');
  }

  /** How leading the chain up a branch ends: at its end, or before a block that fails the
      checks. */
  ghost predicate AlongResult(w: World, now: nat, l: Ledger, h: seq<BlockId>, ok: bool, early: bool, m: nat,
          l': Ledger) {
    && m < |h| && l'.chain == l.chain + Upward(h)[..m] && l.tallest <= l'.tallest <= Max(l.tallest, |l'.chain|)
    && AllSaved(w, l.tree.blocks, l.undo, Upward(h)[..m], l'.undo)
    && (l'.regular <==> l.regular && AllInOrder(l.tree.blocks, Upward(h)[..m]))
    && Steady(l, l')
    && (ok ==> m == |h| - 1 && l'.head == h[0] && SameBranches(l.tree, l'.tree))
    && (!ok ==> m < |h| - 1 && StandsRefused(w, now, l', Upward(h)[m], early))
  }

  /** A branch all of which is linked, and can be switched to if the tree is whole. */
  ghost predicate Climbable(t: Tree, h: seq<BlockId>) {
    && (forall i | 0 <= i < |h| :: t.Linked(h[i]))
    && (forall i | 0 <= i < |h| - 1 :: h[i] in t.blocks)
    && (forall i {:trigger t.blocks[h[i]]} | 0 <= i < |h| - 1 :: t.blocks[h[i]].previous == h[i + 1])
    && (Whole(t) ==> forall i | 0 <= i < |h| :: t.CanLink(h[i]))
  }

  lemma BranchIsClimbable(t: Tree, h: seq<BlockId>)
    requires |h| > 0 && Branch(t, h, h[0]) && t.CanLink(h[0]) && forall i | 0 <= i < |h| :: t.Linked(h[i])
    ensures Climbable(t, h)
  {
    if Whole(t) {
      forall i | 0 <= i < |h| ensures t.CanLink(h[i]) {
        BranchCanLink(t, h, i);
      }
    }
  }

  lemma NextFollows(w: World, l0: Ledger, es0: seq<Event>, h: seq<BlockId>, m: nat, l: Ledger, es: seq<Event>)
    requires m < |h| - 1 && Climbable(l0.tree, h) && Climbing(w, l0, es0, h, m, l, es)
    ensures Follows(w, l, h[|h| - 2 - m])
  {
    assert l0.tree.blocks[h[|h| - 2 - m]].previous == h[|h| - 1 - m];
    assert l0.tree.Linked(h[|h| - 2 - m]) && l.tree.Linked(h[|h| - 2 - m]);
  }

  /** While a branch is climbed. */
  ghost predicate Climbing(w: World, l0: Ledger, es0: seq<Event>, h: seq<BlockId>, m: nat, l: Ledger, es: seq<Event>) {
    m < |h| && ExtendedUp(w, l0, l, h, m) && OnlyExtends(es0, es)
  }

  lemma ClimbingOn(w: World, now: nat, l0: Ledger, es0: seq<Event>, h: seq<BlockId>, m: nat, l: Ledger, es: seq<Event>,
          l': Ledger)
    requires Climbing(w, l0, es0, h, m, l, es) && m + 1 < |h| && ExtendedBy(w, l, h[|h| - 2 - m], l')
    requires Whole(l0.tree) ==> l0.tree.CanLink(h[|h| - 2 - m])
    ensures Climbing(w, l0, es0, h, m + 1, l', es + [Event.Extend(h[|h| - 2 - m], now)])
  {
    ExtendMore(w, l0, l, h, m, l');
    ExtendsMore(es0, es, Event.Extend(h[|h| - 2 - m], now), es + [Event.Extend(h[|h| - 2 - m], now)]);
  }

  /** The events of a climb: blocks added, at last perhaps one refused. */
  ghost predicate ClimbEvents(es0: seq<Event>, es: seq<Event>, ok: bool, early: bool) {
    && es0 <= es && (forall j | |es0| <= j < |es| :: !es[j].Pop?)
    && (RefusedEarly(es, |es0|) <==> !ok && early)
  }

  lemma ClimbingStops(w: World, now: nat, l0: Ledger, es0: seq<Event>, h: seq<BlockId>, m: nat, l: Ledger,
          es: seq<Event>, early: bool, l': Ledger)
    requires Climbing(w, l0, es0, h, m, l, es) && m + 1 < |h| && RefusedBy(w, now, l, h[|h| - 2 - m], early, l')
    ensures AlongResult(w, now, l0, h, false, early, m, l')
    ensures ClimbEvents(es0, es + [Event.Refuse(h[|h| - 2 - m], now, early)], false, early)
  {
    AlongStops(w, now, l0, l, h, m, early, l');
    ExtendsMore(es0, es, Event.Refuse(h[|h| - 2 - m], now, early), es + [Event.Refuse(h[|h| - 2 - m], now, early)]);
  }

  lemma ClimbingEnds(w: World, now: nat, l0: Ledger, es0: seq<Event>, h: seq<BlockId>, m: nat, l: Ledger,
          es: seq<Event>)
    requires m == |h| - 1 && Climbing(w, l0, es0, h, m, l, es)
    ensures AlongResult(w, now, l0, h, true, false, m, l)
    ensures ClimbEvents(es0, es, true, false)
  {
    AlongGoes(w, now, l0, l, h);
  }

  lemma ClimbingStarts(w: World, l: Ledger, es: seq<Event>, h: seq<BlockId>)
    requires |h| > 0 && h[|h| - 1] == l.head
    ensures Climbing(w, l, es, h, 0, l, es)
  {
    assert l.chain + Upward(h)[..0] == l.chain;
  }

  lemma AlongStops(w: World, now: nat, l0: Ledger, l: Ledger, h: seq<BlockId>, m: nat, early: bool, l': Ledger)
    requires m < |h| - 1 && ExtendedUp(w, l0, l, h, m) && RefusedBy(w, now, l, h[|h| - 2 - m], early, l')
    ensures AlongResult(w, now, l0, h, false, early, m, l')
  {
  }

  lemma AlongGoes(w: World, now: nat, l0: Ledger, l: Ledger, h: seq<BlockId>)
    requires |h| > 0 && ExtendedUp(w, l0, l, h, |h| - 1)
    ensures AlongResult(w, now, l0, h, true, false, |h| - 1, l)
  {
  }

  /** How taking the chain back to a place and leading it up a branch ends. */
  ghost predicate Reorganized(w: World, now: nat, l: Ledger, h: seq<BlockId>, k: nat, outcome: SwitchOutcome, m: nat,
          l': Ledger)
    requires |h| > 0
  {
    exists popped, l1 :: PopResult(l, k, popped, l1)
      && if popped != Popped then outcome == (if popped == NoUndo then Lost else Stuck) && m == 0 && l' == l1
         else ClimbedTo(w, now, l1, h, outcome, m, l')
  }

  /** How leading the chain up a branch ends, for its end. */
  ghost predicate ClimbedTo(w: World, now: nat, l: Ledger, h: seq<BlockId>, outcome: SwitchOutcome, m: nat, l': Ledger)
    requires |h| > 0
  {
    && Reached(outcome) && AlongResult(w, now, l, h, outcome == Switched, outcome.Refused? && outcome.early, m, l')
    && (outcome == Switched ==> h[0] in l.tree.blocks && l'.headBlock == l.tree.blocks[h[0]])
    && (outcome.Refused? ==> !l'.tree.CanLink(h[0]))
  }

  lemma ReorganizedIs(w: World, now: nat, l: Ledger, h: seq<BlockId>, k: nat, outcome: SwitchOutcome, m: nat,
          l': Ledger)
    requires |h| > 1 && Branch(l.tree, h, h[0]) && k <= |l.chain| && Before(l.chain, k) == h[|h| - 1]
    requires h[0] != l.head && Reorganized(w, now, l, h, k, outcome, m, l')
    ensures SwitchResult(w, now, l, h[0], outcome, h, k, m, l')
  {
    var popped, l1 :| PopResult(l, k, popped, l1)
      && if popped != Popped then outcome == (if popped == NoUndo then Lost else Stuck) && m == 0 && l' == l1
         else ClimbedTo(w, now, l1, h, outcome, m, l');
    if popped != Popped {
      SwitchStops(w, now, l, h, k, popped, l');
    } else {
      SwitchGoes(w, now, l, h, k, l1, outcome == Switched, outcome.Refused? && outcome.early, m, l');
    }
  }

  lemma SwitchStops(w: World, now: nat, l: Ledger, h: seq<BlockId>, k: nat, popped: PopOutcome, l': Ledger)
    requires |h| > 1 && Branch(l.tree, h, h[0]) && k <= |l.chain| && Before(l.chain, k) == h[|h| - 1]
    requires h[0] != l.head && PopResult(l, k, popped, l') && popped != Popped
    ensures SwitchResult(w, now, l, h[0], if popped == NoUndo then Lost else Stuck, h, k, 0, l')
  {
    SameIsWhole(l.tree, l'.tree);
  }

  lemma SwitchGoes(w: World, now: nat, l: Ledger, h: seq<BlockId>, k: nat, l1: Ledger, ok: bool, early: bool, m: nat,
          l': Ledger)
    requires |h| > 0 && Branch(l.tree, h, h[0]) && k <= |l.chain| && Before(l.chain, k) == h[|h| - 1]
    requires h[0] != l.head && PopResult(l, k, Popped, l1) && AlongResult(w, now, l1, h, ok, early, m, l')
    requires ok ==> h[0] in l.tree.blocks && l'.headBlock == l.tree.blocks[h[0]]
    requires !ok ==> !l'.tree.CanLink(h[0])
    ensures SwitchResult(w, now, l, h[0], if ok then Switched else Refused(early), h, k, m, l')
  {
    SameIsWhole(l.tree, l1.tree);
  }

  lemma AlreadyThere(w: World, now: nat, l: Ledger)
    requires l.chain != [] && l.head == l.chain[|l.chain| - 1] && l.head in l.tree.blocks
    requires l.headBlock == l.tree.blocks[l.head]
    ensures SwitchResult(w, now, l, l.head, Switched, [l.head], |l.chain|, 0, l)
  {
    assert l.chain == l.chain[..|l.chain|] + Upward([l.head])[..0];
  }

  /** Whether a switch got past the fork point. */
  predicate Reached(outcome: SwitchOutcome) {
    outcome == Switched || outcome.Refused?
  }

  /**
   How a switch to `id` ends. The branch `h` from `id` meets the chain at place `k`. The
   switch fails exactly when a block above that place cannot be taken back, and stops at
   the topmost such block: `Stuck` if its number is 0, `Lost` if it has no undo state.
   Otherwise the chain is led `m` blocks up the branch: to its end, or up to a block that
   fails the checks, with which `id` is refused.
   */
  ghost predicate SwitchResult(w: World, now: nat, l: Ledger, id: BlockId, outcome: SwitchOutcome, h: seq<BlockId>,
          k: nat, m: nat, l': Ledger) {
    && outcome != DeadEnd && (id == l.head ==> outcome == Switched)
    && Steady(l, l') && (!outcome.Refused? ==> SameBranches(l.tree, l'.tree))
    && Branch(l.tree, h, id) && k <= |l.chain| && Before(l.chain, k) == h[|h| - 1] && m < |h|
    && (Reached(outcome) <==> forall i | k <= i < |l.chain| :: Poppable(l.tree.blocks, l.undo, l.chain[i]))
    && (Reached(outcome) ==>
          && l'.chain == l.chain[..k] + Upward(h)[..m] && l.tallest <= l'.tallest <= Max(l.tallest, |l'.chain|)
          && (l'.regular <==> l.regular && AllInOrder(l.tree.blocks, Upward(h)[..m]))
          && AllSaved(w, l.tree.blocks, l.undo, Upward(h)[..m], l'.undo))
    && (outcome == Switched ==> m == |h| - 1 && l'.head == id && id in l.tree.blocks && l'.headBlock == l.tree.blocks[id])
    && (outcome.Refused? ==> m < |h| - 1 && !l'.tree.CanLink(id) && StandsRefused(w, now, l', Upward(h)[m], outcome.early))
    && (!Reached(outcome) ==>
          && |h| > 1 && PopKeeps(l, l') && k < |l'.chain| <= |l.chain| && l'.chain == l.chain[..|l'.chain|]
          && (forall i | |l'.chain| <= i < |l.chain| :: Poppable(l.tree.blocks, l.undo, l.chain[i]))
          && var stop := l'.chain[|l'.chain| - 1];
          && stop in l.tree.blocks && l'.head == stop && l'.headBlock == l.tree.blocks[stop]
          && (outcome == Stuck <==> l.tree.blocks[stop].number == 0)
          && (outcome == Lost ==> stop !in l.undo))
  }

  /** While numbers are places, a switch fails exactly when the lowest block to take back
      has left the undo history. */
  lemma FailsInOrder(w: World, now: nat, l: Ledger, id: BlockId, outcome: SwitchOutcome, h: seq<BlockId>, k: nat,
          m: nat, l': Ledger)
    requires Counted(w, l) && SwitchResult(w, now, l, id, outcome, h, k, m, l')
    ensures l.regular ==>
              outcome != Stuck && (outcome == Lost <==> k < |l.chain| && !Retained(k + 1, w.minUndo, l.tallest))
  {
    if l.regular {
      PopsInOrder(w, l, k);
    }
  }

  /** Where a place is secure, trying a block as high as the chain does not fail, and if
      the block is refused the place is secure still. */
  lemma SecureTry(w: World, now: nat, l: Ledger, id: BlockId, outcome: SwitchOutcome, h: seq<BlockId>, k: nat, m: nat,
          l': Ledger, a: nat, top: nat)
    requires Ordered(w, l) && Secure(w, l, a, top) && SwitchResult(w, now, l, id, outcome, h, k, m, l')
    requires id in l.tree.blocks && l.tree.CanLink(id) && id != l.head && |l.chain| <= l.tree.blocks[id].number
    ensures Reached(outcome)
    ensures outcome.Refused? && Ordered(w, l') ==> Secure(w, l', a, top) && |l'.chain| < l.tree.blocks[id].number
  {
    SecureFork(w, l, a, top, h, k);
    forall i | k <= i < |l.chain| ensures Poppable(l.tree.blocks, l.undo, l.chain[i]) {
      SecurePops(w, l, a, top, i);
    }
    if outcome.Refused? && Ordered(w, l') {
      BranchInOrder(l.tree, h);
      UpwardInOrder(l.tree.blocks, h, m);
      SecureRefused(w, l, h, k, m, l', a, top);
      RefusedLower(w, l, h, k, m);
    }
  }

  /** The blocks of a switchable branch are in order if all switchable blocks are. */
  lemma BranchInOrder(t: Tree, h: seq<BlockId>)
    requires Whole(t) && SwitchableInOrder(t) && |h| > 0 && Branch(t, h, h[0]) && t.CanLink(h[0])
    ensures forall i | 0 <= i < |h| - 1 :: h[i] in t.blocks && InOrder(t.blocks, h[i])
  {
    forall i | 0 <= i < |h| - 1 ensures h[i] in t.blocks && InOrder(t.blocks, h[i]) {
      BranchCanLink(t, h, i);
    }
  }

  lemma UpwardInOrder(blocks: Blocks, h: seq<BlockId>, m: nat)
    requires m < |h| && forall i | 0 <= i < |h| - 1 :: h[i] in blocks && InOrder(blocks, h[i])
    ensures AllInOrder(blocks, Upward(h)[..m])
  {
  }

  lemma SecureRefused(w: World, l: Ledger, h: seq<BlockId>, k: nat, m: nat, l': Ledger, a: nat, top: nat)
    requires Ordered(w, l') && Secure(w, l, a, top) && |h| > 0 && l'.regular
    requires a <= k <= |l.chain| && m < |h| - 1
    requires l'.chain == l.chain[..k] + Upward(h)[..m] && l'.tallest <= Max(l.tallest, |l'.chain|)
    requires Narrowed(l.tree, l'.tree)
    ensures Secure(w, l', a, top)
  {
    ChainUpTo(w, l', top);
    PrefixKept(l.chain, k, Upward(h)[..m], a, l'.chain);
    SecureStays(w, l, l', a, top);
  }

  lemma PrefixKept(chain: seq<BlockId>, k: nat, more: seq<BlockId>, a: nat, chain': seq<BlockId>)
    requires a <= k <= |chain| && chain' == chain[..k] + more
    ensures chain'[..a] == chain[..a] && a <= |chain'|
  {
  }

  /** A refused branch leaves the chain shorter than its end is high. */
  lemma RefusedLower(w: World, l: Ledger, h: seq<BlockId>, k: nat, m: nat)
    requires Ordered(w, l) && l.regular && |h| > 0 && Branch(l.tree, h, h[0])
    requires forall i | 0 <= i < |h| - 1 :: h[i] in l.tree.blocks && InOrder(l.tree.blocks, h[i])
    requires k <= |l.chain| && Before(l.chain, k) == h[|h| - 1] && m < |h| - 1
    ensures h[0] in l.tree.blocks && |l.chain[..k] + Upward(h)[..m]| < l.tree.blocks[h[0]].number
  {
    PlaceNumber(w, l, k);
    BranchNumbers(l.tree.blocks, h, k, 0);
  }

  /** Blocks numbered `n` can be tried without a switch failing. */
  ghost predicate SecureUpTo(w: World, l: Ledger, a: nat, top: nat, n: nat) {
    Ordered(w, l) && Secure(w, l, a, top) && |l.chain| <= n
  }

  lemma TryIsSecure(w: World, now: nat, l: Ledger, id: BlockId, outcome: SwitchOutcome, h: seq<BlockId>, k: nat,
          m: nat, l': Ledger, a: nat, top: nat, n: nat)
    requires SwitchResult(w, now, l, id, outcome, h, k, m, l') && id in l.tree.blocks && l.tree.CanLink(id)
    requires n == l.tree.blocks[id].number && (outcome.Refused? ==> Ordered(w, l'))
    ensures SecureUpTo(w, l, a, top, n) ==> Reached(outcome) && (outcome.Refused? ==> SecureUpTo(w, l', a, top, n))
  {
    if id != l.head && SecureUpTo(w, l, a, top, n) {
      SecureTry(w, now, l, id, outcome, h, k, m, l', a, top);
    }
  }

  /** A block numbered `n` that can be switched to leaves the chain below the head, and
      the head cannot be taken back. */
  ghost predicate Blocked(l: Ledger, n: nat, h: seq<BlockId>, k: nat) {
    && |h| > 1 && h[0] in l.tree.blocks && l.tree.blocks[h[0]].number == n && l.tree.Linked(h[0])
    && (forall i | 0 <= i < |h| - 1 :: h[i] in l.tree.blocks)
    && (forall i {:trigger l.tree.blocks[h[i]]} | 0 <= i < |h| - 1 :: l.tree.blocks[h[i]].previous == h[i + 1])
    && k < |l.chain| && Before(l.chain, k) == h[|h| - 1]
    && !Poppable(l.tree.blocks, l.undo, l.chain[|l.chain| - 1])
  }

  lemma SwitchBlocked(w: World, now: nat, l: Ledger, id: BlockId, outcome: SwitchOutcome, h: seq<BlockId>, k: nat,
          m: nat, l': Ledger)
    requires SwitchResult(w, now, l, id, outcome, h, k, m, l') && !Reached(outcome)
    requires id in l.tree.blocks && l.tree.CanLink(id)
    ensures Blocked(l', l.tree.blocks[id].number, h, k)
  {
    assert l.tree.Linked(h[0]);
  }

  /** None of the blocks listed under `n` can be switched to. */
  ghost predicate NoneAt(t: Tree, n: nat) {
    n in t.atNumber ==> forall i | 0 <= i < |t.atNumber[n]| :: !t.CanLink(t.atNumber[n][i])
  }

  /** Once nothing at number `n` can be switched to, nothing above `n - 1` can. */
  lemma NextNumber(t: Tree, n: nat)
    requires Shape(t) && n > 0 && NoneAt(t, n) && NoneAbove(t, n)
    ensures NoneAbove(t, n - 1)
  {
    forall x | x in t.blocks && t.CanLink(x) ensures t.blocks[x].number <= n - 1 {
      var number := t.blocks[x].number;
      var i :| 0 <= i < |t.atNumber[number]| && t.atNumber[number][i] == x;
    }
  }

  /** And the chain, whose head can be switched to, is lower. */
  lemma SecureNext(w: World, l: Ledger, a: nat, top: nat, n: nat)
    requires SecureUpTo(w, l, a, top, n) && n > 0 && NoneAt(l.tree, n)
    ensures SecureUpTo(w, l, a, top, n - 1)
  {
    if l.chain != [] {
      var x := l.chain[|l.chain| - 1];
      HeadPlace(w, l);
      NotAt(l.tree, n, x);
    }
  }

  lemma HeadPlace(w: World, l: Ledger)
    requires Ordered(w, l) && l.regular && l.chain != []
    ensures
      var x := l.chain[|l.chain| - 1];
      x in l.tree.blocks && l.tree.CanLink(x) && l.tree.blocks[x].number == |l.chain|
  {
    HeadIsCounted(w, l);
    HeadOfChain(w, l);
    assert l.tree.CanLink(l.chain[|l.chain| - 1]);
  }

  lemma NotAt(t: Tree, n: nat, x: BlockId)
    requires Shape(t) && NoneAt(t, n) && x in t.blocks && t.CanLink(x)
    ensures t.blocks[x].number != n
  {
    var number := t.blocks[x].number;
    var i :| 0 <= i < |t.atNumber[number]| && t.atNumber[number][i] == x;
  }

  /** After a block is stored, what can be switched to is no higher than it was or than the
      block returned, if that is the highest of the new ones. */
  lemma StoredHeights(w: World, l: Ledger, id: BlockId, block: Block, l': Ledger, longest: BlockId, fork: ForkData,
          height: nat)
    requires StoredTo(w, l, id, block, l', longest, fork) && !l.tree.CanLink(id)
    ensures fork.CanLink() ==> longest in l'.tree.blocks
    ensures fork.CanLink() ==> l'.tree.CanLink(id)
    ensures l'.tree.CanLink(id) <==> l.tree.CanLink(block.previous)
    ensures Reaching(l.tree, id, block, w.depth) && l'.tree.CanLink(id) ==>
              fork.CanLink() && (NoneAbove(l.tree, height) ==> NoneAbove(l'.tree, Max(height, l'.tree.blocks[longest].number)))
  {
    if Reaching(l.tree, id, block, w.depth) && l'.tree.CanLink(id) && NoneAbove(l.tree, height) {
      var top := Max(height, l'.tree.blocks[longest].number);
      forall x | x in l'.tree.blocks && l'.tree.CanLink(x) ensures l'.tree.blocks[x].number <= top {
        assert l.tree.CanLink(x) ==> x in l.tree.blocks;
      }
    }
  }

  /** Of the events from `p` on one refuses a block for its time only. */
  ghost predicate RefusedEarly(es: seq<Event>, p: nat) {
    exists j {:trigger es[j]} | p <= j < |es| :: es[j].Refuse? && es[j].early
  }

  /** What leads to `es'` after `es` are blocks added. */
  ghost predicate OnlyExtends(es: seq<Event>, es': seq<Event>) {
    es <= es' && forall j | |es| <= j < |es'| :: es'[j].Extend?
  }

  lemma ExtendsMore(es: seq<Event>, es1: seq<Event>, e: Event, es': seq<Event>)
    requires OnlyExtends(es, es1) && es' == es1 + [e]
    ensures es <= es' && forall j | |es| <= j < |es'| - 1 :: es'[j].Extend?
    ensures e.Extend? ==> OnlyExtends(es, es')
    ensures e.Refuse? ==> (RefusedEarly(es', |es|) <==> e.early)
  {
    assert es'[|es1|] == e;
  }

  lemma PopsMore(es: seq<Event>, n: nat, es1: seq<Event>, es': seq<Event>)
    requires es1 == es + Pops(n) && es' == es1 + [Pop]
    ensures es' == es + Pops(n + 1)
  {
  }

  /** The events of a switch: if it gets past the fork point, first `n` blocks are taken
      back and then none, and a block is refused for its time only if the outcome says so. */
  ghost predicate SwitchEvents(es: seq<Event>, es': seq<Event>, n: nat, outcome: SwitchOutcome) {
    && es <= es' && (Reached(outcome) ==> PopsFirst(es', |es|, n))
    && (RefusedEarly(es', |es|) <==> outcome.Refused? && outcome.early)
  }

  lemma PopsOnly(es: seq<Event>, j: nat, es': seq<Event>, n: nat, outcome: SwitchOutcome)
    requires es' == es + Pops(j) && !Reached(outcome)
    ensures SwitchEvents(es, es', n, outcome)
  {
    NoneEarly(es, j, es');
  }

  /** Blocks taken back, and then something else. */
  lemma PopsThenRest(es: seq<Event>, n: nat, es1: seq<Event>, es': seq<Event>, outcome: SwitchOutcome)
    requires es1 == es + Pops(n) && ClimbEvents(es1, es', outcome == Switched, outcome.Refused? && outcome.early)
    ensures Reached(outcome) ==> SwitchEvents(es, es', n, outcome)
  {
    NoneEarly(es, n, es1);
    EarlySplit(es1, es', |es|);
    forall j | |es| <= j < |es'| ensures es'[j].Pop? <==> j < |es| + n {
      assert j < |es1| ==> es'[j] == es1[j];
    }
  }

  lemma NoneEarly(es: seq<Event>, n: nat, es': seq<Event>)
    requires es' == es + Pops(n)
    ensures es <= es' && !RefusedEarly(es', |es|)
  {
  }

  lemma EarlySplit(es: seq<Event>, es': seq<Event>, p: nat)
    requires es <= es' && p <= |es|
    ensures RefusedEarly(es', p) <==> RefusedEarly(es, p) || RefusedEarly(es', |es|)
  {
    if RefusedEarly(es', p) {
      var j :| p <= j < |es'| && es'[j].Refuse? && es'[j].early;
      assert j < |es| ==> es[j] == es'[j];
    }
    if RefusedEarly(es, p) {
      var j :| p <= j < |es| && es[j].Refuse? && es[j].early;
      assert es'[j] == es[j];
    }
  }

  /** The list of future blocks gains `pushed` if a block has been refused for its time. */
  ghost predicate ListedIf(future: set<BlockId>, early: bool, pushed: BlockId, future': set<BlockId>) {
    future' == if early then future + {pushed} else future
  }

  /** Adding a block to the list leaves a place secure. */
  lemma ListedIsSecure(w: World, l: Ledger, id: BlockId, l': Ledger, a: nat, top: nat, n: nat)
    requires SecureUpTo(w, l, a, top, n) && id in l.tree.blocks && l' == l.(future := l.future + {id})
    ensures SecureUpTo(w, l', a, top, n)
  {
    ListedIsOrdered(w, l, id, l');
    forall x | x in l.tree.blocks && l.tree.CanLink(x) ensures Anchored(w, l', a, x) {
      assert Anchored(w, l, a, x);
    }
  }

  lemma ListedIsOrdered(w: World, l: Ledger, id: BlockId, l': Ledger)
    requires Ordered(w, l) && id in l.tree.blocks && l' == l.(future := l.future + {id})
    ensures Ordered(w, l')
  {
  }

  //  What an arriving block does

  /** All that can be switched to comes after what can, and is not higher than the head. */
  ghost predicate Fine(l: Ledger) {
    Whole(l.tree) && NoneAbove(l.tree, l.headBlock.number)
  }

  /** A block that cannot be linked leaves the chain alone; the listed branches come back. A
      whole tree stays whole exactly if no verdict is withdrawn after one that stands, and the
      head stays as high as any block that can be switched to exactly if none of them is
      higher. */
  ghost predicate Reopens(w: World, now: nat, l: Ledger, block: Block, l': Ledger) {
    && l' == l.(tree := l'.tree, future := Unexpired(now, l.tree.blocks, l.future))
    && (Whole(l.tree) ==> (Whole(l'.tree) <==> ClearNow(w, now, l)))
    && (NoneAbove(l.tree, l.headBlock.number) ==>
          (NoneAbove(l'.tree, l.headBlock.number) <==> NoneToReopen(w, now, l, block, l.headBlock.number)))
  }

  ghost predicate ClearNow(w: World, now: nat, l: Ledger) {
    && Shape(l.tree) && Acyclic(l.tree.blocks, w.depth)
    && Clear(l.tree, Unexpired(now, l.tree.blocks, l.future), w.depth)
  }

  lemma StoredIsUnlinkable(w: World, now: nat, l: Ledger, id: BlockId, block: Block, l1: Ledger, longest: BlockId,
          fork: ForkData)
    requires Standing(w, l) && StoredTo(w, l, id, block, l1, longest, fork) && !l1.tree.CanLink(id)
    ensures Unexpired(now, l1.tree.blocks, l1.future) == Unexpired(now, l.tree.blocks, l.future)
    ensures Unlinkable(l.tree, id, block, l1.tree, Unexpired(now, l.tree.blocks, l.future), w.depth)
  {
  }

  lemma ReopensStored(w: World, now: nat, l: Ledger, id: BlockId, block: Block, l1: Ledger, longest: BlockId,
          fork: ForkData, l': Ledger)
    requires Standing(w, l) && StoredTo(w, l, id, block, l1, longest, fork) && !l1.tree.CanLink(id)
    requires ReopenedTo(w, now, l1, l')
    ensures Reopens(w, now, l, block, l')
  {
    var listed := Unexpired(now, l.tree.blocks, l.future);
    StoredIsUnlinkable(w, now, l, id, block, l1, longest, fork);
    if Whole(l.tree) {
      ReopenedWhole(l.tree, id, block, l1.tree, listed, l'.tree, w.depth);
    }
    if NoneAbove(l.tree, l.headBlock.number) {
      ReopenedHeights(l.tree, id, block, l1.tree, listed, l'.tree, l.headBlock.number, w.depth);
    }
  }

  /** A block that can be linked keeps the head as high as any block that can be switched
      to, if no switch fails. */
  ghost predicate Climbs(l: Ledger, l': Ledger) {
    && (Whole(l.tree) ==> Whole(l'.tree))
    && (Fine(l) ==> Fine(l'))
  }

  /** A block that the database does not take in: known, or older than the undo history. */
  predicate Ignores(t: Tree, height: nat, id: BlockId, block: Block) {
    || (height > MAX_UNDO_HISTORY && block.number <= height - MAX_UNDO_HISTORY)
    || id in t.blocks
  }

  /** What an arriving block does if no switch fails. */
  ghost predicate Took(w: World, l: Ledger, a: Arrival, l': Ledger) {
    if Ignores(l.tree, l.headBlock.number, a.id, a.block) then l' == l
    else if l.tree.CanLink(a.block.previous) then HighestFirst(w, l, a) ==> Climbs(l, l')
    else Reopens(w, a.now, l, a.block, l')
  }

  ghost predicate HighestFirst(w: World, l: Ledger, a: Arrival) {
    Acyclic(l.tree.blocks, w.depth) && Reaching(l.tree, a.id, a.block, w.depth)
  }

  /** Whether a block that cannot be linked brings back no branch that it should not. */
  ghost predicate Gentle(w: World, l: Ledger, a: Arrival) {
    Ignores(l.tree, l.headBlock.number, a.id, a.block) || l.tree.CanLink(a.block.previous)
    || (ClearNow(w, a.now, l) && NoneToReopen(w, a.now, l, a.block, l.headBlock.number))
  }

  /** `states` are those before, between and after the arrivals. */
  ghost predicate Taken(w: World, states: seq<Ledger>, arrivals: seq<Arrival>) {
    |states| == |arrivals| + 1 && forall i | 0 <= i < |arrivals| :: TookAt(w, states, arrivals, i)
  }

  ghost predicate TookAt(w: World, states: seq<Ledger>, arrivals: seq<Arrival>, i: nat)
    requires i < |arrivals| < |states|
  {
    Took(w, states[i], arrivals[i], states[i + 1])
  }

  ghost predicate AlwaysFine(states: seq<Ledger>) {
    forall i | 0 <= i < |states| :: Fine(states[i])
  }

  ghost predicate AllGentle(w: World, states: seq<Ledger>, arrivals: seq<Arrival>)
    requires |states| == |arrivals| + 1
  {
    forall i {:trigger arrivals[i]} | 0 <= i < |arrivals| :: Gentle(w, states[i], arrivals[i])
  }

  ghost predicate AllHighestFirst(w: World, states: seq<Ledger>, arrivals: seq<Arrival>)
    requires |states| == |arrivals| + 1
  {
    forall i {:trigger arrivals[i]} | 0 <= i < |arrivals| && states[i].tree.CanLink(arrivals[i].block.previous) :: HighestFirst(w, states[i], arrivals[i])
  }

  lemma TookIsFine(w: World, l: Ledger, a: Arrival, l': Ledger)
    requires Fine(l) && Took(w, l, a, l') && (l.tree.CanLink(a.block.previous) ==> HighestFirst(w, l, a))
    ensures Fine(l') <==> Gentle(w, l, a)
  {
  }

  lemma NextIsFine(w: World, states: seq<Ledger>, arrivals: seq<Arrival>, i: nat, l: Ledger, a: Arrival, l': Ledger)
    requires Taken(w, states, arrivals) && i < |arrivals| && AllHighestFirst(w, states, arrivals)
    requires l == states[i] && a == arrivals[i] && l' == states[i + 1] && Fine(l)
    ensures Fine(l') <==> Gentle(w, l, a)
  {
    assert TookAt(w, states, arrivals, i);
    TookIsFine(w, l, a, l');
  }

  lemma {:induction false} FineUpTo(w: World, states: seq<Ledger>, arrivals: seq<Arrival>, i: nat)
    requires Taken(w, states, arrivals) && AllHighestFirst(w, states, arrivals) && i < |states|
    requires Fine(states[0]) && AllGentle(w, states, arrivals)
    ensures Fine(states[i])
  {
    if i > 0 {
      FineUpTo(w, states, arrivals, i - 1);
      NextIsFine(w, states, arrivals, i - 1, states[i - 1], arrivals[i - 1], states[i]);
    }
  }

  /** While blocks arrive and no switch fails, the head is all the time as high as any block
      that can be switched to, and these come after such blocks only, exactly if it is so at
      the start and no unlinkable block brings back a branch that it should not; this for
      blocks of which one waiting is as high as the one it waits for. */
  lemma FineThroughout(w: World, states: seq<Ledger>, arrivals: seq<Arrival>)
    requires Taken(w, states, arrivals) && AllHighestFirst(w, states, arrivals)
    ensures AlwaysFine(states) <==> Fine(states[0]) && AllGentle(w, states, arrivals)
  {
    if AlwaysFine(states) {
      forall i | 0 <= i < |arrivals| ensures Gentle(w, states[i], arrivals[i]) {
        NextIsFine(w, states, arrivals, i, states[i], arrivals[i], states[i + 1]);
      }
    }
    if Fine(states[0]) && AllGentle(w, states, arrivals) {
      forall i | 0 <= i < |states| ensures Fine(states[i]) {
        FineUpTo(w, states, arrivals, i);
      }
    }
  }

  //  After a lost switch

  /** The head cannot be taken back and has lost its mark and its index entry. */
  ghost predicate Stranded(w: World, l: Ledger) {
    && WellFormed(l.tree) && Acyclic(l.tree.blocks, w.depth) && Grounded(l.tree, w.depth) && l.future <= l.tree.blocks.Keys
    && l.head in l.tree.blocks && l.headBlock == l.tree.blocks[l.head] && l.headBlock.number != 0 && l.head !in l.undo
    && l.head in l.tree.forks && !l.tree.forks[l.head].isIncluded && l.headBlock.number !in l.numToId
  }

  lemma MissedIsStranded(w: World, l: Ledger)
    requires Ordered(w, l) && l.chain != [] && l.headBlock.number != 0 && l.head in l.tree.forks && l.head !in l.undo
    ensures Stranded(w, Missed(l))
  {
    HeadOfChain(w, l);
    assert l.tree.CanLink(l.chain[|l.chain| - 1]);
    IncludedIsKept(l.tree, l.head, false, Missed(l).tree, w.depth);
  }

  lemma NothingToUnmark(l: Ledger)
    requires l.head in l.tree.forks && !l.tree.forks[l.head].isIncluded && l.headBlock.number !in l.numToId
    ensures Included(l.tree, l.head, false) == l.tree && l.numToId - {l.headBlock.number} == l.numToId
  {
    assert Included(l.tree, l.head, false).forks == l.tree.forks;
  }

  /** What stays for good once the head is stranded. */
  ghost predicate Frozen(l: Ledger, l': Ledger) {
    && l'.head == l.head && l'.headBlock == l.headBlock && l'.chain == l.chain && l'.undo == l.undo
    && l'.numToId == l.numToId && l'.rows == l.rows
  }

  lemma StrandedStored(w: World, l: Ledger, id: BlockId, block: Block, l': Ledger, longest: BlockId, fork: ForkData)
    requires Stranded(w, l) && StoredTo(w, l, id, block, l', longest, fork)
    ensures Stranded(w, l') && Frozen(l, l') && (fork.CanLink() ==> longest in l'.tree.blocks)
  {
  }

  lemma StrandedReopened(w: World, now: nat, l: Ledger, l': Ledger)
    requires Stranded(w, l) && ReopenedTo(w, now, l, l')
    ensures Stranded(w, l') && Frozen(l, l')
  {
    var listed := Unexpired(now, l.tree.blocks, l.future);
    UncheckedKeeps(l.tree, listed, l'.tree, false, w.depth);
    UncheckedGrounded(l.tree, listed, l'.tree, w.depth);
  }

  /** A record of what has happened to a database. */
  class Log {
    ghost var past: seq<Ledger>     // the states so far, the present one last
    ghost var events: seq<Event>    // what led from each to the next

    ghost constructor (w: World)
      ensures Run(w, past, events) && past == [Initial(w)] && events == []
    {
      past, events := [Initial(w)], [];
    }
  }

  class ChainDatabase {
    const rules: Rules
    const minUndo: nat
    const db: Database<string, string, string>
    var tree: Tree
    var undo: map<BlockId, Delta>
    var numToId: map<nat, BlockId>
    var head: BlockId
    var headBlock: Block
    var future: set<BlockId>
    ghost const world: World
    ghost var chain: seq<BlockId>
    ghost var tallest: nat
    ghost var regular: bool
    ghost const log: Log

    ghost function Now(): Ledger
      reads this, db
    {
      Ledger(tree, undo, numToId, head, headBlock, db.tables, future, chain, tallest, regular)
    }

    ghost predicate Valid()
      reads this, db
    {
      world.rules == rules && world.minUndo == minUndo && Ordered(world, Now())
    }

    /** The present state came about by the steps recorded. */
    ghost predicate Recorded()
      reads this, db, log
    {
      && world.rules == rules && world.minUndo == minUndo
      && Run(world, log.past, log.events) && log.past[0] == Initial(world) && log.past[|log.past| - 1] == Now()
    }

    /** Whatever came about by steps is in order. */
    lemma RecordedIsValid()
      requires Recorded()
      ensures Valid()
    {
      InitialIsSound(world);
      RunIsOrdered(world, log.past, log.events, |log.past| - 1);
    }

    constructor (rules: Rules, minUndo: nat, genesis: Rows, ghost depth: BlockId -> nat)
      ensures Valid() && Recorded() && fresh(db) && fresh(log)
      ensures world == World(rules, genesis, minUndo, depth) && Now() == Initial(world) && log.events == []
    {
      this.rules, this.minUndo, world := rules, minUndo, World(rules, genesis, minUndo, depth);
      db := new Database(genesis);
      tree, undo, numToId, head, headBlock, future := EMPTY_TREE, map[], map[], NO_BLOCK, NO_HEADER, {};
      chain, tallest, regular := [], 0, true;
      log := new Log(World(rules, genesis, minUndo, depth));
      InitialIsSound(World(rules, genesis, minUndo, depth));
    }

    /** Saves what takes the block back and drops the undo state that leaves the
        history. It fails when the index by number has a gap there. */
    method SaveUndoState(number: nat, id: BlockId, pending: PendingState<string, string, string>) returns (ok: bool)
      requires pending.Valid() && pending.prev == Root(db)
      modifies this`undo
      ensures pending.Valid() && pending.Own() == old(pending.Own()) && db.tables == old(db.tables)
      ensures ok <==> HistoryTakes(number)
      ensures !ok || number < minUndo ==> undo == old(undo)
      ensures ok && minUndo <= number ==>
                undo == (old(undo) - Pruned(numToId, number))[id := Undo(pending.Own(), db.tables)]
    {
      if number < minUndo { return true; }
      var undoState := new PendingState(Over(pending));
      var built := pending.GetUndoState(undoState);
      assert pending.Base() == db.tables;
      if number > MAX_UNDO_HISTORY {
        if number - MAX_UNDO_HISTORY !in numToId { return false; }
        undo := undo - {numToId[number - MAX_UNDO_HISTORY]};
      }
      undo := undo[id := Change(undoState.entries, undoState.storages, undoState.removes)];
      return true;
    }

    /** Applies a copy of a saved undo state to the database. */
    method ApplyUndo(saved: Delta)
      modifies db
      ensures db.tables == View(saved, old(db.tables))
    {
      var undoState := new PendingState.Copy(saved);
      undoState.SetPrevState(db);
      undoState.ApplyChanges();
    }

    /** Takes the head block back. Without an undo state it fails half way: the block is
        still the head, but no longer marked as part of the chain. */
    method PopBlock() returns (outcome: PopOutcome)
      requires Valid()
      modifies this, db
      ensures outcome == AtGenesis <==> old(headBlock).number == 0
      ensures outcome == NoUndo <==> old(headBlock).number != 0 && old(head) !in old(undo)
      ensures outcome == AtGenesis ==> Now() == old(Now())
      ensures outcome == Popped ==>
                && old(chain) != [] && old(head) in old(tree).forks && Now() == Shortened(old(Now())) && Valid()
                && (old(Sound(world, Now())) ==>
                      (Sound(world, Now()) <==> LastReversible(world, tree.blocks, old(chain))))
      ensures outcome == NoUndo ==>
                old(chain) != [] && head in old(tree).forks && Now() == Missed(old(Now())) && !Valid()
    {
      ghost var l := Now();
      outcome := UndoHead();
      if outcome == Popped && Sound(world, l) {
        ShortenedIsSound(world, l, Now());
      }
    }

    method UndoHead() returns (outcome: PopOutcome)
      requires Valid()
      modifies this, db
      ensures outcome == AtGenesis <==> old(headBlock).number == 0
      ensures outcome == NoUndo <==> old(headBlock).number != 0 && old(head) !in old(undo)
      ensures outcome == AtGenesis ==> Now() == old(Now())
      ensures outcome == Popped ==>
                old(chain) != [] && old(head) in old(tree).forks && Now() == Shortened(old(Now())) && Valid()
      ensures outcome == NoUndo ==>
                old(chain) != [] && head in old(tree).forks && Now() == Missed(old(Now())) && !Valid()
    {
      if headBlock.number == 0 { return AtGenesis; }
      ghost var l := Now();
      HeadOfChain(world, l);
      if head !in undo {
        MissedIsBroken(world, l);
        tree, numToId := Included(tree, head, false), numToId - {headBlock.number};
        return NoUndo;
      }
      TakeBack();
      ShortenedIsOrdered(world, l, Now());
      return Popped;
    }

    method TakeBack()
      requires chain != [] && head in tree.forks && head in undo
      requires headBlock.previous == NO_BLOCK || headBlock.previous in tree.blocks
      requires NO_BLOCK !in tree.blocks
      modifies this, db
      ensures Now() == Shortened(old(Now()))
    {
      tree := Included(tree, head, false);
      numToId := numToId - {headBlock.number};
      ApplyUndo(undo[head]);
      head := headBlock.previous;
      headBlock := if head == NO_BLOCK then NO_HEADER else tree.blocks[head];
      chain := chain[..|chain| - 1];
    }

    /** The checks made before a block is evaluated, and the rules. */
    function VerifyHeader(now: nat, id: BlockId): Verdict
      requires id in tree.blocks
      reads this, db
    {
      var block := tree.blocks[id];
      if !Fits(head, headBlock, block) then Rejected
      else if block.timestamp > now + 2 * BLOCK_INTERVAL then Early
      else if rules.accepts(now, headBlock, id, block, db.tables) then Accepted
      else Rejected
    }

    /** Whether the undo history can take a block of this number: the index by number
        must list the block that leaves it. */
    predicate HistoryTakes(number: nat)
      reads this
    {
      number < minUndo || number <= MAX_UNDO_HISTORY || number - MAX_UNDO_HISTORY in numToId
    }

    /** Saves the undo state of a layer over the database and applies the layer. */
    method ApplyDelta(number: nat, id: BlockId, delta: Delta) returns (ok: bool)
      modifies this`undo, db
      ensures ok <==> HistoryTakes(number)
      ensures !ok ==> undo == old(undo) && db.tables == old(db.tables)
      ensures ok ==> db.tables == View(delta, old(db.tables))
      ensures ok ==> undo == if number < minUndo then old(undo)
                             else (old(undo) - Pruned(numToId, number))[id := Undo(delta, old(db.tables))]
    {
      var pending := new PendingState.Copy(delta);
      pending.SetPrevState(db);
      ok := SaveUndoState(number, id, pending);
      if ok {
        pending.ApplyChanges();
      }
    }

    method ApplyBlock(id: BlockId, block: Block) returns (ok: bool)
      requires world.rules == rules && world.minUndo == minUndo
      requires id in tree.blocks && id in tree.forks && block == tree.blocks[id]
      modifies this, db
      ensures ok <==> old(HistoryTakes(block.number))
      ensures ok ==> Now() == Extended(world, old(Now()), id)
      ensures !ok ==> Now() == old(Now())
    {
      var delta := rules.change(headBlock, id, block, db.tables);
      ok := ApplyDelta(block.number, id, delta);
      if ok {
        tree, head, headBlock, numToId := Included(tree, id, true), id, block, numToId[block.number := id];
        ghost var n := |chain| + 1;
        chain, tallest, regular := chain + [id], if tallest < n then n else tallest, regular && block.number == n;
      }
    }

    method AddBlock(id: BlockId, block: Block) returns (ok: bool)
      requires Valid() && Follows(world, Now(), id) && block == tree.blocks[id]
      modifies this, db
      ensures Valid()
      ensures ok <==> old(HistoryTakes(block.number))
      ensures ok ==> Now() == Extended(world, old(Now()), id)
      ensures !ok ==> Now() == old(Now())
    {
      ghost var l := Now();
      ok := ApplyBlock(id, block);
      if ok {
        ExtendedIsOrdered(world, l, id, Now());
      }
    }

    /** Adds a block to the chain, or refuses it and everything after it. */
    method ExtendChain(now: nat, id: BlockId) returns (verdict: Verdict)
      requires Valid() && id in tree.blocks && tree.Linked(id) && id !in chain
      modifies this, db
      ensures Valid()
      ensures verdict == old(Judgement(world, now, Now(), id))
      ensures verdict == Accepted ==> Now() == Extended(world, old(Now()), id)
      ensures verdict != Accepted ==> RefusedTo(world, old(Now()), id, Now())
      ensures old(Sound(world, Now())) ==> Sound(world, Now())
      ensures verdict != Rejected ==> old(IsNext(Now(), tree.blocks[id]))
    {
      ghost var l := Now();
      verdict := Evaluate(now, id);
      StaysSound(world, now, l, id, verdict == Accepted, Now());
    }

    method Evaluate(now: nat, id: BlockId) returns (verdict: Verdict)
      requires Valid() && id in tree.blocks && tree.Linked(id) && id !in chain
      modifies this, db
      ensures Valid()
      ensures verdict == old(Judgement(world, now, Now(), id))
      ensures verdict == Accepted ==> Now() == Extended(world, old(Now()), id)
      ensures verdict != Accepted ==> RefusedTo(world, old(Now()), id, Now())
    {
      VerdictIs(now, id);
      verdict := VerifyHeader(now, id);
      if verdict == Accepted {
        var ok := AddBlock(id, tree.blocks[id]);
        if ok { return; }
        verdict := Rejected;
      }
      RefuseBlock(id);
    }

    lemma VerdictIs(now: nat, id: BlockId)
      requires world.rules == rules && world.minUndo == minUndo && id in tree.blocks
      ensures
        var verdict := VerifyHeader(now, id);
        Judgement(world, now, Now(), id) ==
          if verdict == Accepted && !HistoryTakes(tree.blocks[id].number) then Rejected else verdict
      ensures Judgement(world, now, Now(), id) == Accepted ==> tree.blocks[id].previous == head
    {
    }

    method RefuseBlock(id: BlockId)
      requires Valid() && id in tree.blocks && tree.Linked(id) && id !in chain
      modifies this`tree
      ensures Valid() && RefusedTo(world, old(Now()), id, Now())
    {
      ghost var marked, l := {}, Now();
      tree, marked := MarkInvalid(tree, id, world.depth);
      RefusedIsOrdered(world, l, id, marked, Now());
    }

    //  Back to a fork point

    /** A block to take back cannot be: the head has the number 0, or has no undo state
        and has lost its mark. */
    ghost predicate Halted()
      reads this, db, log
    {
      && Run(world, log.past, log.events) && log.past[0] == Initial(world)
      && var l := log.past[|log.past| - 1];
      && l.chain != [] && l.head in l.tree.forks && !Poppable(l.tree.blocks, l.undo, l.head)
      && Now() == Stopped(l)
    }

    /** Writes down the step that led from `l` to the present state. */
    ghost method Record(l: Ledger, e: Event)
      requires Run(world, log.past, log.events) && log.past[0] == Initial(world) && log.past[|log.past| - 1] == l
      requires world.rules == rules && world.minUndo == minUndo && Step(world, l, e, Now())
      modifies log
      ensures Recorded() && old(log.past) <= log.past && log.events == old(log.events) + [e]
    {
      RunGoesOn(world, log.past, log.events, l, e, Now());
      log.past, log.events := log.past + [Now()], log.events + [e];
    }

    /** Takes the head back if it can be. */
    method PopStep() returns (outcome: PopOutcome)
      requires Valid() && chain != []
      modifies this, db
      ensures PoppedOnce(old(Now()), outcome, Now())
      ensures outcome == Popped ==> Step(world, old(Now()), Pop, Now())
    {
      ghost var l := Now();
      PopFacts(world, l);
      outcome := PopBlock();
      PopIs(l, outcome, Now());
    }

    lemma AtPlace(k: nat)
      requires Recorded() && k <= |chain|
      ensures head == Before(chain, k) <==> k == |chain|
    {
      RecordedIsValid();
      if k < |chain| {
        PlaceIsUnique(world, Now(), k);
      }
    }

    method PopRecorded() returns (outcome: PopOutcome)
      requires Recorded() && chain != []
      modifies this, db, log
      ensures PoppedOnce(old(Now()), outcome, Now())
      ensures if outcome == Popped then Recorded() else Halted()
      ensures old(log.past) <= log.past
      ensures outcome == Popped ==> log.events == old(log.events) + [Pop]
      ensures outcome != Popped ==> log.events == old(log.events)
    {
      ghost var l := Now();
      RecordedIsValid();
      outcome := PopStep();
      if outcome == Popped {
        Record(l, Pop);
      }
    }

    /** Takes blocks back until `target`, at place `k` of the chain, is the head. It gets
        there exactly when every block above can be taken back, and stops at the topmost
        that cannot. For a block numbered 0 the loop has no end: the answer is then
        `AtGenesis`. */
    method PopTo(target: BlockId, ghost k: nat) returns (outcome: PopOutcome)
      requires Recorded() && k <= |chain| && Before(chain, k) == target
      modifies this, db, log
      ensures PopResult(old(Now()), k, outcome, Now())
      ensures if outcome == Popped then Recorded() else Halted()
      ensures old(log.past) <= log.past && |chain| <= |old(chain)|
      ensures log.events == old(log.events) + Pops(|old(chain)| - |chain|)
    {
      ghost var l0, es0 := Now(), log.events;
      PoppingStarts(l0, es0, k);
      while head != target
        invariant Recorded() && Popping(l0, es0, k, Now(), log.events) && old(log.past) <= log.past
        decreases |chain|
      {
        ghost var l, es := Now(), log.events;
        PoppingPlace(l0, es0, k, l, es);
        AtPlace(k);
        outcome := PopRecorded();
        if outcome != Popped {
          PoppingStops(l0, es0, k, l, es, outcome, Now());
          return;
        }
        PoppingOn(l0, es0, k, l, es, Now());
      }
      PoppingPlace(l0, es0, k, Now(), log.events);
      AtPlace(k);
      outcome := Popped;
      PopEnds(l0, Now(), k, Popped, Now());
    }

    //  Up a branch

    /** Judges a block that follows the head. */
    method ExtendStep(now: nat, id: BlockId) returns (verdict: Verdict)
      requires Valid() && Follows(world, Now(), id)
      modifies this, db
      ensures Step(world, old(Now()), AsEvent(verdict, now, id), Now())
      ensures verdict == old(Judgement(world, now, Now(), id))
      ensures verdict == Accepted ==> ExtendedBy(world, old(Now()), id, Now())
      ensures verdict != Accepted ==> RefusedBy(world, now, old(Now()), id, verdict == Early, Now())
    {
      ghost var l := Now();
      FollowerIsNew(world, l, id);
      verdict := ExtendChain(now, id);
      if verdict == Accepted {
        HeadIsCounted(world, l);
        ExtendFacts(world, l, id, Now());
      } else {
        RefuseFacts(world, now, l, id, verdict == Early, Now());
      }
    }

    /** The step that a verdict leads to. */
    static ghost function AsEvent(verdict: Verdict, now: nat, id: BlockId): Event {
      if verdict == Accepted then Event.Extend(id, now) else Event.Refuse(id, now, verdict == Early)
    }

    method ExtendRecorded(now: nat, id: BlockId) returns (verdict: Verdict)
      requires Recorded() && Follows(world, Now(), id)
      modifies this, db, log
      ensures Recorded() && old(log.past) <= log.past && verdict == old(Judgement(world, now, Now(), id))
      ensures log.events == old(log.events) + [AsEvent(verdict, now, id)]
      ensures verdict == Accepted ==> ExtendedBy(world, old(Now()), id, Now())
      ensures verdict != Accepted ==> RefusedBy(world, now, old(Now()), id, verdict == Early, Now())
    {
      ghost var l := Now();
      RecordedIsValid();
      verdict := ExtendStep(now, id);
      Record(l, AsEvent(verdict, now, id));
    }

    method ClimbOnce(now: nat, h: seq<BlockId>, i: nat, ghost m: nat, ghost l0: Ledger,
            ghost es0: seq<Event>) returns (verdict: Verdict)
      requires 0 < i < |h| && m == |h| - 1 - i
      requires Recorded() && Climbing(world, l0, es0, h, m, Now(), log.events) && Climbable(l0.tree, h)
      modifies this, db, log
      ensures Recorded() && old(log.past) <= log.past
      ensures verdict == Accepted ==> Climbing(world, l0, es0, h, m + 1, Now(), log.events)
      ensures verdict != Accepted ==>
                && AlongResult(world, now, l0, h, false, verdict == Early, m, Now())
                && ClimbEvents(es0, log.events, false, verdict == Early)
    {
      ghost var l, es := Now(), log.events;
      NextFollows(world, l0, es0, h, m, l, es);
      verdict := ExtendRecorded(now, h[i - 1]);
      if verdict == Accepted {
        ClimbingOn(world, now, l0, es0, h, m, l, es, Now());
      } else {
        ClimbingStops(world, now, l0, es0, h, m, l, es, verdict == Early, Now());
      }
    }

    /** Adds the blocks of a branch above the head, lowest first, until one fails the
        checks. */
    method ExtendAlong(now: nat, h: seq<BlockId>) returns (ok: bool, early: bool, ghost m: nat)
      requires Recorded() && |h| > 0 && h[|h| - 1] == head
      requires Climbable(tree, h)
      modifies this, db, log
      ensures Recorded() && AlongResult(world, now, old(Now()), h, ok, early, m, Now())
      ensures old(log.past) <= log.past && ClimbEvents(old(log.events), log.events, ok, early)
    {
      ghost var l0, es0 := Now(), log.events;
      ClimbingStarts(world, l0, es0, h);
      var i := |h| - 1;
      m := 0;
      while i > 0
        invariant 0 <= i < |h| && m == |h| - 1 - i
        invariant Recorded() && Climbing(world, l0, es0, h, m, Now(), log.events) && old(log.past) <= log.past
        decreases i
      {
        var verdict := ClimbOnce(now, h, i, m, l0, es0);
        if verdict != Accepted { return false, verdict == Early, m; }
        i, m := i - 1, m + 1;
      }
      ClimbingEnds(world, now, l0, es0, h, m, Now(), log.events);
      ok, early := true, false;
    }

    //  To another branch

    /** The way from `id` back to the chain, which it meets at place `k`. */
    method History(id: BlockId) returns (h: seq<BlockId>, ghost k: nat)
      requires Recorded() && id in tree.blocks && tree.CanLink(id)
      ensures |h| >= 2 && Branch(tree, h, id) && k <= |chain| && Before(chain, k) == h[|h| - 1]
      ensures forall i | 0 <= i < |h| :: tree.Linked(h[i])
    {
      TreeFacts();
      var ok;
      ok, h := GetForkHistory(tree, id, world.depth);
      k := ForkPoint(tree, chain, h[|h| - 1]);
    }

    lemma HeadIs(id: BlockId)
      requires Recorded() && head == id && id in tree.blocks
      ensures headBlock == tree.blocks[id] && chain != [] && chain[|chain| - 1] == id
    {
      ChainIs();
      ChainFacts(id);
    }

    lemma TreeFacts()
      requires Recorded()
      ensures WellFormed(tree) && Acyclic(tree.blocks, world.depth) && Grounded(tree, world.depth)
      ensures Current(tree, chain) && future <= tree.blocks.Keys
    {
      RecordedIsValid();
    }

    lemma EndIsRefused(now: nat, h: seq<BlockId>, m: nat, early: bool)
      requires |h| > 0 && m < |h| - 1 && StandsRefused(world, now, Now(), Upward(h)[m], early)
      requires forall i | 0 <= i < |h| - 1 :: h[i] in tree.blocks
      requires forall i {:trigger tree.blocks[h[i]]} | 0 <= i < |h| - 1 :: tree.blocks[h[i]].previous == h[i + 1]
      ensures !tree.CanLink(h[0])
    {
      BranchAbove(tree.blocks, h, |h| - 2 - m, world.depth);
    }

    method ClimbBranch(now: nat, h: seq<BlockId>) returns (outcome: SwitchOutcome, ghost m: nat)
      requires Recorded() && |h| > 1 && h[|h| - 1] == head && Climbable(tree, h)
      modifies this, db, log
      ensures Recorded() && ClimbedTo(world, now, old(Now()), h, outcome, m, Now())
      ensures old(log.past) <= log.past
      ensures ClimbEvents(old(log.events), log.events, outcome == Switched, outcome.Refused? && outcome.early)
    {
      var ok, early;
      ok, early, m := ExtendAlong(now, h);
      outcome := if ok then Switched else Refused(early);
      if ok {
        HeadIs(h[0]);
      } else {
        EndIsRefused(now, h, m, early);
      }
    }

    /** Takes the chain back to the lower end of a branch and leads it up the branch. */
    method Reorganize(now: nat, h: seq<BlockId>, ghost k: nat) returns (outcome: SwitchOutcome, ghost m: nat)
      requires Recorded() && |h| > 1 && k <= |chain| && Before(chain, k) == h[|h| - 1]
      requires Climbable(tree, h)
      modifies this, db, log
      ensures Reorganized(world, now, old(Now()), h, k, outcome, m, Now())
      ensures if Reached(outcome) then Recorded() else Halted()
      ensures old(log.past) <= log.past && SwitchEvents(old(log.events), log.events, |old(chain)| - k, outcome)
    {
      m := 0;
      ghost var l, es := Now(), log.events;
      var popped := PopTo(h[|h| - 1], k);
      ghost var l1, es1 := Now(), log.events;
      if popped != Popped {
        outcome := if popped == NoUndo then Lost else Stuck;
        PopsOnly(es, |l.chain| - |chain|, es1, |l.chain| - k, outcome);
        return;
      }
      ClimbableStill(l.tree, tree, h);
      outcome, m := ClimbBranch(now, h);
      PopsThenRest(es, |l.chain| - k, es1, log.events, outcome);
    }

    lemma ClimbableStill(t: Tree, t': Tree, h: seq<BlockId>)
      requires Climbable(t, h) && SameStanding(t, t')
      ensures Climbable(t', h)
    {
      SameIsWhole(t, t');
    }

    method Switch(now: nat, id: BlockId) returns (outcome: SwitchOutcome, ghost h: seq<BlockId>, ghost k: nat,
            ghost m: nat)
      requires Recorded() && id in tree.blocks && tree.CanLink(id)
      modifies this, db, log
      ensures SwitchResult(world, now, old(Now()), id, outcome, h, k, m, Now())
      ensures if Reached(outcome) then Recorded() else Halted()
      ensures old(log.past) <= log.past && SwitchEvents(old(log.events), log.events, |old(chain)| - k, outcome)
    {
      if id == head {
        HeadIs(id);
        AlreadyThere(world, now, Now());
        h, k, m := [id], |chain|, 0;
        return Switched, h, k, m;
      }
      var history, place := History(id);
      h, k := history, place;
      BranchIsClimbable(tree, history);
      ghost var l := Now();
      outcome, m := Reorganize(now, history, k);
      ReorganizedIs(world, now, l, history, k, outcome, m, Now());
    }

    lemma ChainFacts(id: BlockId)
      requires Recorded()
      ensures headBlock == Header(tree.blocks, head)
      ensures id in chain ==> id in tree.forks && tree.forks[id].isIncluded
    {
      RecordedIsValid();
      if id in chain {
        var i :| 0 <= i < |chain| && chain[i] == id;
        assert tree.CanLink(chain[i]);
      }
    }

    lemma ChainIs()
      requires Recorded()
      ensures Chained(tree.blocks, chain) && NO_BLOCK !in tree.blocks && head == Last(chain)
    {
      RecordedIsValid();
    }

    /** The last step recorded. */
    lemma StepTaken(past: seq<Ledger>, l: Ledger, es: seq<Event>, e: Event)
      requires Recorded() && |past| == |es| + 1 && past <= log.past && past[|es|] == l && log.events == es + [e]
      ensures Step(world, l, e, Now())
    {
      StepAt(world, log.past, log.events, |es| + 1, l, e, Now());
    }

    lemma HeadLinks()
      requires Recorded()
      ensures tree.CanLink(head) && (head == NO_BLOCK || head in tree.blocks)
    {
      TreeFacts();
      ChainIs();
      assert chain != [] ==> tree.CanLink(chain[|chain| - 1]);
    }

    lemma GenesisFacts()
      requires Recorded()
      ensures tree.CanLink(NO_BLOCK) && NO_BLOCK !in tree.blocks
    {
      TreeFacts();
    }

    /** While numbers are places the index lists the chain. */
    lemma IndexFacts(i: nat)
      requires Recorded() && regular && i < |chain|
      ensures i + 1 in numToId && (chain[i] in undo <==> Retained(i + 1, minUndo, tallest))
    {
      RecordedIsValid();
      assert Placed(tree.blocks, chain, numToId, undo, minUndo, tallest, i);
    }

    lemma OrderFacts()
      requires Recorded()
      ensures Counted(world, Now())
    {
      RecordedIsValid();
    }

    /** Numbers have been places exactly if every block put on the chain was numbered one
        above its predecessor. */
    lemma RegularIs()
      requires Recorded()
      ensures regular <==> AddedInOrder(log.past, log.events, |log.events|)
    {
      RunIsRegular(world, log.past, log.events, |log.events|);
    }

    /** Leads the chain to `id`. While numbers are places it fails exactly when the lowest
        block to take back has left the undo history. The tables stay right if what the
        blocks above the fork point changed can be taken back. */
    method SwitchToFork(now: nat, id: BlockId) returns (outcome: SwitchOutcome, ghost h: seq<BlockId>, ghost k: nat,
            ghost m: nat)
      requires Recorded() && id in tree.blocks && tree.CanLink(id)
      modifies this, db, log
      ensures SwitchResult(world, now, old(Now()), id, outcome, h, k, m, Now())
      ensures if Reached(outcome) then Recorded() else Halted()
      ensures old(log.past) <= log.past && SwitchEvents(old(log.events), log.events, |old(chain)| - k, outcome)
      ensures old(regular) ==>
                outcome != Stuck && (outcome == Lost <==> k < |old(chain)| && !Retained(k + 1, minUndo, old(tallest)))
      ensures outcome == Lost ==> Stranded(world, Now())
      ensures Reached(outcome) ==>
                (old(Sound(world, Now())) && ReversibleFrom(world, old(tree).blocks, old(chain), k) ==> Sound(world, Now()))
    {
      ghost var l, p, before := Now(), |log.events|, log.past;
      OrderFacts();
      outcome, h, k, m := Switch(now, id);
      FailsInOrder(world, now, l, id, outcome, h, k, m, Now());
      if Reached(outcome) {
        TablesStay(before, l, p, k);
      } else if outcome == Lost {
        LostIsStranded();
      }
    }

    lemma TablesStay(before: seq<Ledger>, l: Ledger, p: nat, k: nat)
      requires Recorded() && |before| == p + 1 && before <= log.past && before[p] == l && k <= |l.chain|
      requires PopsFirst(log.events, p, |l.chain| - k)
      ensures Sound(world, l) && ReversibleFrom(world, l.tree.blocks, l.chain, k) ==> Sound(world, Now())
    {
      assert log.past[p] == before[p];
      SoundAgain(world, log.past, log.events, p, l, k, Now());
    }

    //  A block arrives

    method StoreStep(id: BlockId, block: Block) returns (longest: BlockId, fork: ForkData)
      requires WellFormed(tree) && Acyclic(tree.blocks, world.depth) && Grounded(tree, world.depth)
      requires id !in tree.blocks && id != NO_BLOCK && world.depth(block.previous) < world.depth(id)
      modifies this`tree
      ensures StoredTo(world, old(Now()), id, block, Now(), longest, fork)
    {
      var t;
      t, longest, fork := StoreAndIndex(tree, id, block, world.depth);
      tree := t;
    }

    /** Puts a block into the tree and records it. */
    method StoreBlock(id: BlockId, block: Block) returns (longest: BlockId, fork: ForkData)
      requires Recorded() && id !in tree.blocks && id != NO_BLOCK && world.depth(block.previous) < world.depth(id)
      modifies this`tree, log
      ensures Recorded() && StoredTo(world, old(Now()), id, block, Now(), longest, fork)
      ensures old(log.past) <= log.past && log.events == old(log.events) + [Event.Store(id, block)]
    {
      ghost var l := Now();
      TreeFacts();
      longest, fork := StoreStep(id, block);
      Record(l, Event.Store(id, block));
    }

    /** Puts a block on the list of future blocks. */
    method ListBlock(id: BlockId)
      requires Recorded() && id in tree.blocks
      modifies this`future, log
      ensures Recorded() && Now() == old(Now()).(future := old(future) + {id})
      ensures old(log.past) <= log.past && log.events == old(log.events) + [Event.List(id)]
    {
      ghost var l := Now();
      future := future + {id};
      Record(l, Event.List(id));
    }

    /** Takes the blocks off the list whose time is long past. */
    method DropExpired(now: nat)
      requires future <= tree.blocks.Keys
      modifies this`future
      ensures future == Unexpired(now, tree.blocks, old(future))
    {
      var todo := future;
      ghost var all := future;
      UnexpiredNone(now, tree.blocks, all);
      while todo != {}
        invariant todo <= all <= tree.blocks.Keys && UnexpiredSince(now, tree.blocks, all, todo, future)
        decreases |todo|
      {
        var id :| id in todo;
        ghost var before := future;
        if now - tree.blocks[id].timestamp > FUTURE_LIFETIME {
          future := future - {id};
        }
        UnexpiredStep(now, tree.blocks, all, todo, before, id, future);
        todo := todo - {id};
      }
      UnexpiredAll(now, tree.blocks, all, future);
    }

    /** Drops what is long past from the list of future blocks, and withdraws the verdicts on
        the others and what comes after them. */
    method ClearInvalidation(now: nat)
      requires Recorded()
      modifies this`tree, this`future, log
      ensures Recorded() && ReopenedTo(world, now, old(Now()), Now())
      ensures old(log.past) <= log.past && log.events == old(log.events) + [Event.Uncheck(now)]
    {
      ghost var l := Now();
      TreeFacts();
      ClearStep(now);
      Record(l, Event.Uncheck(now));
    }

    method ClearStep(now: nat)
      requires Shape(tree) && Acyclic(tree.blocks, world.depth) && future <= tree.blocks.Keys
      modifies this`tree, this`future
      ensures ReopenedTo(world, now, old(Now()), Now())
    {
      DropExpired(now);
      tree := MarkAsUnchecked(tree, future, world.depth);
    }

    /** Tries one block: it becomes the head, or is refused, or the switch fails. When it is
        refused for a block whose time has not come, the block pushed is listed. */
    method TryBlock(now: nat, id: BlockId, n: nat, pushed: BlockId, ghost a: nat,
            ghost top: nat) returns (outcome: TryOutcome)
      requires Recorded() && id in tree.blocks && tree.CanLink(id) && tree.blocks[id].number == n
      requires pushed in tree.blocks
      modifies this, db, log
      ensures Narrowed(old(tree), tree) && old(log.past) <= log.past && old(log.events) <= log.events
      ensures ListedIf(old(future), RefusedEarly(log.events, |old(log.events)|), pushed, future)
      ensures if outcome == Failed then Halted() else Recorded()
      ensures outcome == Found ==> headBlock.number == n
      ensures outcome == Exhausted ==> !tree.CanLink(id)
      ensures outcome == Failed ==> exists h, k :: Blocked(Now(), n, h, k)
      ensures old(SecureUpTo(world, Now(), a, top, n)) ==>
                outcome != Failed && (outcome == Exhausted ==> SecureUpTo(world, Now(), a, top, n))
    {
      ghost var l, p := Now(), |log.events|;
      var switched, h, k, m := SwitchToFork(now, id);
      TryFacts(now, l, id, switched, h, k, m, a, top, n);
      if switched.Refused? && switched.early {
        ghost var es, l1 := log.events, Now();
        ListBlock(pushed);
        EarlySplit(es, log.events, p);
        ListFacts(l1, pushed, a, top, n);
      }
      outcome := if switched == Switched then Found else if switched.Refused? then Exhausted else Failed;
    }

    lemma TryFacts(now: nat, l: Ledger, id: BlockId, switched: SwitchOutcome, h: seq<BlockId>, k: nat, m: nat, a: nat,
            top: nat, n: nat)
      requires SwitchResult(world, now, l, id, switched, h, k, m, Now()) && (switched.Refused? ==> Recorded())
      requires id in l.tree.blocks && l.tree.CanLink(id) && l.tree.blocks[id].number == n
      ensures Narrowed(l.tree, tree) && future == l.future
      ensures switched == Switched ==> headBlock.number == n
      ensures switched.Refused? ==> !tree.CanLink(id)
      ensures !Reached(switched) ==> Blocked(Now(), n, h, k)
      ensures SecureUpTo(world, l, a, top, n) ==>
                Reached(switched) && (switched.Refused? ==> SecureUpTo(world, Now(), a, top, n))
    {
      if !Reached(switched) {
        SwitchBlocked(world, now, l, id, switched, h, k, m, Now());
      }
      if switched.Refused? {
        RecordedIsValid();
      }
      TryIsSecure(world, now, l, id, switched, h, k, m, Now(), a, top, n);
    }

    lemma ListFacts(l: Ledger, pushed: BlockId, a: nat, top: nat, n: nat)
      requires pushed in l.tree.blocks && Now() == l.(future := l.future + {pushed})
      ensures SecureUpTo(world, l, a, top, n) ==> SecureUpTo(world, Now(), a, top, n)
    {
      if SecureUpTo(world, l, a, top, n) {
        ListedIsSecure(world, l, pushed, Now(), a, top, n);
      }
    }

    lemma NumberFacts(n: nat)
      requires Recorded() && n in tree.atNumber
      ensures forall i | 0 <= i < |tree.atNumber[n]| ::
                tree.atNumber[n][i] in tree.blocks && tree.blocks[tree.atNumber[n][i]].number == n
    {
      TreeFacts();
    }

    /** Tries the blocks of one number in turn: one becomes the head, or none can be
        switched to any more, or a switch fails. */
    method TryNumber(now: nat, n: nat, pushed: BlockId, ghost a: nat, ghost top: nat) returns (outcome: TryOutcome)
      requires Recorded() && pushed in tree.blocks
      modifies this, db, log
      ensures Narrowed(old(tree), tree) && old(log.past) <= log.past && old(log.events) <= log.events
      ensures ListedIf(old(future), RefusedEarly(log.events, |old(log.events)|), pushed, future)
      ensures if outcome == Failed then Halted() else Recorded()
      ensures outcome == Found ==> headBlock.number == n
      ensures outcome == Exhausted && Whole(old(tree)) ==> NoneAt(tree, n)
      ensures outcome == Failed ==> exists h, k :: Blocked(Now(), n, h, k)
      ensures old(SecureUpTo(world, Now(), a, top, n)) ==>
                outcome != Failed && (outcome == Exhausted ==> SecureUpTo(world, Now(), a, top, n))
    {
      if n !in tree.atNumber { return Exhausted; }
      NumberFacts(n);
      var ids, i := tree.atNumber[n], 0;
      ghost var t, es := tree, log.events;
      while i < |ids|
        invariant 0 <= i <= |ids| && Recorded() && Narrowed(t, tree)
        invariant old(log.past) <= log.past && es <= log.events
        invariant ListedIf(old(future), RefusedEarly(log.events, |es|), pushed, future)
        invariant Whole(t) ==> forall j | 0 <= j < i :: !tree.CanLink(ids[j])
        invariant old(SecureUpTo(world, Now(), a, top, n)) ==> SecureUpTo(world, Now(), a, top, n)
      {
        if tree.CanLink(ids[i]) {
          ghost var t1, es1 := tree, log.events;
          outcome := TryBlock(now, ids[i], n, pushed, a, top);
          EarlySplit(es1, log.events, |es|);
          NarrowedTwice(t, t1, tree);
          if outcome != Exhausted { return; }
        }
        i := i + 1;
      }
      outcome := Exhausted;
    }

    lemma AfterNumber(n: nat, a: nat, top: nat)
      requires Recorded() && n > 0
      ensures NoneAt(tree, n) && NoneAbove(tree, n) ==> NoneAbove(tree, n - 1)
      ensures NoneAt(tree, n) && SecureUpTo(world, Now(), a, top, n) ==> SecureUpTo(world, Now(), a, top, n - 1)
    {
      TreeFacts();
      if NoneAt(tree, n) && NoneAbove(tree, n) {
        NextNumber(tree, n);
      }
      if NoneAt(tree, n) && SecureUpTo(world, Now(), a, top, n) {
        SecureNext(world, Now(), a, top, n);
      }
    }

    /** Tries all numbers from the highest down. */
    method TryForks(now: nat, highest: nat, pushed: BlockId, ghost a: nat, ghost top: nat) returns (outcome: TryOutcome)
      requires Recorded() && highest > 0 && pushed in tree.blocks
      modifies this, db, log
      ensures Narrowed(old(tree), tree) && old(log.past) <= log.past && old(log.events) <= log.events
      ensures ListedIf(old(future), RefusedEarly(log.events, |old(log.events)|), pushed, future)
      ensures if outcome == Failed then Halted() else Recorded()
      ensures outcome != Failed && Whole(old(tree)) && NoneAbove(old(tree), highest) ==> NoneAbove(tree, headBlock.number)
      ensures outcome == Failed ==> exists n, h, k :: Blocked(Now(), n, h, k)
      ensures old(SecureUpTo(world, Now(), a, top, highest)) ==> outcome != Failed
    {
      var n := highest;
      ghost var t, es := tree, log.events;
      while n > 0
        invariant Recorded() && Narrowed(t, tree) && old(log.past) <= log.past && es <= log.events
        invariant ListedIf(old(future), RefusedEarly(log.events, |es|), pushed, future)
        invariant Whole(t) && NoneAbove(t, highest) ==> NoneAbove(tree, n)
        invariant old(SecureUpTo(world, Now(), a, top, highest)) ==> Whole(t) && SecureUpTo(world, Now(), a, top, n)
        decreases n
      {
        ghost var t1, es1 := tree, log.events;
        outcome := TryNumber(now, n, pushed, a, top);
        EarlySplit(es1, log.events, |es|);
        NarrowedTwice(t, t1, tree);
        if outcome != Exhausted { return; }
        AfterNumber(n, a, top);
        n := n - 1;
      }
      outcome := Exhausted;
    }

    /** A place secure for the new block is secure for the tries that follow. */
    lemma PushSecurely(l: Ledger, id: BlockId, block: Block, longest: BlockId, fork: ForkData, a: nat, top: nat,
            highest: nat)
      requires Recorded() && WellFormed(l.tree) && StoredTo(world, l, id, block, Now(), longest, fork)
      requires headBlock.number < highest
      ensures SecureFor(world, l, id, block, a, top) ==> SecureUpTo(world, Now(), a, top, highest)
    {
      if SecureFor(world, l, id, block, a, top) {
        RecordedIsValid();
        SecureStored(world, l, id, block, Now(), longest, fork, a, top);
        if chain != [] {
          OnChain(world, Now(), chain[|chain| - 1], |chain| - 1);
        }
      }
    }

    /** A block is known exactly when its entry in the tree says so. */
    lemma KnownIs(id: BlockId)
      requires Recorded() && id != NO_BLOCK
      ensures id in tree.forks && tree.forks[id].isKnown <==> id in tree.blocks
      ensures tree.Linked(id) ==> id in tree.blocks
    {
      TreeFacts();
    }

    lemma OnlyRejectedSince(i: nat)
      requires Run(world, log.past, log.events) && log.past[0] == Initial(world) && i < |log.past|
      ensures OnlyRejected(world, log.past, log.events, i)
    {
      RunOnlyRejects(world, log.past, log.events, i);
    }

    /** Leads the chain to the highest branch that is accepted, if the one completed is
        higher than the chain. */
    method TryLongest(now: nat, longest: BlockId, pushed: BlockId, ghost a: nat,
            ghost top: nat) returns (outcome: PushOutcome)
      requires Recorded() && longest in tree.blocks && pushed in tree.blocks
      modifies this, db, log
      ensures outcome == Pushed || outcome == Broken
      ensures if outcome == Broken then Halted() else Recorded()
      ensures Narrowed(old(tree), tree) && old(log.past) <= log.past && old(log.events) <= log.events
      ensures ListedIf(old(future), RefusedEarly(log.events, |old(log.events)|), pushed, future)
      ensures old(tree).blocks[longest].number <= old(headBlock).number ==>
                outcome == Pushed && Now() == old(Now()) && log.events == old(log.events)
      ensures outcome == Pushed && Whole(old(tree))
              && NoneAbove(old(tree), Max(old(headBlock).number, old(tree).blocks[longest].number)) ==>
                NoneAbove(tree, headBlock.number)
      ensures outcome == Broken ==> exists n, h, k :: Blocked(Now(), n, h, k)
      ensures old(headBlock.number < tree.blocks[longest].number ==> SecureUpTo(world, Now(), a, top, tree.blocks[longest].number)) ==>
                outcome != Broken
    {
      outcome := Pushed;
      var highest := tree.blocks[longest].number;
      if highest > headBlock.number {
        var tried := TryForks(now, highest, pushed, a, top);
        outcome := if tried == Failed then Broken else Pushed;
      }
    }

    /** Stores a new block and follows the branch it completes; if there is none, brings
        back the listed branches. */
    method PushNew(now: nat, id: BlockId, block: Block, ghost a: nat, ghost top: nat) returns (outcome: PushOutcome)
      requires Recorded() && id !in tree.blocks && id != NO_BLOCK && world.depth(block.previous) < world.depth(id)
      modifies this, db, log
      ensures outcome == Pushed || outcome == Broken
      ensures if outcome == Broken then Halted() else Recorded()
      ensures tree.blocks == old(tree).blocks[id := block]
      ensures old(log.past) <= log.past && old(log.events) + [Event.Store(id, block)] <= log.events
      ensures !old(tree).CanLink(block.previous) ==> outcome == Pushed && Reopens(world, now, old(Now()), block, Now())
      ensures old(tree).CanLink(block.previous) && HighestFirst(world, old(Now()), Arrival(now, id, block)) ==>
                ListedIf(old(future), RefusedEarly(log.events, |old(log.events)|), id, future)
                && (outcome == Pushed ==> Climbs(old(Now()), Now()))
      ensures outcome == Broken ==> exists n, h, k :: Blocked(Now(), n, h, k)
      ensures old(SecureFor(world, Now(), id, block, a, top)) ==> outcome != Broken
    {
      ghost var l, es := Now(), log.events;
      KnownIs(id);
      RecordedIsValid();
      var longest, fork := StoreBlock(id, block);
      ghost var l1, es1 := Now(), log.events;
      StoredHeights(world, l, id, block, l1, longest, fork, headBlock.number);
      if fork.CanLink() {
        if headBlock.number < tree.blocks[longest].number {
          PushSecurely(l, id, block, longest, fork, a, top, tree.blocks[longest].number);
        }
        outcome := TryLongest(now, longest, id, a, top);
        EarlySplit(es1, log.events, |es|);
        NoEarlyStore(es, id, block, es1);
      } else {
        ClearInvalidation(now);
        if !l1.tree.CanLink(id) {
          ReopensStored(world, now, l, id, block, l1, longest, fork, Now());
        }
        outcome := Pushed;
      }
    }

    lemma NoEarlyStore(es: seq<Event>, id: BlockId, block: Block, es': seq<Event>)
      requires es' == es + [Event.Store(id, block)]
      ensures !RefusedEarly(es', |es|)
    {
    }

    /** Takes in a block from the network. */
    method PushBlock(now: nat, id: BlockId, block: Block) returns (outcome: PushOutcome)
      requires Recorded() && id != NO_BLOCK && world.depth(block.previous) < world.depth(id)
      modifies this, db, log
      ensures outcome == TooOld <==>
                old(headBlock).number > MAX_UNDO_HISTORY && block.number <= old(headBlock).number - MAX_UNDO_HISTORY
      ensures outcome == AlreadyKnown <==> outcome != TooOld && id in old(tree).blocks
      ensures outcome == TooOld || outcome == AlreadyKnown ==>
                Now() == old(Now()) && log.past == old(log.past) && log.events == old(log.events)
      ensures outcome == Pushed || outcome == Broken ==>
                && tree.blocks == old(tree).blocks[id := block]
                && old(log.past) <= log.past && old(log.events) + [Event.Store(id, block)] <= log.events
      ensures if outcome == Broken then Halted() else Recorded()
      ensures outcome == Pushed || outcome == Broken ==> OnlyRejected(world, log.past, log.events, |old(log.past)|)
      ensures outcome != Broken ==> Took(world, old(Now()), Arrival(now, id, block), Now())
      ensures (outcome == Pushed || outcome == Broken)
              && old(tree).CanLink(block.previous) && HighestFirst(world, old(Now()), Arrival(now, id, block)) ==>
                ListedIf(old(future), RefusedEarly(log.events, |old(log.events)|), id, future)
      ensures outcome == Broken ==> old(tree).CanLink(block.previous) && exists n, h, k :: Blocked(Now(), n, h, k)
      ensures (exists a: nat, top: nat :: old(SecureFor(world, Now(), id, block, a, top))) ==> outcome != Broken
    {
      var height := headBlock.number;
      if height > MAX_UNDO_HISTORY && block.number <= height - MAX_UNDO_HISTORY { return TooOld; }
      KnownIs(id);
      if id in tree.forks && tree.forks[id].isKnown { return AlreadyKnown; }
      ghost var a: nat, top: nat := 0, 0;
      if exists a: nat, top: nat :: SecureFor(world, Now(), id, block, a, top) {
        a, top :| SecureFor(world, Now(), id, block, a, top);
      }
      outcome := PushNew(now, id, block, a, top);
      OnlyRejectedSince(|old(log.past)|);
    }

    //  After a lost switch

    /** A switch that was lost leaves the head stranded. */
    lemma LostIsStranded()
      requires Halted() && headBlock.number != 0
      ensures Stranded(world, Now())
    {
      InitialIsSound(world);
      var l := log.past[|log.past| - 1];
      RunIsOrdered(world, log.past, log.events, |log.past| - 1);
      MissedIsStranded(world, l);
    }

    /** A switch on a stranded head: it succeeds only for the head itself, and changes
        nothing. */
    method SwitchStranded(id: BlockId) returns (outcome: SwitchOutcome)
      requires Stranded(world, Now()) && id in tree.blocks && tree.CanLink(id)
      modifies this
      ensures Now() == old(Now())
      ensures outcome == if id == head then Switched else Lost
    {
      if id == head { return Switched; }
      var ok, h := GetForkHistory(tree, id, world.depth);
      assert head != h[|h| - 1];
      tree, numToId := Included(tree, head, false), numToId - {headBlock.number};
      NothingToUnmark(old(Now()));
      return Lost;
    }

    /** So do all tries. */
    method TryStranded(highest: nat)
      requires Stranded(world, Now())
      modifies this
      ensures Now() == old(Now())
    {
      var n := highest;
      while n > 0
        invariant Now() == old(Now())
      {
        if n in tree.atNumber {
          var ids, i := tree.atNumber[n], 0;
          while i < |ids|
            invariant 0 <= i <= |ids| && Now() == old(Now()) && ids == tree.atNumber[n]
          {
            if tree.CanLink(ids[i]) {
              var outcome := SwitchStranded(ids[i]);
              if outcome == Switched { return; }
            }
            i := i + 1;
          }
        }
        n := n - 1;
      }
    }

    /** A block arrives at a database whose head is stranded: it is stored, and listed
        branches come back, but head, chain, undo states and tables stay for good. */
    method PushStranded(now: nat, id: BlockId, block: Block)
      requires Stranded(world, Now()) && id != NO_BLOCK && world.depth(block.previous) < world.depth(id)
      modifies this
      ensures Stranded(world, Now()) && Frozen(old(Now()), Now())
    {
      var height := headBlock.number;
      if height > MAX_UNDO_HISTORY && block.number <= height - MAX_UNDO_HISTORY { return; }
      if id in tree.forks && tree.forks[id].isKnown { return; }
      ghost var l := Now();
      var longest, fork := StoreStep(id, block);
      StrandedStored(world, l, id, block, Now(), longest, fork);
      if fork.CanLink() {
        var highest := tree.blocks[longest].number;
        if highest > headBlock.number {
          TryStranded(highest);
        }
      } else {
        ghost var l1 := Now();
        ClearStep(now);
        StrandedReopened(world, now, l1, Now());
      }
    }

    /** Any run from there: nothing that arrives moves the head or changes the tables. */
    method PushAllStranded(arrivals: seq<Arrival>)
      requires Stranded(world, Now())
      requires forall i | 0 <= i < |arrivals| ::
                 arrivals[i].id != NO_BLOCK && world.depth(arrivals[i].block.previous) < world.depth(arrivals[i].id)
      modifies this
      ensures Stranded(world, Now()) && Frozen(old(Now()), Now())
    {
      var i := 0;
      while i < |arrivals|
        invariant 0 <= i <= |arrivals| && Stranded(world, Now()) && Frozen(old(Now()), Now())
      {
        PushStranded(arrivals[i].now, arrivals[i].id, arrivals[i].block);
        i := i + 1;
      }
    }

    /** The tables are the replay of the chain, whatever has happened, if what the blocks
        taken back had changed could be. */
    lemma TablesAreReplay()
      requires Recorded() && Reversed(world, log.past, log.events)
      ensures db.tables == Replayed(world, Now())
    {
      InitialIsSound(world);
      RunIsSound(world, log.past, log.events, |log.events|);
    }

    /** Any run: blocks arrive one after the other. Unless a switch fails, the database is
        in order after it, and the states it went through are as `Taken` says; and the tables
        are the replay of the chain if what the blocks taken back had changed could be. */
    method PushAll(arrivals: seq<Arrival>) returns (done: nat, ghost states: seq<Ledger>)
      requires Recorded()
      requires forall i | 0 <= i < |arrivals| ::
                 arrivals[i].id != NO_BLOCK && world.depth(arrivals[i].block.previous) < world.depth(arrivals[i].id)
      modifies this, db, log
      ensures done <= |arrivals| && if done < |arrivals| then Halted() else Recorded() && Valid()
      ensures Within(old(tree).blocks, tree.blocks)
      ensures Taken(world, states, arrivals[..done]) && states[0] == old(Now())
      ensures done == |arrivals| ==> states[done] == Now()
      ensures done == |arrivals| && AllHighestFirst(world, states, arrivals) ==>
                (AlwaysFine(states) <==> old(Fine(Now())) && AllGentle(world, states, arrivals))
      ensures done == |arrivals| && Reversed(world, log.past, log.events) ==> db.tables == Replayed(world, Now())
    {
      done, states := 0, [Now()];
      while done < |arrivals|
        invariant done <= |arrivals| && Recorded() && Within(old(tree).blocks, tree.blocks)
        invariant Taken(world, states, arrivals[..done]) && states[0] == old(Now()) && states[done] == Now()
      {
        ghost var before := tree.blocks;
        var outcome := PushBlock(arrivals[done].now, arrivals[done].id, arrivals[done].block);
        if outcome == Broken { return; }
        OneMoreTaken(world, states, arrivals, done, Now());
        states := states + [Now()];
        done := done + 1;
      }
      assert arrivals[..done] == arrivals;
      if AllHighestFirst(world, states, arrivals) {
        FineThroughout(world, states, arrivals);
      }
      RecordedIsValid();
      if Reversed(world, log.past, log.events) {
        TablesAreReplay();
      }
    }
  }

  lemma OneMoreTaken(w: World, states: seq<Ledger>, arrivals: seq<Arrival>, done: nat, l': Ledger)
    requires done < |arrivals| && Taken(w, states, arrivals[..done]) && Took(w, states[done], arrivals[done], l')
    ensures Taken(w, states + [l'], arrivals[..done + 1])
  {
    var states', arrivals' := states + [l'], arrivals[..done + 1];
    forall i | 0 <= i < |arrivals'| ensures TookAt(w, states', arrivals', i) {
      if i < done {
        assert TookAt(w, states, arrivals[..done], i);
      }
    }
  }

  /** Two nodes with the same rules, genesis and head, which agree on the blocks both know,
      have the same tables, whatever forks each has been through, if what each has taken back
      could be. */
  lemma NodesAgree(a: ChainDatabase, b: ChainDatabase)
    requires a.Recorded() && b.Recorded() && a.world.rules == b.world.rules && a.world.genesis == b.world.genesis
    requires Reversed(a.world, a.log.past, a.log.events) && Reversed(b.world, b.log.past, b.log.events)
    requires forall id | id in a.tree.blocks && id in b.tree.blocks :: a.tree.blocks[id] == b.tree.blocks[id]
    requires a.head == b.head
    ensures a.chain == b.chain && a.db.tables == b.db.tables
  {
    a.ChainIs();
    b.ChainIs();
    a.TablesAreReplay();
    b.TablesAreReplay();
    HeadDeterminesChain(a.tree.blocks, a.chain, b.tree.blocks, b.chain);
    HeadDeterminesState(a.world.rules, a.world.genesis, a.tree.blocks, a.chain, b.tree.blocks, b.chain);
  }
}
