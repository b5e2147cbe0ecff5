/**
 What the headers on a chain are to each other after any run, and which blocks are taken.
 */
module ChainHeaders {
  import opened ForkTree
  import opened ChainLedger
  import opened ChainRuns

  //  The verdict on a block

  /** A block is taken exactly if it is next, at most twenty seconds ahead, accepted by the
      rules and, from 361 on, in a place from which the block 360 below leaves the history. */
  lemma AcceptedExactly(w: World, now: nat, l: Ledger, id: BlockId)
    requires id in l.tree.blocks
    ensures
      var block := l.tree.blocks[id];
      Judgement(w, now, l, id) == Accepted <==>
        && IsNext(l, block) && block.timestamp <= now + 20
        && w.rules.accepts(now, l.headBlock, id, block, l.rows)
        && (block.number < w.minUndo || block.number <= 360 || block.number - 360 in l.numToId)
  {
  }

  /** It is put off exactly if it is next and further ahead, whatever the rules say. */
  lemma EarlyExactly(w: World, now: nat, l: Ledger, id: BlockId)
    requires id in l.tree.blocks
    ensures
      var block := l.tree.blocks[id];
      Judgement(w, now, l, id) == Early <==> IsNext(l, block) && block.timestamp > now + 20
  {
  }

  /** So a block with another number above one is rejected. */
  lemma OtherNumber(w: World, now: nat, l: Ledger, id: BlockId)
    requires id in l.tree.blocks && l.tree.blocks[id].number > 1
    requires l.tree.blocks[id].number != l.headBlock.number + 1
    ensures Judgement(w, now, l, id) == Rejected
  {
  }

  /** And so is one that is not later, one off the ten seconds, and one that names no head. */
  lemma OtherHeader(w: World, now: nat, l: Ledger, id: BlockId)
    requires id in l.tree.blocks
    requires
      var block := l.tree.blocks[id];
      || block.previous != l.head || block.timestamp % 10 != 0
      || (block.number > 1 && block.timestamp <= l.headBlock.timestamp)
    ensures Judgement(w, now, l, id) == Rejected
  {
  }

  /** A linked block on the head with the next number and a later time, at most twenty seconds
      ahead, is added if the rules accept it and the history takes it. */
  lemma NextIsAdded(w: World, now: nat, l: Ledger, id: BlockId)
    requires id in l.tree.blocks && l.tree.Linked(id)
    requires
      var block := l.tree.blocks[id];
      && block.previous == l.head && block.number == l.headBlock.number + 1
      && block.timestamp % 10 == 0 && l.headBlock.timestamp < block.timestamp <= now + 20
      && w.rules.accepts(now, l.headBlock, id, block, l.rows)
      && (block.number <= 360 || block.number - 360 in l.numToId)
    ensures Step(w, l, Event.Extend(id, now), Extended(w, l, id))
  {
  }

  //  The headers of a chain

  /** The block at place `i` stands on the ten seconds, names the one before it, and if it is
      numbered above one follows it in number and in time. */
  predicate HeaderHolds(blocks: Blocks, chain: seq<BlockId>, i: nat)
    requires i < |chain|
  {
    && chain[i] in blocks && blocks[chain[i]].timestamp % 10 == 0
    && (i > 0 ==> chain[i - 1] in blocks && blocks[chain[i]].previous == chain[i - 1])
    && (i == 0 ==> blocks[chain[i]].previous == NO_BLOCK)
    && (blocks[chain[i]].number > 1 ==>
          && i > 0 && blocks[chain[i]].number == blocks[chain[i - 1]].number + 1
          && blocks[chain[i]].timestamp > blocks[chain[i - 1]].timestamp)
  }

  predicate HeadersHold(blocks: Blocks, chain: seq<BlockId>) {
    forall i | 0 <= i < |chain| :: HeaderHolds(blocks, chain, i)
  }

  lemma MoreHeaders(blocks: Blocks, chain: seq<BlockId>, id: BlockId, chain': seq<BlockId>)
    requires HeadersHold(blocks, chain) && chain' == chain + [id] && HeaderHolds(blocks, chain', |chain|)
    ensures HeadersHold(blocks, chain')
  {
    forall i | 0 <= i < |chain'| ensures HeaderHolds(blocks, chain', i) {
      if i < |chain| {
        assert HeaderHolds(blocks, chain, i);
      }
    }
  }

  lemma FewerHeaders(blocks: Blocks, chain: seq<BlockId>, n: nat)
    requires HeadersHold(blocks, chain) && n <= |chain|
    ensures HeadersHold(blocks, chain[..n])
  {
    forall i | 0 <= i < n ensures HeaderHolds(blocks, chain[..n], i) {
      assert HeaderHolds(blocks, chain, i);
    }
  }

  lemma HeadersStay(blocks: Blocks, blocks': Blocks, chain: seq<BlockId>)
    requires HeadersHold(blocks, chain) && forall x | x in blocks :: x in blocks' && blocks'[x] == blocks[x]
    ensures HeadersHold(blocks', chain)
  {
    forall i | 0 <= i < |chain| ensures HeaderHolds(blocks', chain, i) {
      assert HeaderHolds(blocks, chain, i);
    }
  }

  /** The head is the last block of the chain. */
  ghost predicate HeadIsLast(l: Ledger) {
    && l.head == Last(l.chain) && l.headBlock == Header(l.tree.blocks, l.head)
    && NO_BLOCK !in l.tree.blocks && (l.chain != [] ==> l.head in l.tree.blocks)
  }

  lemma OrderedHead(w: World, l: Ledger)
    requires Ordered(w, l)
    ensures HeadIsLast(l)
  {
    HeadOfChain(w, l);
  }

  /** The head is what the next block was compared with. */
  lemma NewHeaderHolds(w: World, now: nat, l: Ledger, id: BlockId, chain': seq<BlockId>)
    requires id in l.tree.blocks && Judgement(w, now, l, id) == Accepted && chain' == l.chain + [id]
    requires HeadIsLast(l)
    ensures HeaderHolds(l.tree.blocks, chain', |l.chain|)
  {
  }

  /** What a step does to the chain and the blocks. */
  lemma StepShape(w: World, l: Ledger, e: Event, l': Ledger)
    requires Step(w, l, e, l')
    ensures forall x | x in l.tree.blocks :: x in l'.tree.blocks && l'.tree.blocks[x] == l.tree.blocks[x]
    ensures e.Extend? ==>
      e.added in l.tree.blocks && Judgement(w, e.at, l, e.added) == Accepted
      && l'.chain == l.chain + [e.added] && l'.tree.blocks == l.tree.blocks
    ensures e.Pop? ==> l.chain != [] && l'.chain == l.chain[..|l.chain| - 1]
    ensures !e.Extend? && !e.Pop? ==> l'.chain == l.chain
  {
  }

  /** Every step keeps that. */
  lemma StepKeepsHeaders(w: World, l: Ledger, e: Event, l': Ledger)
    requires HeadIsLast(l) && HeadersHold(l.tree.blocks, l.chain) && Step(w, l, e, l')
    ensures HeadersHold(l'.tree.blocks, l'.chain)
  {
    StepShape(w, l, e, l');
    if e.Extend? {
      NewHeaderHolds(w, e.at, l, e.added, l'.chain);
      MoreHeaders(l.tree.blocks, l.chain, e.added, l'.chain);
    } else if e.Pop? {
      FewerHeaders(l.tree.blocks, l.chain, |l.chain| - 1);
      HeadersStay(l.tree.blocks, l'.tree.blocks, l'.chain);
    } else {
      HeadersStay(l.tree.blocks, l'.tree.blocks, l.chain);
    }
  }

  /** In every run from genesis it holds of every block of the chain at every state. */
  lemma RunKeepsHeaders(w: World, ls: seq<Ledger>, es: seq<Event>, i: nat)
    requires Run(w, ls, es) && ls[0] == Initial(w) && i < |ls|
    ensures HeadersHold(ls[i].tree.blocks, ls[i].chain)
  {
    InitialIsSound(w);
    var holds := (l: Ledger) => HeadersHold(l.tree.blocks, l.chain);
    forall j | 0 < j < |ls| ensures Carried(ls, holds, j) {
      if holds(ls[j - 1]) {
        RunIsOrdered(w, ls, es, j - 1);
        OrderedHead(w, ls[j - 1]);
        StepAt(w, ls, es, j, ls[j - 1], es[j - 1], ls[j]);
        StepKeepsHeaders(w, ls[j - 1], es[j - 1], ls[j]);
      }
    }
    Carries(ls, holds, i);
  }

  /** So it holds in a database, whatever has arrived and whichever branches were tried. */
  lemma DatabaseKeepsHeaders(db: ChainDatabase)
    requires db.Recorded()
    ensures HeadersHold(db.tree.blocks, db.chain)
  {
    RunKeepsHeaders(db.world, db.log.past, db.log.events, |db.log.past| - 1);
  }

  /** No number is above its place. */
  lemma {:induction false} NumberAtMostPlace(blocks: Blocks, chain: seq<BlockId>, i: nat)
    requires HeadersHold(blocks, chain) && i < |chain|
    ensures chain[i] in blocks && blocks[chain[i]].number <= i + 1
  {
    assert HeaderHolds(blocks, chain, i);
    if blocks[chain[i]].number > 1 {
      NumberAtMostPlace(blocks, chain, i - 1);
    }
  }

  /** Between blocks numbered zero or one the times go up. */
  lemma {:induction false} TimesGoUp(blocks: Blocks, chain: seq<BlockId>, j: nat, i: nat)
    requires HeadersHold(blocks, chain) && j < i < |chain|
    requires forall k | j < k <= i :: chain[k] in blocks && blocks[chain[k]].number > 1
    ensures chain[j] in blocks && chain[i] in blocks && blocks[chain[j]].timestamp + 10 * (i - j) <= blocks[chain[i]].timestamp
    ensures blocks[chain[i]].number == blocks[chain[j]].number + (i - j)
    decreases i
  {
    assert HeaderHolds(blocks, chain, i);
    assert HeaderHolds(blocks, chain, i - 1);
    if j < i - 1 {
      TimesGoUp(blocks, chain, j, i - 1);
    }
  }

  //  What is kept for how long

  /** A block stays on the list of future blocks for two days after its time. */
  lemma ListedForTwoDays(now: nat, blocks: Blocks, listed: set<BlockId>, x: BlockId)
    requires x in blocks
    ensures x in Unexpired(now, blocks, listed) <==> x in listed && now <= blocks[x].timestamp + 172800
  {
  }

  /** While blocks are added in order, the last 360 blocks below the greatest height the chain
      has had are those that can be taken back, from the first that is recorded on. */
  lemma KeptFor360(w: World, ls: seq<Ledger>, es: seq<Event>, i: nat, p: nat)
    requires Run(w, ls, es) && ls[0] == Initial(w) && i < |ls| && AddedInOrder(ls, es, i) && p < |ls[i].chain|
    ensures ls[i].chain[p] in ls[i].undo <==> w.minUndo <= p + 1 && ls[i].tallest - 360 < p + 1
  {
    InitialIsSound(w);
    RunIsRegular(w, ls, es, i);
    RunIsOrdered(w, ls, es, i);
    assert Placed(ls[i].tree.blocks, ls[i].chain, ls[i].numToId, ls[i].undo, w.minUndo, ls[i].tallest, p);
  }
}
