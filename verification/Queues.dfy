/**
 The intrusive queues: tail queues, circular queues, lists and singly-linked
 lists, threaded through fields of their own elements.
 */
module Queues {

  /**
   A pair of link fields, in an element or in a queue head. A head and an element
   have the same layout, which the tail queue relies on; a pointer to the `next`
   field of a link is represented by the link that holds the field.
   */
  class Link {
    var next: Link?
    var prev: Link?

    constructor ()
    {
      next, prev := null, null;
    }
  }

  function InsertedAt<T>(s: seq<T>, k: nat, x: T): seq<T>
    requires k <= |s|
  {
    seq(|s| + 1, i requires 0 <= i <= |s| => if i < k then s[i] else if i == k then x else s[i - 1])
  }

  function RemovedAt<T>(s: seq<T>, k: nat): seq<T>
    requires k < |s|
  {
    seq(|s| - 1, i requires 0 <= i < |s| - 1 => if i < k then s[i] else s[i + 1])
  }

  lemma TailOfInserted<T>(s: seq<T>, k: nat, x: T)
    requires 1 <= k <= |s|
    ensures InsertedAt(s, k, x)[1..] == InsertedAt(s[1..], k - 1, x)
    ensures k == 1 ==> InsertedAt(s, k, x)[1..] == [x] + s[1..]
    ensures k == |s| ==> InsertedAt(s, k, x)[1..] == s[1..] + [x]
  {
  }

  lemma TailOfRemoved<T>(s: seq<T>, k: nat)
    requires 1 <= k < |s|
    ensures RemovedAt(s, k)[1..] == RemovedAt(s[1..], k - 1)
  {
  }

  lemma TailOfReplaced<T>(s: seq<T>, k: nat, x: T)
    requires 1 <= k < |s|
    ensures s[k := x][1..] == s[1..][k - 1 := x]
  {
  }

  //  Chains of links, through snapshots of their fields

  ghost function Nexts(nodes: seq<Link>): seq<Link?>
    reads nodes
  {
    seq(|nodes|, i requires 0 <= i < |nodes| reads nodes => nodes[i].next)
  }

  ghost function Prevs(nodes: seq<Link>): seq<Link?>
    reads nodes
  {
    seq(|nodes|, i requires 0 <= i < |nodes| reads nodes => nodes[i].prev)
  }

  ghost predicate Distinct(nodes: seq<Link>) {
    forall i, j :: 0 <= i < j < |nodes| ==> nodes[i] != nodes[j]
  }

  /** Each link leads to the one after it, and the last to `end`. */
  ghost predicate Chain(nodes: seq<Link>, nexts: seq<Link?>, end: Link?) {
    && |nexts| == |nodes|
    && forall i :: 0 <= i < |nodes| ==> nexts[i] == if i + 1 < |nodes| then nodes[i + 1] else end
  }

  /** Each element leads back to the link before it; in a closed chain the head leads back to the last. */
  ghost predicate Back(nodes: seq<Link>, prevs: seq<Link?>, closed: bool) {
    && |prevs| == |nodes|
    && (forall i :: 1 <= i < |nodes| ==> prevs[i] == nodes[i - 1])
    && (closed && |nodes| > 0 ==> prevs[0] == nodes[|nodes| - 1])
  }

  /** A head and its elements, doubly linked; `end` marks the end in the forward direction. */
  ghost predicate Linked(nodes: seq<Link>, end: Link?, closed: bool)
    reads nodes
  {
    |nodes| >= 1 && Distinct(nodes) && Chain(nodes, Nexts(nodes), end) && Back(nodes, Prevs(nodes), closed)
  }

  /** `prevs` once the link after place `k - 1` leads back to `x`. */
  ghost function Repointed(prevs: seq<Link?>, k: nat, x: Link?, closed: bool): seq<Link?>
    requires |prevs| >= 1
  {
    if k < |prevs| then prevs[k := x] else if closed then prevs[0 := x] else prevs
  }

  /** Linking `elm` in after `nodes[k - 1]`, whatever the order of the writes. */
  lemma LinkedIn(nodes: seq<Link>, nexts: seq<Link?>, prevs: seq<Link?>, end: Link?, closed: bool, k: nat, elm: Link)
    requires Distinct(nodes) && elm !in nodes && 1 <= k <= |nodes|
    requires Chain(nodes, nexts, end) && Back(nodes, prevs, closed)
    requires Nexts(nodes) == nexts[k - 1 := elm] && elm.next == nexts[k - 1]
    requires Prevs(nodes) == Repointed(prevs, k, elm, closed) && elm.prev == nodes[k - 1]
    ensures Linked(InsertedAt(nodes, k, elm), end, closed)
  {
    FieldsInserted(nodes, k, elm);
    DistinctInserted(nodes, k, elm);
    ChainInserted(nodes, nexts, end, k, elm);
    BackInserted(nodes, prevs, closed, k, elm);
  }

  lemma FieldsInserted(nodes: seq<Link>, k: nat, elm: Link)
    requires k <= |nodes|
    ensures Nexts(InsertedAt(nodes, k, elm)) == InsertedAt(Nexts(nodes), k, elm.next)
    ensures Prevs(InsertedAt(nodes, k, elm)) == InsertedAt(Prevs(nodes), k, elm.prev)
  {
  }

  lemma DistinctInserted(nodes: seq<Link>, k: nat, elm: Link)
    requires Distinct(nodes) && k <= |nodes| && elm !in nodes
    ensures Distinct(InsertedAt(nodes, k, elm))
  {
  }

  lemma ChainInserted(nodes: seq<Link>, nexts: seq<Link?>, end: Link?, k: nat, elm: Link)
    requires Chain(nodes, nexts, end) && 1 <= k <= |nodes|
    ensures Chain(InsertedAt(nodes, k, elm), InsertedAt(nexts[k - 1 := elm], k, nexts[k - 1]), end)
  {
  }

  lemma BackInserted(nodes: seq<Link>, prevs: seq<Link?>, closed: bool, k: nat, elm: Link)
    requires Back(nodes, prevs, closed) && 1 <= k <= |nodes|
    ensures Back(InsertedAt(nodes, k, elm), InsertedAt(Repointed(prevs, k, elm, closed), k, nodes[k - 1]), closed)
  {
  }

  /** Linking the neighbours of `nodes[k]` to each other. */
  lemma LinkedOut(nodes: seq<Link>, nexts: seq<Link?>, prevs: seq<Link?>, end: Link?, closed: bool, k: nat)
    requires Distinct(nodes) && 1 <= k < |nodes|
    requires Chain(nodes, nexts, end) && Back(nodes, prevs, closed)
    requires Nexts(nodes) == nexts[k - 1 := nexts[k]]
    requires Prevs(nodes) == Repointed(prevs, k + 1, prevs[k], closed)
    ensures Linked(RemovedAt(nodes, k), end, closed)
  {
    FieldsRemoved(nodes, k);
    DistinctRemoved(nodes, k);
    ChainRemoved(nodes, nexts, end, k);
    BackRemoved(nodes, prevs, closed, k);
  }

  lemma FieldsRemoved(nodes: seq<Link>, k: nat)
    requires k < |nodes|
    ensures Nexts(RemovedAt(nodes, k)) == RemovedAt(Nexts(nodes), k)
    ensures Prevs(RemovedAt(nodes, k)) == RemovedAt(Prevs(nodes), k)
  {
  }

  lemma DistinctRemoved(nodes: seq<Link>, k: nat)
    requires Distinct(nodes) && k < |nodes|
    ensures Distinct(RemovedAt(nodes, k))
  {
  }

  lemma ChainRemoved(nodes: seq<Link>, nexts: seq<Link?>, end: Link?, k: nat)
    requires Chain(nodes, nexts, end) && 1 <= k < |nodes|
    ensures Chain(RemovedAt(nodes, k), RemovedAt(nexts[k - 1 := nexts[k]], k), end)
  {
  }

  lemma BackRemoved(nodes: seq<Link>, prevs: seq<Link?>, closed: bool, k: nat)
    requires Back(nodes, prevs, closed) && 1 <= k < |nodes|
    ensures Back(RemovedAt(nodes, k), RemovedAt(Repointed(prevs, k + 1, prevs[k], closed), k), closed)
  {
  }

  /** Linking the neighbours of `nodes[k]` to `elm` instead. */
  lemma LinkedOver(nodes: seq<Link>, nexts: seq<Link?>, prevs: seq<Link?>, end: Link?, closed: bool, k: nat, elm: Link)
    requires Distinct(nodes) && elm !in nodes && 1 <= k < |nodes|
    requires Chain(nodes, nexts, end) && Back(nodes, prevs, closed)
    requires Nexts(nodes) == nexts[k - 1 := elm] && elm.next == nexts[k]
    requires Prevs(nodes) == Repointed(prevs, k + 1, elm, closed) && elm.prev == nodes[k - 1]
    ensures Linked(nodes[k := elm], end, closed)
  {
    FieldsReplaced(nodes, k, elm);
    assert Distinct(nodes[k := elm]);
    assert Chain(nodes[k := elm], nexts[k - 1 := elm][k := nexts[k]], end);
    assert Back(nodes[k := elm], Repointed(prevs, k + 1, elm, closed)[k := nodes[k - 1]], closed);
  }

  lemma FieldsReplaced(nodes: seq<Link>, k: nat, elm: Link)
    requires k < |nodes|
    ensures Nexts(nodes[k := elm]) == Nexts(nodes)[k := elm.next]
    ensures Prevs(nodes[k := elm]) == Prevs(nodes)[k := elm.prev]
  {
  }

  //  The writes of the macros, field by field

  /** The link whose `prev` is rewritten when `next` changes: the next element's, or the head's. */
  function NextOr(next: Link?, head: Link): Link {
    if next != null then next else head
  }

  /** `TAILQ_INSERT_AFTER`, and `TAILQ_INSERT_HEAD` with the head for `listelm`. */
  method TailqLinkAfter(head: Link, listelm: Link, elm: Link)
    requires elm != listelm && elm != head && elm != listelm.next && listelm != listelm.next
    modifies elm, listelm`next, NextOr(listelm.next, head)`prev
    ensures elm.next == old(listelm.next) && elm.prev == listelm && listelm.next == elm
    ensures old(NextOr(listelm.next, head)).prev == elm
  {
    elm.next := listelm.next;
    if elm.next != null {
      elm.next.prev := elm;
    } else {
      head.prev := elm;
    }
    listelm.next := elm;
    elm.prev := listelm;
  }

  /** `TAILQ_INSERT_BEFORE` and `LIST_INSERT_BEFORE`. */
  method LinkBefore(listelm: Link, elm: Link)
    requires listelm.prev != null && elm != listelm && elm != listelm.prev
    modifies elm, listelm`prev, listelm.prev`next
    ensures elm.prev == old(listelm.prev) && elm.next == listelm
    ensures old(listelm.prev).next == elm && listelm.prev == elm
  {
    elm.prev := listelm.prev;
    elm.next := listelm;
    listelm.prev.next := elm;
    listelm.prev := elm;
  }

  /** `TAILQ_REMOVE`. */
  method TailqLinkOut(head: Link, elm: Link)
    requires elm.prev != null && elm != head && elm != elm.next && elm != elm.prev
    modifies elm.prev`next, NextOr(elm.next, head)`prev
    ensures old(elm.prev).next == old(elm.next) && old(NextOr(elm.next, head)).prev == old(elm.prev)
  {
    if elm.next != null {
      elm.next.prev := elm.prev;
    } else {
      head.prev := elm.prev;
    }
    elm.prev.next := elm.next;
  }

  /** `TAILQ_REPLACE`. */
  method TailqLinkOver(head: Link, elm: Link, elm2: Link)
    requires elm.prev != null && elm2 !in {head, elm, elm.prev} && elm2 != elm.next
    requires elm != head && elm != elm.next && elm != elm.prev
    modifies elm2, elm.prev`next, NextOr(elm.next, head)`prev
    ensures elm2.next == old(elm.next) && elm2.prev == old(elm.prev)
    ensures old(elm.prev).next == elm2 && old(NextOr(elm.next, head)).prev == elm2
  {
    elm2.next := elm.next;
    if elm2.next != null {
      elm2.next.prev := elm2;
    } else {
      head.prev := elm2;
    }
    elm2.prev := elm.prev;
    elm2.prev.next := elm2;
  }

  /** The next element, if there is one. */
  function IfAny(next: Link?): set<Link> {
    if next == null then {} else {next}
  }

  /** `LIST_INSERT_AFTER`, and `LIST_INSERT_HEAD` with the head for `listelm`. */
  method ListLinkAfter(listelm: Link, elm: Link)
    requires elm != listelm && elm != listelm.next && listelm != listelm.next
    modifies elm, listelm`next, IfAny(listelm.next)`prev
    ensures elm.next == old(listelm.next) && elm.prev == listelm && listelm.next == elm
    ensures elm.next != null ==> elm.next.prev == elm
  {
    elm.next := listelm.next;
    if elm.next != null {
      listelm.next.prev := elm;
    }
    listelm.next := elm;
    elm.prev := listelm;
  }

  /** `LIST_REMOVE`. */
  method ListLinkOut(elm: Link)
    requires elm.prev != null && elm != elm.next && elm != elm.prev
    modifies elm.prev`next, IfAny(elm.next)`prev
    ensures old(elm.prev).next == old(elm.next)
    ensures elm.next != null ==> elm.next.prev == old(elm.prev)
  {
    if elm.next != null {
      elm.next.prev := elm.prev;
    }
    elm.prev.next := elm.next;
  }

  /** `LIST_REPLACE`. */
  method ListLinkOver(elm: Link, elm2: Link)
    requires elm.prev != null && elm2 !in {elm, elm.prev} && elm2 != elm.next && elm != elm.next && elm != elm.prev
    modifies elm2, elm.prev`next, IfAny(elm.next)`prev
    ensures elm2.next == old(elm.next) && elm2.prev == old(elm.prev) && elm2.prev.next == elm2
    ensures elm2.next != null ==> elm2.next.prev == elm2
  {
    elm2.next := elm.next;
    if elm2.next != null {
      elm2.next.prev := elm2;
    }
    elm2.prev := elm.prev;
    elm2.prev.next := elm2;
  }

  /** `CIRCLEQ_INSERT_AFTER`: both branches write the `prev` of the link that followed. */
  method CircleLinkAfter(head: Link, listelm: Link, elm: Link)
    requires listelm.next != null && elm != listelm && elm != listelm.next
    modifies elm, listelm`next, listelm.next`prev
    ensures elm.next == old(listelm.next) && elm.prev == listelm
    ensures listelm.next == elm && old(listelm.next).prev == elm
  {
    elm.next := listelm.next;
    elm.prev := listelm;
    if listelm.next == head {
      head.prev := elm;
    } else {
      listelm.next.prev := elm;
    }
    listelm.next := elm;
  }

  /** `CIRCLEQ_INSERT_BEFORE`. */
  method CircleLinkBefore(head: Link, listelm: Link, elm: Link)
    requires listelm.prev != null && elm != listelm && elm != listelm.prev
    modifies elm, listelm`prev, listelm.prev`next
    ensures elm.next == listelm && elm.prev == old(listelm.prev)
    ensures old(listelm.prev).next == elm && listelm.prev == elm
  {
    elm.next := listelm;
    elm.prev := listelm.prev;
    if listelm.prev == head {
      head.next := elm;
    } else {
      listelm.prev.next := elm;
    }
    listelm.prev := elm;
  }

  /** `CIRCLEQ_REMOVE`. */
  method CircleLinkOut(head: Link, elm: Link)
    requires elm.next != null && elm.prev != null && elm != elm.next && elm != elm.prev
    modifies elm.next`prev, elm.prev`next
    ensures old(elm.next).prev == old(elm.prev) && old(elm.prev).next == old(elm.next)
  {
    if elm.next == head {
      head.prev := elm.prev;
    } else {
      elm.next.prev := elm.prev;
    }
    if elm.prev == head {
      head.next := elm.next;
    } else {
      elm.prev.next := elm.next;
    }
  }

  class TailQueue {
    const head: Link
    /** The head followed by the elements in order. */
    ghost var nodes: seq<Link>

    ghost predicate Valid()
      reads this, nodes
    {
      Linked(nodes, null, true) && nodes[0] == head
    }

    ghost function Elements(): seq<Link>
      requires Valid()
      reads this, nodes
    {
      nodes[1..]
    }

    constructor ()
      ensures Valid() && Elements() == [] && fresh(nodes)
    {
      head := new Link();
      new;
      head.next := null;
      head.prev := head;
      nodes := [head];
    }

    method InsertHead(elm: Link)
      requires Valid() && elm !in nodes
      modifies this, nodes, elm
      ensures Valid() && Elements() == [elm] + old(Elements())
    {
      ghost var nexts, prevs := Nexts(nodes), Prevs(nodes);
      assert nexts[0] == head.next;
      TailqLinkAfter(head, head, elm);
      ghost var was := nodes;
      nodes := InsertedAt(was, 1, elm);
      LinkedIn(was, nexts, prevs, null, true, 1, elm);
      TailOfInserted(was, 1, elm);
    }

    method InsertTail(elm: Link)
      requires Valid() && elm !in nodes
      modifies this, nodes, elm
      ensures Valid() && Elements() == old(Elements()) + [elm]
    {
      ghost var nexts, prevs := Nexts(nodes), Prevs(nodes);
      assert prevs[0] == head.prev;
      elm.next := null;
      elm.prev := head.prev;
      head.prev.next := elm;
      head.prev := elm;
      ghost var was := nodes;
      nodes := InsertedAt(was, |was|, elm);
      LinkedIn(was, nexts, prevs, null, true, |was|, elm);
      TailOfInserted(was, |was|, elm);
    }

    /** Inserts `elm` after `listelm`, the element with index `k`. */
    method InsertAfter(listelm: Link, elm: Link, ghost k: nat)
      requires Valid() && elm !in nodes && k < |Elements()| && Elements()[k] == listelm
      modifies this, nodes, elm
      ensures Valid() && Elements() == InsertedAt(old(Elements()), k + 1, elm)
    {
      ghost var nexts, prevs := Nexts(nodes), Prevs(nodes);
      assert nexts[k + 1] == listelm.next;
      TailqLinkAfter(head, listelm, elm);
      ghost var was := nodes;
      nodes := InsertedAt(was, k + 2, elm);
      LinkedIn(was, nexts, prevs, null, true, k + 2, elm);
      TailOfInserted(was, k + 2, elm);
    }

    /** Inserts `elm` before `listelm`, the element with index `k`. */
    method InsertBefore(listelm: Link, elm: Link, ghost k: nat)
      requires Valid() && elm !in nodes && k < |Elements()| && Elements()[k] == listelm
      modifies this, nodes, elm
      ensures Valid() && Elements() == InsertedAt(old(Elements()), k, elm)
    {
      ghost var nexts, prevs := Nexts(nodes), Prevs(nodes);
      assert prevs[k + 1] == listelm.prev;
      LinkBefore(listelm, elm);
      ghost var was := nodes;
      nodes := InsertedAt(was, k + 1, elm);
      LinkedIn(was, nexts, prevs, null, true, k + 1, elm);
      TailOfInserted(was, k + 1, elm);
    }

    /** Removes `elm`, the element with index `k`. */
    method Remove(elm: Link, ghost k: nat)
      requires Valid() && k < |Elements()| && Elements()[k] == elm
      modifies this, nodes
      ensures Valid() && Elements() == RemovedAt(old(Elements()), k)
    {
      ghost var nexts, prevs := Nexts(nodes), Prevs(nodes);
      assert nexts[k + 1] == elm.next && prevs[k + 1] == elm.prev;
      TailqLinkOut(head, elm);
      ghost var was := nodes;
      nodes := RemovedAt(was, k + 1);
      LinkedOut(was, nexts, prevs, null, true, k + 1);
      TailOfRemoved(was, k + 1);
    }

    /** Puts `elm2` in the place of `elm`, the element with index `k`. */
    method Replace(elm: Link, elm2: Link, ghost k: nat)
      requires Valid() && elm2 !in nodes && k < |Elements()| && Elements()[k] == elm
      modifies this, nodes, elm2
      ensures Valid() && Elements() == old(Elements())[k := elm2]
    {
      ghost var nexts, prevs := Nexts(nodes), Prevs(nodes);
      assert nexts[k + 1] == elm.next && prevs[k + 1] == elm.prev;
      TailqLinkOver(head, elm, elm2);
      ghost var was := nodes;
      nodes := was[k + 1 := elm2];
      LinkedOver(was, nexts, prevs, null, true, k + 1, elm2);
      TailOfReplaced(was, k + 1, elm2);
    }

    /** `TAILQ_LAST`, which takes the last element's links for a head's. */
    method Last() returns (last: Link?)
      requires Valid()
      ensures last == if Elements() == [] then null else Elements()[|Elements()| - 1]
    {
      BackwardThenForward(nodes, 0, null);
      last := head.prev.prev.next;
    }

    /** `TAILQ_PREV`, for the element with index `k`. */
    method Prev(elm: Link, ghost k: nat) returns (prev: Link?)
      requires Valid() && k < |Elements()| && Elements()[k] == elm
      ensures prev == if k == 0 then null else Elements()[k - 1]
    {
      BackwardThenForward(nodes, k + 1, null);
      prev := elm.prev.prev.next;
    }

    method Traverse() returns (visited: seq<Link>)
      requires Valid()
      ensures visited == Elements()
    {
      visited := [];
      var x := head.next;
      assert Nexts(nodes)[0] == x;
      while x != null
        invariant |visited| <= |Elements()| && visited == Elements()[..|visited|]
        invariant x == if |visited| == |Elements()| then null else Elements()[|visited|]
        decreases |Elements()| - |visited|
      {
        visited := visited + [x];
        assert Nexts(nodes)[|visited|] == x.next;
        x := x.next;
      }
    }

    method TraverseReverse() returns (visited: seq<Link>)
      requires Valid()
      ensures |visited| == |Elements()|
      ensures forall i :: 0 <= i < |visited| ==> visited[i] == Elements()[|visited| - 1 - i]
    {
      visited := [];
      var x := Last();
      while x != null
        invariant |visited| <= |Elements()|
        invariant x == if |visited| == |Elements()| then null else Elements()[|Elements()| - 1 - |visited|]
        invariant forall i :: 0 <= i < |visited| ==> visited[i] == Elements()[|Elements()| - 1 - i]
        decreases |Elements()| - |visited|
      {
        ghost var k := |Elements()| - 1 - |visited|;
        visited := visited + [x];
        x := Prev(x, k);
      }
    }
  }

  /** Two steps back and one forward is one step back, except into the head, which gives `end`. */
  lemma BackwardThenForward(nodes: seq<Link>, i: nat, end: Link?)
    requires Linked(nodes, end, true) && i < |nodes|
    ensures nodes[i].prev != null && nodes[i].prev.prev != null
    ensures nodes[i].prev.prev.next == if i == 1 || |nodes| == 1 then end else nodes[if i == 0 then |nodes| - 1 else i - 1]
  {
    var a := if i == 0 then |nodes| - 1 else i - 1;
    var b := if a == 0 then |nodes| - 1 else a - 1;
    assert nodes[i].prev == Prevs(nodes)[i] == nodes[a];
    assert nodes[a].prev == Prevs(nodes)[a] == nodes[b];
    assert nodes[b].next == Nexts(nodes)[b];
  }

  /** A circular queue: the head itself marks the end in both directions. */
  class CircularQueue {
    const head: Link
    ghost var nodes: seq<Link>

    ghost predicate Valid()
      reads this, nodes
    {
      Linked(nodes, head, true) && nodes[0] == head
    }

    ghost function Elements(): seq<Link>
      requires Valid()
      reads this, nodes
    {
      nodes[1..]
    }

    constructor ()
      ensures Valid() && Elements() == [] && fresh(nodes)
    {
      head := new Link();
      new;
      head.next := head;
      head.prev := head;
      nodes := [head];
    }

    method InsertAfter(listelm: Link, elm: Link, ghost k: nat)
      requires Valid() && elm !in nodes && k < |Elements()| && Elements()[k] == listelm
      modifies this, nodes, elm
      ensures Valid() && Elements() == InsertedAt(old(Elements()), k + 1, elm)
    {
      ghost var nexts, prevs := Nexts(nodes), Prevs(nodes);
      assert nexts[k + 1] == listelm.next;
      CircleLinkAfter(head, listelm, elm);
      ghost var was := nodes;
      nodes := InsertedAt(was, k + 2, elm);
      LinkedIn(was, nexts, prevs, head, true, k + 2, elm);
      TailOfInserted(was, k + 2, elm);
    }

    method InsertBefore(listelm: Link, elm: Link, ghost k: nat)
      requires Valid() && elm !in nodes && k < |Elements()| && Elements()[k] == listelm
      modifies this, nodes, elm
      ensures Valid() && Elements() == InsertedAt(old(Elements()), k, elm)
    {
      ghost var nexts, prevs := Nexts(nodes), Prevs(nodes);
      assert prevs[k + 1] == listelm.prev;
      CircleLinkBefore(head, listelm, elm);
      ghost var was := nodes;
      nodes := InsertedAt(was, k + 1, elm);
      LinkedIn(was, nexts, prevs, head, true, k + 1, elm);
      TailOfInserted(was, k + 1, elm);
    }

    method InsertHead(elm: Link)
      requires Valid() && elm !in nodes
      modifies this, nodes, elm
      ensures Valid() && Elements() == [elm] + old(Elements())
    {
      ghost var nexts, prevs := Nexts(nodes), Prevs(nodes);
      assert nexts[0] == head.next && prevs[0] == head.prev;
      elm.next := head.next;
      elm.prev := head;
      if head.prev == head {
        head.prev := elm;
      } else {
        head.next.prev := elm;
      }
      head.next := elm;
      ghost var was := nodes;
      nodes := InsertedAt(was, 1, elm);
      LinkedIn(was, nexts, prevs, head, true, 1, elm);
      TailOfInserted(was, 1, elm);
    }

    method InsertTail(elm: Link)
      requires Valid() && elm !in nodes
      modifies this, nodes, elm
      ensures Valid() && Elements() == old(Elements()) + [elm]
    {
      ghost var nexts, prevs := Nexts(nodes), Prevs(nodes);
      assert nexts[0] == head.next && prevs[0] == head.prev;
      elm.next := head;
      elm.prev := head.prev;
      if head.next == head {
        head.next := elm;
      } else {
        head.prev.next := elm;
      }
      head.prev := elm;
      ghost var was := nodes;
      nodes := InsertedAt(was, |was|, elm);
      LinkedIn(was, nexts, prevs, head, true, |was|, elm);
      TailOfInserted(was, |was|, elm);
    }

    method Remove(elm: Link, ghost k: nat)
      requires Valid() && k < |Elements()| && Elements()[k] == elm
      modifies this, nodes
      ensures Valid() && Elements() == RemovedAt(old(Elements()), k)
    {
      ghost var nexts, prevs := Nexts(nodes), Prevs(nodes);
      assert nexts[k + 1] == elm.next && prevs[k + 1] == elm.prev;
      CircleLinkOut(head, elm);
      ghost var was := nodes;
      nodes := RemovedAt(was, k + 1);
      LinkedOut(was, nexts, prevs, head, true, k + 1);
      TailOfRemoved(was, k + 1);
    }

    method Traverse() returns (visited: seq<Link>)
      requires Valid()
      ensures visited == Elements()
    {
      visited := [];
      var x := head.next;
      assert Nexts(nodes)[0] == x;
      while x != head
        invariant |visited| <= |Elements()| && visited == Elements()[..|visited|]
        invariant x == if |visited| == |Elements()| then head else Elements()[|visited|]
        decreases |Elements()| - |visited|
      {
        visited := visited + [x];
        assert Nexts(nodes)[|visited|] == x.next;
        x := x.next;
      }
    }

    method TraverseReverse() returns (visited: seq<Link>)
      requires Valid()
      ensures |visited| == |Elements()|
      ensures forall i :: 0 <= i < |visited| ==> visited[i] == Elements()[|visited| - 1 - i]
    {
      visited := [];
      var x := head.prev;
      assert Prevs(nodes)[0] == x;
      while x != head
        invariant |visited| <= |Elements()|
        invariant x == if |visited| == |Elements()| then head else Elements()[|Elements()| - 1 - |visited|]
        invariant forall i :: 0 <= i < |visited| ==> visited[i] == Elements()[|Elements()| - 1 - i]
        decreases |Elements()| - |visited|
      {
        assert Prevs(nodes)[|Elements()| - |visited|] == x.prev;
        visited := visited + [x];
        x := x.prev;
      }
    }
  }

  /** A list: elements lead back to the link before them, the head has no way to the last. */
  class List {
    const head: Link
    ghost var nodes: seq<Link>

    ghost predicate Valid()
      reads this, nodes
    {
      Linked(nodes, null, false) && nodes[0] == head
    }

    ghost function Elements(): seq<Link>
      requires Valid()
      reads this, nodes
    {
      nodes[1..]
    }

    constructor ()
      ensures Valid() && Elements() == [] && fresh(nodes)
    {
      head := new Link();
      new;
      head.next := null;
      nodes := [head];
    }

    method InsertAfter(listelm: Link, elm: Link, ghost k: nat)
      requires Valid() && elm !in nodes && k < |Elements()| && Elements()[k] == listelm
      modifies this, nodes, elm
      ensures Valid() && Elements() == InsertedAt(old(Elements()), k + 1, elm)
    {
      ghost var nexts, prevs := Nexts(nodes), Prevs(nodes);
      assert nexts[k + 1] == listelm.next;
      ListLinkAfter(listelm, elm);
      ghost var was := nodes;
      nodes := InsertedAt(was, k + 2, elm);
      LinkedIn(was, nexts, prevs, null, false, k + 2, elm);
      TailOfInserted(was, k + 2, elm);
    }

    method InsertBefore(listelm: Link, elm: Link, ghost k: nat)
      requires Valid() && elm !in nodes && k < |Elements()| && Elements()[k] == listelm
      modifies this, nodes, elm
      ensures Valid() && Elements() == InsertedAt(old(Elements()), k, elm)
    {
      ghost var nexts, prevs := Nexts(nodes), Prevs(nodes);
      assert prevs[k + 1] == listelm.prev;
      LinkBefore(listelm, elm);
      ghost var was := nodes;
      nodes := InsertedAt(was, k + 1, elm);
      LinkedIn(was, nexts, prevs, null, false, k + 1, elm);
      TailOfInserted(was, k + 1, elm);
    }

    method InsertHead(elm: Link)
      requires Valid() && elm !in nodes
      modifies this, nodes, elm
      ensures Valid() && Elements() == [elm] + old(Elements())
    {
      ghost var nexts, prevs := Nexts(nodes), Prevs(nodes);
      assert nexts[0] == head.next;
      ListLinkAfter(head, elm);
      ghost var was := nodes;
      nodes := InsertedAt(was, 1, elm);
      LinkedIn(was, nexts, prevs, null, false, 1, elm);
      TailOfInserted(was, 1, elm);
    }

    method Remove(elm: Link, ghost k: nat)
      requires Valid() && k < |Elements()| && Elements()[k] == elm
      modifies this, nodes
      ensures Valid() && Elements() == RemovedAt(old(Elements()), k)
    {
      ghost var nexts, prevs := Nexts(nodes), Prevs(nodes);
      assert nexts[k + 1] == elm.next && prevs[k + 1] == elm.prev;
      ListLinkOut(elm);
      ghost var was := nodes;
      nodes := RemovedAt(was, k + 1);
      LinkedOut(was, nexts, prevs, null, false, k + 1);
      TailOfRemoved(was, k + 1);
    }

    method Replace(elm: Link, elm2: Link, ghost k: nat)
      requires Valid() && elm2 !in nodes && k < |Elements()| && Elements()[k] == elm
      modifies this, nodes, elm2
      ensures Valid() && Elements() == old(Elements())[k := elm2]
    {
      ghost var nexts, prevs := Nexts(nodes), Prevs(nodes);
      assert nexts[k + 1] == elm.next && prevs[k + 1] == elm.prev;
      ListLinkOver(elm, elm2);
      ghost var was := nodes;
      nodes := was[k + 1 := elm2];
      LinkedOver(was, nexts, prevs, null, false, k + 1, elm2);
      TailOfReplaced(was, k + 1, elm2);
    }
  }

  /** Linking `nodes[k - 1]` past `nodes[k]` when only `next` fields are used. */
  lemma Skipped(nodes: seq<Link>, nexts: seq<Link?>, k: nat)
    requires Distinct(nodes) && Chain(nodes, nexts, null) && 1 <= k < |nodes|
    requires Nexts(nodes) == nexts[k - 1 := nexts[k]]
    ensures Distinct(RemovedAt(nodes, k)) && Chain(RemovedAt(nodes, k), Nexts(RemovedAt(nodes, k)), null)
  {
    FieldsRemoved(nodes, k);
    DistinctRemoved(nodes, k);
    ChainRemoved(nodes, nexts, null, k);
  }

  /** A singly-linked list: only `next` fields are used. */
  class SinglyLinkedList {
    const head: Link
    ghost var nodes: seq<Link>

    ghost predicate Valid()
      reads this, nodes
    {
      |nodes| >= 1 && nodes[0] == head && Distinct(nodes) && Chain(nodes, Nexts(nodes), null)
    }

    ghost function Elements(): seq<Link>
      requires Valid()
      reads this, nodes
    {
      nodes[1..]
    }

    constructor ()
      ensures Valid() && Elements() == [] && fresh(nodes)
    {
      head := new Link();
      new;
      head.next := null;
      nodes := [head];
    }

    method InsertHead(elm: Link)
      requires Valid() && elm !in nodes
      modifies this, nodes, elm
      ensures Valid() && Elements() == [elm] + old(Elements())
    {
      ghost var nexts := Nexts(nodes);
      assert nexts[0] == head.next;
      elm.next := head.next;
      head.next := elm;
      assert Nexts(nodes) == nexts[0 := elm];
      FieldsInserted(nodes, 1, elm);
      DistinctInserted(nodes, 1, elm);
      ChainInserted(nodes, nexts, null, 1, elm);
      TailOfInserted(nodes, 1, elm);
      nodes := InsertedAt(nodes, 1, elm);
    }

    /** Walks from the head to the link before `elm`, which must be an element. */
    method Remove(elm: Link, ghost k: nat)
      requires Valid() && k < |Elements()| && Elements()[k] == elm
      modifies this, nodes
      ensures Valid() && Elements() == RemovedAt(old(Elements()), k)
    {
      ghost var nexts := Nexts(nodes);
      assert nexts[k + 1] == elm.next && nexts[0] == head.next && nexts[k] == elm;
      if head.next == elm {
        head.next := head.next.next;
      } else {
        var curelm := head.next;
        ghost var i := 1;
        while curelm.next != elm
          invariant 1 <= i <= k && curelm == nodes[i] && Valid() && Nexts(nodes) == nexts
          decreases k - i
        {
          assert nexts[i] == curelm.next;
          curelm := curelm.next;
          i := i + 1;
        }
        assert nexts[i] == curelm.next;
        curelm.next := curelm.next.next;
      }
      ghost var was := nodes;
      nodes := RemovedAt(was, k + 1);
      Skipped(was, nexts, k + 1);
      TailOfRemoved(was, k + 1);
    }
  }
}
