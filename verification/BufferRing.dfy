/**
The buffer cache of bio.c: NBUF buffers and a list head, doubly linked in place into a
ring ordered from most to least recently released.
*/
module BufferRing {
  import opened Basics
  import opened Params

  /** The list head sits after the buffers. */
  const HEAD: int := NBUF

  datatype Node = Node(dev: int, blockno: int, refcnt: nat, valid: bool, prev: int, next: int)

  // ---------------------------------------------------------------------------------
  // The ring as a value

  /** Ring neighbours by position; off either end is the head. */
  function At(order: seq<int>, i: int): int {
    if 0 <= i < |order| then order[i] else HEAD
  }

  predicate LinkedAt(nodes: seq<Node>, order: seq<int>, i: int) {
    && 0 <= i < |order| && 0 <= order[i] < |nodes|
    && nodes[order[i]].prev == At(order, i - 1) && nodes[order[i]].next == At(order, i + 1)
  }

  /** next and prev run through `order` and the head, both ways round. */
  predicate Ring(nodes: seq<Node>, order: seq<int>) {
    && |nodes| == NBUF + 1
    && (forall i :: 0 <= i < |order| ==> 0 <= order[i] < NBUF)
    && Distinct(order)
    && (forall i {:trigger LinkedAt(nodes, order, i)} :: 0 <= i < |order| ==> LinkedAt(nodes, order, i))
    && nodes[HEAD].next == At(order, 0) && nodes[HEAD].prev == At(order, |order| - 1)
  }

  function SetNext(nodes: seq<Node>, b: int, n: int): (r: seq<Node>)
    requires 0 <= b < |nodes|
  {
    nodes[b := nodes[b].(next := n)]
  }

  function SetPrev(nodes: seq<Node>, b: int, p: int): (r: seq<Node>)
    requires 0 <= b < |nodes|
  {
    nodes[b := nodes[b].(prev := p)]
  }

  /** The two stores that take b out of the ring. */
  function Unlink(nodes: seq<Node>, b: int): (r: seq<Node>)
    requires |nodes| == NBUF + 1 && 0 <= b < NBUF && 0 <= nodes[b].next <= NBUF && 0 <= nodes[b].prev <= NBUF
    ensures |r| == |nodes|
  {
    var n1 := SetPrev(nodes, nodes[b].next, nodes[b].prev);
    var p := n1[b].prev;
    if 0 <= p < |n1| then SetNext(n1, p, n1[b].next) else n1
  }

  /** The four stores that put b just after the head. */
  function PushFront(nodes: seq<Node>, b: int): (r: seq<Node>)
    requires |nodes| == NBUF + 1 && 0 <= b < NBUF && 0 <= nodes[HEAD].next <= NBUF
    ensures |r| == |nodes|
  {
    var n1 := nodes[b := nodes[b].(next := nodes[HEAD].next, prev := HEAD)];
    SetNext(SetPrev(n1, n1[HEAD].next, b), HEAD, b)
  }

  function Without(order: seq<int>, p: nat): seq<int>
    requires p < |order|
  {
    order[..p] + order[p + 1..]
  }

  /** What unlinking the buffer at position p does to the links of the one at position k. */
  lemma UnlinkAt(nodes: seq<Node>, order: seq<int>, p: nat, k: nat)
    requires Ring(nodes, order) && p < |order| && k < |order| && k != p
    requires var b := order[p]; 0 <= nodes[b].next <= NBUF && 0 <= nodes[b].prev <= NBUF
    ensures LinkedAt(Unlink(nodes, order[p]), Without(order, p), if k < p then k else k - 1)
  {
    assert LinkedAt(nodes, order, p) && LinkedAt(nodes, order, k);
    var rest, i := Without(order, p), if k < p then k else k - 1;
    assert rest[i] == order[k];
    assert At(rest, i - 1) == if k == p + 1 then At(order, p - 1) else At(order, k - 1);
    assert At(rest, i + 1) == if k == p - 1 then At(order, p + 1) else At(order, k + 1);
  }

  /** What it does to the head's links, and to everything but links. */
  lemma UnlinkHead(nodes: seq<Node>, order: seq<int>, p: nat)
    requires Ring(nodes, order) && p < |order|
    ensures var b := order[p];
            && 0 <= nodes[b].next <= NBUF && 0 <= nodes[b].prev <= NBUF
            && var r, rest := Unlink(nodes, b), Without(order, p);
            && r[HEAD].next == At(rest, 0) && r[HEAD].prev == At(rest, |rest| - 1)
            && (forall c :: 0 <= c <= NBUF ==> SamePayload(nodes[c], r[c]))
  {
    assert LinkedAt(nodes, order, p);
  }

  lemma UnlinkRing(nodes: seq<Node>, order: seq<int>, p: nat)
    requires Ring(nodes, order) && p < |order|
    ensures var b := order[p];
            && 0 <= nodes[b].next <= NBUF && 0 <= nodes[b].prev <= NBUF
            && Ring(Unlink(nodes, b), Without(order, p))
            && (forall c :: 0 <= c <= NBUF ==> SamePayload(nodes[c], Unlink(nodes, b)[c]))
  {
    hide LinkedAt, Unlink;
    UnlinkHead(nodes, order, p);
    var b, rest := order[p], Without(order, p);
    forall i | 0 <= i < |rest|
      ensures LinkedAt(Unlink(nodes, b), rest, i)
    {
      UnlinkAt(nodes, order, p, if i < p then i else i + 1);
    }
  }

  lemma PushFrontRing(nodes: seq<Node>, order: seq<int>, b: int)
    requires Ring(nodes, order) && 0 <= b < NBUF && b !in order
    ensures 0 <= nodes[HEAD].next <= NBUF
    ensures Ring(PushFront(nodes, b), [b] + order)
    ensures forall c :: 0 <= c <= NBUF ==> SamePayload(nodes[c], PushFront(nodes, b)[c])
  {
    var all, r := [b] + order, PushFront(nodes, b);
    forall i | 0 <= i < |all|
      ensures LinkedAt(r, all, i)
    {
      if i > 0 {
        assert all[i] == order[i - 1];
        assert LinkedAt(nodes, order, i - 1);
      }
    }
  }

  predicate SamePayload(a: Node, b: Node) {
    a.dev == b.dev && a.blockno == b.blockno && a.refcnt == b.refcnt && a.valid == b.valid
  }

  // ---------------------------------------------------------------------------------
  // The cache object

  predicate Holds(n: Node, dev: int, blockno: int) {
    n.dev == dev && n.blockno == blockno
  }

  /** No block of a real device is cached twice. */
  predicate Unique(nodes: seq<Node>)
    requires |nodes| == NBUF + 1
  {
    forall a, b :: 0 <= a < b < NBUF && nodes[a].dev != 0 ==> !Holds(nodes[b], nodes[a].dev, nodes[a].blockno)
  }

  /** Earlier in the ring means released later. */
  predicate Sorted(order: seq<int>, stamp: seq<nat>) {
    && (forall i :: 0 <= i < |order| ==> 0 <= order[i] < |stamp|)
    && (forall i, j :: 0 <= i < j < |order| ==> stamp[order[i]] > stamp[order[j]])
  }

  class BufferCache {
    const nodes: array<Node>
    ghost var order: seq<int>
    ghost var stamp: seq<nat>
    ghost var clock: nat

    /** Every buffer is in the ring exactly once, and the ring is in release order. */
    ghost predicate Valid()
      reads this, nodes
    {
      && nodes.Length == NBUF + 1
      && Ring(nodes[..], order) && |order| == NBUF
      && (forall b :: 0 <= b < NBUF ==> b in order)
      && |stamp| == NBUF && Sorted(order, stamp)
      && (forall b :: 0 <= b < NBUF ==> stamp[b] < clock)
      && Unique(nodes[..])
    }

    /** binit: all buffers empty, each linked in behind the head in turn. */
    constructor ()
      ensures Valid() && fresh(nodes)
      ensures forall b :: 0 <= b < NBUF ==> nodes[b].dev == 0 && nodes[b].refcnt == 0
    {
      nodes := new Node[NBUF + 1](_ => Node(0, 0, 0, false, HEAD, HEAD));
      order, stamp, clock := [], seq(NBUF, i => i), NBUF;
      new;
      hide LinkedAt;
      for b := 0 to NBUF
        invariant Ring(nodes[..], order) && |order| == b
        invariant forall c :: 0 <= c < NBUF ==> (c in order <==> c < b)
        invariant forall i :: 0 <= i < b ==> order[i] == b - 1 - i
        invariant stamp == seq(NBUF, i => i) && clock == NBUF
        invariant forall c :: 0 <= c < NBUF ==> SamePayload(nodes[c], Node(0, 0, 0, false, HEAD, HEAD))
      {
        PushFrontRing(nodes[..], order, b);
        LinkFirst(b);
        order := [b] + order;
      }
    }

    /** Link b in just after the head, store by store. */
    method LinkFirst(b: int)
      requires nodes.Length == NBUF + 1 && 0 <= b < NBUF && 0 <= nodes[HEAD].next <= NBUF
      modifies nodes
      ensures nodes[..] == PushFront(old(nodes[..]), b)
    {
      nodes[b] := nodes[b].(next := nodes[HEAD].next);
      nodes[b] := nodes[b].(prev := HEAD);
      var first := nodes[HEAD].next;
      nodes[first] := nodes[first].(prev := b);
      nodes[HEAD] := nodes[HEAD].(next := b);
    }

    /** Take b out of the ring, store by store. */
    method TakeOut(b: int)
      requires nodes.Length == NBUF + 1 && 0 <= b < NBUF
      requires 0 <= nodes[b].next <= NBUF && 0 <= nodes[b].prev <= NBUF && nodes[b].next != b
      modifies nodes
      ensures nodes[..] == Unlink(old(nodes[..]), b)
    {
      var n, p := nodes[b].next, nodes[b].prev;
      nodes[n] := nodes[n].(prev := p);
      nodes[p] := nodes[p].(next := nodes[b].next);
    }

    /** The first loop of bget, most recent first; HEAD means not cached. */
    method FindCached(dev: int, blockno: int) returns (b: int)
      requires Valid()
      ensures b == HEAD <==> forall c :: 0 <= c < NBUF ==> !Holds(nodes[c], dev, blockno)
      ensures b != HEAD ==> 0 <= b < NBUF && Holds(nodes[b], dev, blockno)
    {
      b := nodes[HEAD].next;
      ghost var i := 0;
      while b != HEAD && !(nodes[b].dev == dev && nodes[b].blockno == blockno)
        invariant 0 <= i <= NBUF && b == At(order, i)
        invariant forall j :: 0 <= j < i ==> !Holds(nodes[order[j]], dev, blockno)
        decreases NBUF - i
      {
        assert LinkedAt(nodes[..], order, i);
        b := nodes[b].next;
        i := i + 1;
      }
      if b == HEAD {
        forall c | 0 <= c < NBUF
          ensures !Holds(nodes[c], dev, blockno)
        {
          assert c in order;
        }
      }
    }

    /** The second loop of bget, least recent first; HEAD means every buffer is in use. */
    method FindVictim() returns (b: int)
      requires Valid()
      ensures b == HEAD <==> forall c :: 0 <= c < NBUF ==> nodes[c].refcnt > 0
      ensures b != HEAD ==>
                && 0 <= b < NBUF && nodes[b].refcnt == 0
                && forall c :: 0 <= c < NBUF && nodes[c].refcnt == 0 ==> stamp[b] <= stamp[c]
    {
      b := nodes[HEAD].prev;
      ghost var i := NBUF - 1;
      while b != HEAD && nodes[b].refcnt != 0
        invariant -1 <= i < NBUF && b == At(order, i)
        invariant forall j :: i < j < NBUF ==> nodes[order[j]].refcnt > 0
        decreases i
      {
        assert LinkedAt(nodes[..], order, i);
        b := nodes[b].prev;
        i := i - 1;
      }
      forall c | 0 <= c < NBUF && nodes[c].refcnt == 0
        ensures b != HEAD && stamp[b] <= stamp[c]
      {
        assert c in order;
        var j :| 0 <= j < NBUF && order[j] == c;
      }
    }

    /**
    bget.  A cached block gets another reference; otherwise the unreferenced buffer
    released longest ago is taken over; with none left the result is -1 and the kernel
    panics.
    */
    method Bget(dev: int, blockno: int) returns (b: int)
      requires Valid()
      modifies nodes
      ensures Valid()
      ensures b == -1 <==> forall c :: 0 <= c < NBUF ==> !Holds(old(nodes[c]), dev, blockno) && old(nodes[c]).refcnt > 0
      ensures b == -1 ==> nodes[..] == old(nodes[..])
      ensures b != -1 ==> 0 <= b < NBUF && Holds(nodes[b], dev, blockno)
      ensures b != -1 && Holds(old(nodes[b]), dev, blockno) ==>
                nodes[..] == old(nodes[..])[b := old(nodes[b]).(refcnt := old(nodes[b]).refcnt + 1)]
      ensures b != -1 && !Holds(old(nodes[b]), dev, blockno) ==>
                && (forall c :: 0 <= c < NBUF ==> !Holds(old(nodes[c]), dev, blockno))
                && old(nodes[b]).refcnt == 0
                && (forall c :: 0 <= c < NBUF && old(nodes[c]).refcnt == 0 ==> stamp[b] <= stamp[c])
                && nodes[..] == old(nodes[..])[
                     b := old(nodes[b]).(dev := dev, blockno := blockno, valid := false, refcnt := 1)]
    {
      b := FindCached(dev, blockno);
      if b != HEAD {
        nodes[b] := nodes[b].(refcnt := nodes[b].refcnt + 1);
        PayloadKeepsRing(old(nodes[..]), nodes[..], order);
        return;
      }
      b := FindVictim();
      if b == HEAD {
        return -1;
      }
      nodes[b] := nodes[b].(dev := dev, blockno := blockno, valid := false, refcnt := 1);
      PayloadKeepsRing(old(nodes[..]), nodes[..], order);
    }

    /** brelse: the last reference out moves the buffer to the front. */
    method Brelse(b: int)
      requires Valid() && 0 <= b < NBUF && nodes[b].refcnt > 0
      modifies this, nodes
      ensures Valid()
      ensures forall c :: 0 <= c < NBUF ==>
                SamePayload(
                  nodes[c], if c == b then old(nodes[b]).(refcnt := old(nodes[b]).refcnt - 1) else old(nodes[c]))
      ensures nodes[b].refcnt > 0 ==> order == old(order) && stamp == old(stamp)
      ensures nodes[b].refcnt == 0 ==>
                && order[0] == b && stamp == old(stamp)[b := old(clock)]
                && exists p :: 0 <= p < NBUF && old(order)[p] == b && order == [b] + Without(old(order), p)
    {
      hide Ring;
      nodes[b] := nodes[b].(refcnt := nodes[b].refcnt - 1);
      PayloadKeepsRing(old(nodes[..]), nodes[..], order);
      if nodes[b].refcnt == 0 {
        assert b in order;
        ghost var p :| 0 <= p < NBUF && order[p] == b;
        MoveFirst(b, p);
        MoveToFront(order, stamp, p, clock);
        order, stamp, clock := [b] + Without(order, p), stamp[b := clock], clock + 1;
      }
    }

    /** The six stores of brelse, between positions p and 0 of the ring. */
    method MoveFirst(b: int, ghost p: nat)
      requires nodes.Length == NBUF + 1 && Ring(nodes[..], order) && p < |order| && order[p] == b
      modifies nodes
      ensures Ring(nodes[..], [b] + Without(order, p))
      ensures forall c :: 0 <= c < NBUF ==> SamePayload(nodes[c], old(nodes[c]))
    {
      UnlinkRing(nodes[..], order, p);
      assert LinkedAt(nodes[..], order, p);
      TakeOut(b);
      PushFrontRing(nodes[..], Without(order, p), b);
      LinkFirst(b);
    }

    method Bpin(b: int)
      requires Valid() && 0 <= b < NBUF
      modifies nodes
      ensures Valid() && nodes[..] == old(nodes[..])[b := old(nodes[b]).(refcnt := old(nodes[b]).refcnt + 1)]
    {
      nodes[b] := nodes[b].(refcnt := nodes[b].refcnt + 1);
      PayloadKeepsRing(old(nodes[..]), nodes[..], order);
    }

    /** bunpin: a reference goes and the buffer keeps its place, released or not. */
    method Bunpin(b: int)
      requires Valid() && 0 <= b < NBUF && nodes[b].refcnt > 0
      modifies nodes
      ensures Valid() && nodes[..] == old(nodes[..])[b := old(nodes[b]).(refcnt := old(nodes[b]).refcnt - 1)]
    {
      hide Ring;
      nodes[b] := nodes[b].(refcnt := nodes[b].refcnt - 1);
      PayloadKeepsRing(old(nodes[..]), nodes[..], order);
    }
  }

  /** Changing contents but no link leaves the ring alone. */
  lemma PayloadKeepsRing(nodes: seq<Node>, nodes': seq<Node>, order: seq<int>)
    requires Ring(nodes, order) && |nodes'| == |nodes|
    requires forall c :: 0 <= c < |nodes| ==> nodes'[c].prev == nodes[c].prev && nodes'[c].next == nodes[c].next
    ensures Ring(nodes', order)
  {
    forall i | 0 <= i < |order|
      ensures LinkedAt(nodes', order, i)
    {
      assert LinkedAt(nodes, order, i);
    }
  }

  /** Where the buffers of the reordered ring come from. */
  lemma MovedFrom(order: seq<int>, p: nat, i: nat)
    requires p < |order| && i < |order|
    ensures var moved := [order[p]] + Without(order, p);
            |moved| == |order| && moved[i] == order[if i == 0 then p else if i <= p then i - 1 else i]
  {
  }

  /** A buffer released now goes to the front: the ring stays complete and sorted. */
  lemma MoveToFront(order: seq<int>, stamp: seq<nat>, p: nat, now: nat)
    requires Sorted(order, stamp) && Distinct(order) && p < |order|
    requires forall i :: 0 <= i < |stamp| ==> stamp[i] < now
    ensures Sorted([order[p]] + Without(order, p), stamp[order[p] := now])
    ensures forall b :: b in order ==> b in [order[p]] + Without(order, p)
  {
    hide Without;
    var moved, stamp' := [order[p]] + Without(order, p), stamp[order[p] := now];
    MovedFrom(order, p, 0);
    forall b | b in order
      ensures b in moved
    {
      var k :| 0 <= k < |order| && order[k] == b;
      MovedFrom(order, p, if k < p then k + 1 else if k == p then 0 else k);
    }
    forall i | 0 <= i < |moved|
      ensures 0 <= moved[i] < |stamp'|
    {
      MovedFrom(order, p, i);
    }
    forall i, j | 0 <= i < j < |moved|
      ensures stamp'[moved[i]] > stamp'[moved[j]]
    {
      MovedFrom(order, p, i);
      MovedFrom(order, p, j);
    }
  }
}
