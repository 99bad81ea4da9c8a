/**
The disk driver of virtio_disk.c and the device it talks to: descriptor chains, the avail and used
rings with their 16-bit indices, and the requests behind them.  Each method is one critical
section of the driver or one move of the device; the device takes requests in the order they were
published and completes them in any (sections 2.6 and 5.2 of OASIS VIRTIO 1.1).
*/
module Virtqueue {
  import opened Basics
  import opened Params

  const NUM: nat := 8
  const WRAP: nat := 0x1_0000

  /** What a descriptor points at: a request header, a buffer's data, or a status byte. */
  datatype Addr = Nothing | Op(head: int) | Data(buf: int) | Status(head: int)

  datatype Desc = Desc(addr: Addr, len: int, write: bool, more: bool, next: int)

  /** The driver's notes on a chain, kept under its first descriptor. */
  datatype Info = Info(buf: int, status: int)

  datatype Op = Op(write: bool, sector: int)

  /** A request in flight: its buffer, and the second and third descriptors of its chain. */
  datatype Req = Req(buf: int, d1: int, d2: int, write: bool)

  predicate Index(i: int) {
    0 <= i < NUM
  }

  /** No three descriptors are free. */
  ghost predicate FewFree(free: seq<bool>) {
    |free| == NUM && forall a, b, c :: 0 <= a < b < c < NUM ==> !(free[a] && free[b] && free[c])
  }

  lemma AtMostTwo(free: seq<bool>, idx: seq<int>)
    requires |free| == NUM && |idx| < 3 && forall i :: Index(i) && free[i] ==> i in idx
    ensures FewFree(free)
  {
    forall a, b, c | 0 <= a < b < c < NUM
      ensures !(free[a] && free[b] && free[c])
    {
      assert Index(a) && Index(b) && Index(c);
    }
  }

  ghost function ChainOf(h: int, r: Req): set<int> {
    {h, r.d1, r.d2}
  }

  lemma {:induction false} DistinctBound(s: seq<int>, n: nat)
    requires Distinct(s) && (|s| > 0 ==> 0 <= s[0] < n) && forall i :: 0 <= i < |s| ==> 0 <= s[i] < n
    ensures |s| <= n
  {
    if n > 0 {
      if i :| 0 <= i < |s| && s[i] == n - 1 {
        DistinctBound(s[..i] + s[i + 1..], n - 1);
      } else {
        DistinctBound(s, n - 1);
      }
    }
  }

  /** Distinct indices other than h leave room in a ring of NUM. */
  lemma RoomFor(s: seq<int>, h: int)
    requires Distinct(s) && Index(h) && h !in s && forall x :: x in s ==> Index(x)
    ensures |s| < NUM
  {
    assert forall i :: 0 <= i < |s| ==> s[i] in s;
    DistinctBound(s + [h], NUM);
  }

  // ---------------------------------------------------------------------------------
  // Rings

  /** Entries first, first + 1, ... of the ring hold s. */
  ghost predicate RingHolds(ring: seq<int>, first: nat, s: seq<int>) {
    |ring| == NUM && |s| <= NUM && forall i :: 0 <= i < |s| ==> ring[(first + i) % NUM] == s[i]
  }

  lemma SlotsApart(a: nat, b: nat)
    requires a < b < a + NUM
    ensures a % NUM != b % NUM
  {
  }

  /** Adding an entry at the end overwrites none that is still there. */
  lemma RingPush(ring: seq<int>, first: nat, s: seq<int>, h: int)
    requires RingHolds(ring, first, s) && |s| < NUM
    ensures RingHolds(ring[(first + |s|) % NUM := h], first, s + [h])
  {
    forall i | 0 <= i < |s| + 1
      ensures ring[(first + |s|) % NUM := h][(first + i) % NUM] == (s + [h])[i]
    {
      if i < |s| {
        SlotsApart(first + i, first + |s|);
      }
    }
  }

  lemma RingBound(ring: seq<int>, first: nat, s: seq<int>)
    requires RingHolds(ring, first, s)
    ensures |ring| == NUM && |s| <= NUM
  {
  }

  lemma RingPop(ring: seq<int>, first: nat, s: seq<int>)
    requires RingHolds(ring, first, s) && s != []
    ensures ring[first % NUM] == s[0] && RingHolds(ring, first + 1, s[1..])
  {
    assert ring[(first + 0) % NUM] == s[0];
    forall i | 0 <= i < |s| - 1
      ensures ring[(first + 1 + i) % NUM] == s[1..][i]
    {
      assert ring[(first + (i + 1)) % NUM] == s[i + 1];
    }
  }

  /** A 16-bit index still finds the right slot: NUM divides 2^16. */
  lemma WrapSlot(n: nat)
    ensures n % WRAP % NUM == n % NUM
  {
    assert n == n / WRAP * WRAP + n % WRAP;
  }

  lemma WrapStep(n: nat)
    ensures (n % WRAP + 1) % WRAP == (n + 1) % WRAP
  {
  }

  lemma WrapDiffers(a: nat, b: nat)
    requires a <= b < a + WRAP
    ensures a % WRAP == b % WRAP <==> a == b
  {
  }

  // ---------------------------------------------------------------------------------
  // Requests and their chains

  const OPSIZE: nat := 16

  /** The three descriptors of a request, as section 5.2 asks: header, data, status. */
  ghost predicate ChainOk(desc: seq<Desc>, h: int, r: Req) {
    && |desc| == NUM && Index(h) && Index(r.d1) && Index(r.d2) && h != r.d1 && h != r.d2 && r.d1 != r.d2
    && desc[h] == Desc(Addr.Op(h), OPSIZE, false, true, r.d1)
    && desc[r.d1] == Desc(Data(r.buf), BSIZE, !r.write, true, r.d2)
    && desc[r.d2] == Desc(Status(h), 1, true, false, 0)
  }

  ghost predicate ReqOk(desc: seq<Desc>, info: seq<Info>, owner: seq<int>, reqs: map<int, Req>, h: int) {
    h in reqs ==>
      && ChainOk(desc, h, reqs[h]) && |info| == NUM && info[h].buf == reqs[h].buf
      && |owner| == NUM && owner[h] == h && owner[reqs[h].d1] == h && owner[reqs[h].d2] == h
  }

  /** A descriptor is free or belongs to one request's chain. */
  ghost predicate DescOk(free: seq<bool>, owner: seq<int>, reqs: map<int, Req>, i: int) {
    && |free| == NUM && |owner| == NUM
    && (Index(i) ==> (free[i] <==> owner[i] == -1))
    && (Index(i) && owner[i] != -1 ==> owner[i] in reqs && i in ChainOf(owner[i], reqs[owner[i]]))
  }

  /** Where the requests are: in the avail ring, with the device, in the used ring, or waiting to be freed. */
  datatype Stages = Stages(queued: seq<int>, taken: set<int>, done: seq<int>, ready: set<int>)

  ghost predicate StagesOk(st: Stages, heads: set<int>) {
    && Distinct(st.queued) && Distinct(st.done)
    && Elems(st.queued) !! st.taken !! Elems(st.done) !! st.ready
    && heads == Elems(st.queued) + st.taken + Elems(st.done) + st.ready
  }

  /** b->disk is set exactly for the buffers whose request is not complete. */
  ghost predicate BusyOk(busy: set<int>, reqs: map<int, Req>, ready: set<int>) {
    && (forall h :: h in reqs ==> (reqs[h].buf in busy <==> h !in ready))
    && (forall h, k :: h in reqs && k in reqs && reqs[h].buf == reqs[k].buf ==> h == k)
  }

  class Disk {
    var free: seq<bool>
    var desc: seq<Desc>
    var ops: seq<Op>
    var info: seq<Info>
    var avail: seq<int>
    var availIdx: int
    var used: seq<int>
    var deviceIdx: int
    var seen: int
    var usedIdx: int
    var busy: set<int>
    ghost var owner: seq<int>
    ghost var reqs: map<int, Req>
    ghost var st: Stages
    ghost var consumed: nat
    ghost var handled: nat

    ghost predicate Rings()
      reads this
    {
      && RingHolds(avail, consumed, st.queued) && availIdx == (consumed + |st.queued|) % WRAP && seen == consumed % WRAP
      && RingHolds(used, handled, st.done) && deviceIdx == (handled + |st.done|) % WRAP && usedIdx == handled % WRAP
    }

    ghost predicate Chains()
      reads this
    {
      && |ops| == NUM && |info| == NUM && |desc| == NUM && |free| == NUM && |owner| == NUM
      && (forall h {:trigger ReqOk(desc, info, owner, reqs, h)} :: ReqOk(desc, info, owner, reqs, h))
      && (forall i {:trigger DescOk(free, owner, reqs, i)} :: DescOk(free, owner, reqs, i))
    }

    /** In-flight chains are disjoint and well formed, and the rings list exactly their heads. */
    ghost predicate Valid()
      reads this
    {
      && Chains() && StagesOk(st, reqs.Keys) && BusyOk(busy, reqs, st.ready) && Rings()
      && (forall h :: h in st.done || h in st.ready ==> Index(h) && info[h].status == 0)
    }

    /** virtio_disk_init: all descriptors free, both rings empty. */
    constructor ()
      ensures Valid() && reqs == map[] && busy == {} && (forall i :: Index(i) ==> free[i])
    {
      free := seq(NUM, _ => true);
      desc := seq(NUM, _ => Desc(Nothing, 0, false, false, 0));
      ops := seq(NUM, _ => Op.Op(false, 0));
      info := seq(NUM, _ => Info(-1, 0));
      avail, availIdx := seq(NUM, _ => 0), 0;
      used, deviceIdx, usedIdx, seen := seq(NUM, _ => 0), 0, 0, 0;
      busy := {};
      owner := seq(NUM, _ => -1);
      reqs := map[];
      st := Stages([], {}, [], {});
      consumed, handled := 0, 0;
    }

    /** alloc_desc: the first free descriptor, or -1. */
    method AllocDesc() returns (r: int)
      requires |free| == NUM
      modifies this`free
      ensures r == -1 ==> free == old(free) && forall i :: Index(i) ==> !free[i]
      ensures r != -1 ==> Index(r) && old(free)[r] && free == old(free)[r := false]
      ensures r != -1 ==> forall i :: 0 <= i < r ==> !old(free)[i]
    {
      for i := 0 to NUM
        invariant free == old(free) && forall k :: 0 <= k < i ==> !free[k]
      {
        if free[i] {
          free := free[i := false];
          return i;
        }
      }
      return -1;
    }

    /** free_desc: a descriptor in range that is not free, or the kernel panics. */
    method FreeDesc(i: int)
      requires |free| == NUM && |desc| == NUM && Index(i) && !free[i]
      modifies this`free, this`desc
      ensures free == old(free)[i := true] && desc == old(desc)[i := Desc(Nothing, 0, false, false, 0)]
    {
      desc := desc[i := Desc(Nothing, 0, false, false, 0)];
      free := free[i := true];
    }

    /** alloc3_desc: three distinct free descriptors, or none at all. */
    method Alloc3() returns (ok: bool, idx: seq<int>)
      requires |free| == NUM && |desc| == NUM
      modifies this`free, this`desc
      ensures |free| == NUM && |desc| == NUM && ok == (|idx| == 3) && (!ok ==> idx == [] && FewFree(old(free)))
      ensures Distinct(idx) && forall k :: 0 <= k < |idx| ==> Index(idx[k]) && old(free)[idx[k]]
      ensures forall i :: Index(i) ==>
                (free[i] <==> old(free)[i] && i !in idx) && (!old(free)[i] ==> desc[i] == old(desc)[i])
    {
      hide FewFree;
      idx := [];
      while |idx| < 3
        invariant |idx| <= 3 && |free| == NUM && desc == old(desc) && Distinct(idx)
        invariant forall k :: 0 <= k < |idx| ==> Index(idx[k]) && old(free)[idx[k]]
        invariant forall i :: Index(i) ==> (free[i] <==> old(free)[i] && i !in idx)
      {
        var d := AllocDesc();
        if d < 0 {
          AtMostTwo(old(free), idx);
          for j := 0 to |idx|
            invariant |free| == NUM && |desc| == NUM
            invariant forall i :: Index(i) ==>
                        (free[i] <==> old(free)[i] && i !in idx[j..]) && (!old(free)[i] ==> desc[i] == old(desc)[i])
          {
            assert idx[j] in idx[j..] && idx[j] !in idx[j + 1..];
            FreeDesc(idx[j]);
          }
          return false, [];
        }
        idx := idx + [d];
      }
      ok := true;
    }

    /** free_chain: exactly the three descriptors of the request with head h. */
    method FreeChain(h: int, ghost r: Req)
      requires |free| == NUM && ChainOk(desc, h, r) && forall i :: i in ChainOf(h, r) ==> !free[i]
      modifies this`free, this`desc
      ensures |free| == NUM && |desc| == NUM && forall i :: Index(i) ==>
                (free[i] <==> old(free)[i] || i in ChainOf(h, r))
      ensures forall i :: Index(i) && i !in ChainOf(h, r) ==> desc[i] == old(desc)[i]
    {
      var i := h;
      ghost var left := 3;
      while true
        invariant 1 <= left <= 3 && i == (if left == 3 then h else if left == 2 then r.d1 else r.d2)
        invariant |free| == NUM && |desc| == NUM
        invariant forall k :: Index(k) ==> (free[k] <==>
                    old(free)[k] || (left < 3 && k == h) || (left < 2 && k == r.d1))
        invariant forall k :: Index(k) && !(left < 3 && k == h) && !(left < 2 && k == r.d1) ==> desc[k] == old(desc)[k]
        decreases left
      {
        var more, next := desc[i].more, desc[i].next;
        FreeDesc(i);
        if more {
          i := next;
          left := left - 1;
        } else {
          break;
        }
      }
    }

    /** Filling in the three descriptors of a chain that starts at h. */
    method Format(h: int, r: Req, sector: int)
      requires |desc| == NUM && |ops| == NUM && |info| == NUM && Index(h) && Index(r.d1) && Index(r.d2)
      requires Distinct([h, r.d1, r.d2])
      modifies this`desc, this`ops, this`info
      ensures |ops| == NUM && |info| == NUM && ChainOk(desc, h, r) && info == old(info)[h := Info(r.buf, 0xff)]
      ensures ops[h] == Op.Op(r.write, sector)
      ensures forall i :: Index(i) && i !in ChainOf(h, r) ==> desc[i] == old(desc)[i]
    {
      assert [h, r.d1, r.d2][0] == h && [h, r.d1, r.d2][1] == r.d1 && [h, r.d1, r.d2][2] == r.d2;
      ops := ops[h := Op.Op(r.write, sector)];
      desc := desc[h := Desc(Addr.Op(h), OPSIZE, false, true, r.d1)];
      desc := desc[r.d1 := Desc(Data(r.buf), BSIZE, !r.write, true, r.d2)];
      desc := desc[r.d2 := Desc(Status(h), 1, true, false, 0)];
      info := info[h := Info(r.buf, 0xff)];
    }

    /** Allocating and filling in a chain for b, if three descriptors are free. */
    method Prepare(b: int, sector: int, write: bool) returns (ok: bool, h: int)
      requires Chains()
      modifies this`free, this`desc, this`ops, this`info, this`owner, this`reqs
      ensures Chains() && (!ok ==> reqs == old(reqs) && info == old(info) && FewFree(old(free)))
      ensures ok ==>
                && Index(h) && h !in old(reqs) && h in reqs && reqs == old(reqs)[h := reqs[h]]
                && info == old(info)[h := Info(b, 0xff)]
      ensures ok ==> reqs[h].buf == b && reqs[h].write == write && ops[h] == Op.Op(write, sector)
    {
      hide FewFree;
      ghost var free0, desc0, info0, owner0 := free, desc, info, owner;
      assert DescOk(free, owner, reqs, 0);
      var idx: seq<int>;
      ok, idx := Alloc3();
      h := -1;
      if !ok {
        SameChains(free0, desc0, desc, info, owner, reqs);
        assert free == free0;
        return;
      }
      h := idx[0];
      var r := Req(b, idx[1], idx[2], write);
      assert idx == [h, r.d1, r.d2];
      Format(h, r, sector);
      reqs := reqs[h := r];
      owner := owner[h := h][r.d1 := h][r.d2 := h];
      NewChain(free0, desc0, info0, owner0, old(reqs), h, r, free, desc, info, owner);
    }

    /** virtio_disk_rw up to its wait: a request for b is published, unless fewer than three descriptors are free. */
    method Submit(b: int, sector: int, write: bool) returns (ok: bool, h: int)
      requires Valid() && forall k :: k in reqs ==> reqs[k].buf != b
      modifies this
      ensures Valid() && (!ok ==> reqs == old(reqs) && st == old(st) && busy == old(busy) && FewFree(old(free)))
      ensures ok ==> Index(h) && h !in old(reqs) && h in reqs && reqs == old(reqs)[h := reqs[h]]
      ensures ok ==> reqs[h].buf == b && reqs[h].write == write && ops[h] == Op.Op(write, sector)
      ensures ok ==> st == old(st).(queued := old(st).queued + [h]) && busy == old(busy) + {b}
    {
      hide FewFree, ReqOk, DescOk, RingHolds;
      HeadsInRange(desc, info, owner, reqs);
      ghost var st0 := st;
      ok, h := Prepare(b, sector, write);
      if ok {
        StagesQueue(st0, old(reqs).Keys, h);
        busy := busy + {b};
        Publish(h);
      }
    }

    /** The avail ring: the slot the index names, then the index. */
    method Publish(h: int)
      requires Rings() && Distinct(st.queued) && Index(h) && h !in st.queued && forall x :: x in st.queued ==> Index(x)
      modifies this`avail, this`availIdx, this`st
      ensures Rings() && st == old(st).(queued := old(st).queued + [h])
    {
      RoomFor(st.queued, h);
      WrapSlot(consumed + |st.queued|);
      WrapStep(consumed + |st.queued|);
      RingPush(avail, consumed, st.queued, h);
      avail := avail[availIdx % NUM := h];
      availIdx := (availIdx + 1) % WRAP;
      st := st.(queued := st.queued + [h]);
    }

    // -------------------------------------------------------------------------------
    // The device

    /** The device takes the next head from the avail ring, if its own 16-bit count is behind. */
    method DeviceTake() returns (ok: bool, h: int)
      requires Valid()
      modifies this`seen, this`consumed, this`st
      ensures Valid() && (ok <==> old(st).queued != []) && (!ok ==> st == old(st))
      ensures ok ==> h == old(st).queued[0]
      ensures ok ==> st == old(st).(queued := old(st).queued[1..], taken := old(st).taken + {h})
    {
      hide StagesOk, BusyOk, RingHolds, ReqOk, DescOk;
      h := -1;
      RingBound(avail, consumed, st.queued);
      WrapDiffers(consumed, consumed + |st.queued|);
      ok := seen != availIdx;
      if ok {
        WrapSlot(consumed);
        WrapStep(consumed);
        RingPop(avail, consumed, st.queued);
        StagesTake(st, reqs.Keys);
        h := avail[seen % NUM];
        seen := (seen + 1) % WRAP;
        consumed := consumed + 1;
        st := st.(queued := st.queued[1..], taken := st.taken + {h});
      }
    }

    /** The device finishes a request it has: it follows the chain to the status byte, and lists the head as used. */
    method DeviceComplete(h: int)
      requires Valid() && h in st.taken
      modifies this`info, this`used, this`deviceIdx, this`st
      ensures Valid() && st == old(st).(taken := old(st).taken - {h}, done := old(st).done + [h])
      ensures Index(h) && info == old(info)[h := old(info)[h].(status := 0)]
    {
      HeadsInRange(desc, info, owner, reqs);
      ghost var info0 := info;
      assert h in reqs && ReqOk(desc, info, owner, reqs, h);
      var data := desc[h].next;
      var status := desc[data].next;
      var at := desc[status].addr;
      info := info[at.head := info[at.head].(status := 0)];
      StatusKeeps(desc, info0, info, owner, reqs);
      StagesDone(st, reqs.Keys, h);
      ListUsed(h);
    }

    /** The used ring: the slot the index names, then the index. */
    method ListUsed(h: int)
      requires Rings() && Distinct(st.done) && Index(h) && h !in st.done && forall x :: x in st.done ==> Index(x)
      modifies this`used, this`deviceIdx, this`st
      ensures Rings() && st == old(st).(taken := old(st).taken - {h}, done := old(st).done + [h])
    {
      RoomFor(st.done, h);
      WrapSlot(handled + |st.done|);
      WrapStep(handled + |st.done|);
      RingPush(used, handled, st.done, h);
      used := used[deviceIdx % NUM := h];
      deviceIdx := (deviceIdx + 1) % WRAP;
      st := st.(taken := st.taken - {h}, done := st.done + [h]);
    }

    // -------------------------------------------------------------------------------
    // Completion

    /** The next used entry, by the driver's 16-bit count. */
    method PopUsed() returns (id: int)
      requires Rings() && st.done != []
      modifies this`usedIdx, this`handled, this`st
      ensures Rings() && id == old(st).done[0]
      ensures st == old(st).(done := old(st).done[1..], ready := old(st).ready + {id})
    {
      WrapSlot(handled);
      WrapStep(handled);
      RingPop(used, handled, st.done);
      id := used[usedIdx % NUM];
      usedIdx := (usedIdx + 1) % WRAP;
      handled := handled + 1;
      st := st.(done := st.done[1..], ready := st.ready + {id});
    }

    /** One round of virtio_disk_intr: the flag of exactly the buffer that was submitted is cleared. */
    method HandleOne()
      requires Valid() && st.done != []
      modifies this`busy, this`usedIdx, this`handled, this`st
      ensures Valid() && var h := old(st).done[0];
              h in reqs && busy == old(busy) - {reqs[h].buf}
                && st == old(st).(done := old(st).done[1..], ready := old(st).ready + {h})
    {
      hide RingHolds;
      StagesHandle(st, reqs.Keys);
      BusyHandle(busy, reqs, st, st.done[0]);
      assert st.done[0] in st.done && ReqOk(desc, info, owner, reqs, st.done[0]);
      var id := PopUsed();
      assert info[id].status == 0;
      busy := busy - {info[id].buf};
    }

    /** The 16-bit counts differ exactly when completions are waiting. */
    lemma UsedBehind()
      requires Rings()
      ensures usedIdx != deviceIdx <==> st.done != []
    {
      WrapDiffers(handled, handled + |st.done|);
    }

    /** virtio_disk_intr: every completion in the used ring is handled. */
    method Intr()
      requires Valid()
      modifies this`busy, this`usedIdx, this`handled, this`st
      ensures Valid() && st == old(st).(done := [], ready := old(st).ready + Elems(old(st).done))
      ensures busy == old(busy) - Bufs(reqs, old(st).done)
    {
      hide ReqOk, DescOk, StagesOk, BusyOk, Bufs, Elems, Rings;
      ghost var gone: seq<int> := [];
      BufsNone(reqs);
      UsedBehind();
      while usedIdx != deviceIdx
        invariant Valid() && gone + st.done == old(st).done
        invariant st == old(st).(done := st.done, ready := old(st).ready + Elems(gone))
        invariant (usedIdx != deviceIdx <==> st.done != []) && busy == old(busy) - Bufs(reqs, gone)
        decreases |st.done|
      {
        BufsMore(reqs, gone, st.done[0]);
        gone := gone + [st.done[0]];
        HandleOne();
        UsedBehind();
      }
      assert gone == old(st).done;
    }

    /** The end of virtio_disk_rw, once b->disk is clear: the request's own three descriptors are free again. */
    method Finish(h: int)
      requires Valid() && h in reqs && reqs[h].buf !in busy
      modifies this`free, this`desc, this`info, this`owner, this`reqs, this`st
      ensures Valid() && reqs == old(reqs) - {h} && st == old(st).(ready := old(st).ready - {h})
      ensures forall i :: Index(i) ==> (free[i] <==> old(free)[i] || i in ChainOf(h, old(reqs)[h]))
    {
      StagesEnd(st, reqs, busy, h);
      Release(h);
      st := st.(ready := st.ready - {h});
    }

    /** free_chain on a request's head, with the driver's note of its buffer cleared. */
    method Release(h: int)
      requires Chains() && h in reqs
      modifies this`free, this`desc, this`info, this`owner, this`reqs
      ensures Chains() && reqs == old(reqs) - {h} && Index(h) && info == old(info)[h := old(info)[h].(buf := -1)]
      ensures forall i :: Index(i) ==> (free[i] <==> old(free)[i] || i in ChainOf(h, old(reqs)[h]))
    {
      ghost var r, free0, desc0, info0, owner0 := reqs[h], free, desc, info, owner;
      assert ReqOk(desc, info, owner, reqs, h);
      forall i | i in ChainOf(h, r) ensures !free[i] { assert DescOk(free, owner, reqs, i); }
      info := info[h := info[h].(buf := -1)];
      FreeChain(h, r);
      owner := owner[h := -1][r.d1 := -1][r.d2 := -1];
      EndChain(free0, desc0, info0, owner0, reqs, h, free, desc, info, owner);
      reqs := reqs - {h};
    }
  }

  /** No descriptor is in two chains. */
  lemma ChainsApart(desc: seq<Desc>, info: seq<Info>, owner: seq<int>, reqs: map<int, Req>, h: int, k: int)
    requires forall x {:trigger ReqOk(desc, info, owner, reqs, x)} :: ReqOk(desc, info, owner, reqs, x)
    requires h in reqs && k in reqs && h != k
    ensures ChainOf(h, reqs[h]) !! ChainOf(k, reqs[k])
  {
    assert ReqOk(desc, info, owner, reqs, h) && ReqOk(desc, info, owner, reqs, k);
  }

  /** Chains do not use free descriptors, so changes there do not touch them. */
  lemma SameChains(free: seq<bool>, desc: seq<Desc>, desc': seq<Desc>, info: seq<Info>, owner: seq<int>,
      reqs: map<int, Req>)
    requires forall h {:trigger ReqOk(desc, info, owner, reqs, h)} :: ReqOk(desc, info, owner, reqs, h)
    requires forall i {:trigger DescOk(free, owner, reqs, i)} :: DescOk(free, owner, reqs, i)
    requires |desc'| == |desc| == NUM && |free| == NUM && forall i :: Index(i) && !free[i] ==> desc'[i] == desc[i]
    ensures forall h {:trigger ReqOk(desc', info, owner, reqs, h)} :: ReqOk(desc', info, owner, reqs, h)
  {
    forall h ensures ReqOk(desc', info, owner, reqs, h) {
      assert ReqOk(desc, info, owner, reqs, h);
      if h in reqs {
        assert DescOk(free, owner, reqs, h) && DescOk(free, owner, reqs, reqs[h].d1)
               && DescOk(free, owner, reqs, reqs[h].d2);
      }
    }
  }

  /** Three descriptors that were free make a chain disjoint from all others. */
  lemma NewChain(free: seq<bool>, desc: seq<Desc>, info: seq<Info>, owner: seq<int>, reqs: map<int, Req>, h: int,
      r: Req, free': seq<bool>, desc': seq<Desc>, info': seq<Info>, owner': seq<int>)
    requires forall k {:trigger ReqOk(desc, info, owner, reqs, k)} :: ReqOk(desc, info, owner, reqs, k)
    requires forall i {:trigger DescOk(free, owner, reqs, i)} :: DescOk(free, owner, reqs, i)
    requires |free| == NUM && |free'| == NUM && |desc| == NUM && |info| == NUM && |owner| == NUM && ChainOk(desc', h, r)
    requires forall i :: i in ChainOf(h, r) ==> free[i]
    requires forall i :: Index(i) ==>
               (free'[i] <==> free[i] && i !in ChainOf(h, r)) && (!free[i] ==> desc'[i] == desc[i])
    requires info' == info[h := Info(r.buf, 0xff)] && owner' == owner[h := h][r.d1 := h][r.d2 := h]
    ensures h !in reqs
    ensures forall k {:trigger ReqOk(desc', info', owner', reqs[h := r], k)} ::
              ReqOk(desc', info', owner', reqs[h := r], k)
    ensures forall i {:trigger DescOk(free', owner', reqs[h := r], i)} :: DescOk(free', owner', reqs[h := r], i)
  {
    assert ReqOk(desc, info, owner, reqs, h) && DescOk(free, owner, reqs, h);
    var reqs' := reqs[h := r];
    forall k ensures ReqOk(desc', info', owner', reqs', k) {
      assert ReqOk(desc, info, owner, reqs, k);
      if k in reqs {
        assert DescOk(free, owner, reqs, k) && DescOk(free, owner, reqs, reqs[k].d1)
               && DescOk(free, owner, reqs, reqs[k].d2);
      }
    }
    forall i ensures DescOk(free', owner', reqs', i) {
      assert DescOk(free, owner, reqs, i);
    }
  }

  lemma HeadsInRange(desc: seq<Desc>, info: seq<Info>, owner: seq<int>, reqs: map<int, Req>)
    requires forall h {:trigger ReqOk(desc, info, owner, reqs, h)} :: ReqOk(desc, info, owner, reqs, h)
    ensures forall h :: h in reqs ==> Index(h)
  {
    forall h | h in reqs ensures Index(h) { assert ReqOk(desc, info, owner, reqs, h); }
  }

  lemma StagesQueue(st: Stages, heads: set<int>, h: int)
    requires StagesOk(st, heads) && h !in heads
    ensures StagesOk(st.(queued := st.queued + [h]), heads + {h})
  {
    assert Elems(st.queued + [h]) == Elems(st.queued) + {h};
  }

  /** A buffer whose flag is clear belongs to a request that is ready to be freed. */
  lemma StagesEnd(st: Stages, reqs: map<int, Req>, busy: set<int>, h: int)
    requires StagesOk(st, reqs.Keys) && BusyOk(busy, reqs, st.ready) && h in reqs && reqs[h].buf !in busy
    ensures h in st.ready && StagesOk(st.(ready := st.ready - {h}), (reqs - {h}).Keys)
    ensures BusyOk(busy, reqs - {h}, st.ready - {h})
  {
    assert (reqs - {h}).Keys == reqs.Keys - {h};
  }

  /** The buffers of a list of requests. */
  ghost function Bufs(reqs: map<int, Req>, hs: seq<int>): set<int> {
    set h | h in hs && h in reqs :: reqs[h].buf
  }

  lemma BufsNone(reqs: map<int, Req>)
    ensures Elems([]) == {} && Bufs(reqs, []) == {}
  {
  }

  lemma BufsMore(reqs: map<int, Req>, hs: seq<int>, h: int)
    ensures Elems(hs + [h]) == Elems(hs) + {h}
    ensures h in reqs ==> Bufs(reqs, hs + [h]) == Bufs(reqs, hs) + {reqs[h].buf}
  {
  }

  lemma BusyHandle(busy: set<int>, reqs: map<int, Req>, st: Stages, h: int)
    requires BusyOk(busy, reqs, st.ready) && h in reqs
    ensures BusyOk(busy - {reqs[h].buf}, reqs, st.ready + {h})
  {
  }

  lemma StagesTake(st: Stages, heads: set<int>)
    requires StagesOk(st, heads) && st.queued != []
    ensures StagesOk(st.(queued := st.queued[1..], taken := st.taken + {st.queued[0]}), heads)
  {
    assert st.queued == [st.queued[0]] + st.queued[1..];
    assert Elems(st.queued) == {st.queued[0]} + Elems(st.queued[1..]) && st.queued[0] !in st.queued[1..];
  }

  lemma StagesDone(st: Stages, heads: set<int>, h: int)
    requires StagesOk(st, heads) && h in st.taken
    ensures StagesOk(st.(taken := st.taken - {h}, done := st.done + [h]), heads)
  {
    assert Elems(st.done + [h]) == Elems(st.done) + {h};
  }

  lemma StagesHandle(st: Stages, heads: set<int>)
    requires StagesOk(st, heads) && st.done != []
    ensures StagesOk(st.(done := st.done[1..], ready := st.ready + {st.done[0]}), heads)
  {
    assert st.done == [st.done[0]] + st.done[1..];
    assert Elems(st.done) == {st.done[0]} + Elems(st.done[1..]) && st.done[0] !in st.done[1..];
  }

  /** A status byte is not part of what makes a chain. */
  lemma StatusKeeps(desc: seq<Desc>, info: seq<Info>, info': seq<Info>, owner: seq<int>, reqs: map<int, Req>)
    requires forall h {:trigger ReqOk(desc, info, owner, reqs, h)} :: ReqOk(desc, info, owner, reqs, h)
    requires |info'| == |info| && forall i :: 0 <= i < |info| ==> info'[i].buf == info[i].buf
    ensures forall h {:trigger ReqOk(desc, info', owner, reqs, h)} :: ReqOk(desc, info', owner, reqs, h)
  {
    forall h ensures ReqOk(desc, info', owner, reqs, h) { assert ReqOk(desc, info, owner, reqs, h); }
  }

  /** A chain goes; the others are untouched. */
  lemma EndChain(free: seq<bool>, desc: seq<Desc>, info: seq<Info>, owner: seq<int>, reqs: map<int, Req>, h: int,
      free': seq<bool>, desc': seq<Desc>, info': seq<Info>, owner': seq<int>)
    requires forall k {:trigger ReqOk(desc, info, owner, reqs, k)} :: ReqOk(desc, info, owner, reqs, k)
    requires forall i {:trigger DescOk(free, owner, reqs, i)} :: DescOk(free, owner, reqs, i)
    requires h in reqs && |free'| == NUM && |desc'| == NUM && |info'| == NUM && |owner| == NUM && |free| == NUM
    requires |desc| == NUM && |info| == NUM
    requires Index(h) && Index(reqs[h].d1) && Index(reqs[h].d2)
    requires forall i :: Index(i) ==>
               && (free'[i] <==> free[i] || i in ChainOf(h, reqs[h]))
               && (i !in ChainOf(h, reqs[h]) ==> desc'[i] == desc[i]) && (i != h ==> info'[i] == info[i])
    requires owner' == owner[h := -1][reqs[h].d1 := -1][reqs[h].d2 := -1]
    ensures forall k {:trigger ReqOk(desc', info', owner', reqs - {h}, k)} :: ReqOk(desc', info', owner', reqs - {h}, k)
    ensures forall i {:trigger DescOk(free', owner', reqs - {h}, i)} :: DescOk(free', owner', reqs - {h}, i)
  {
    var reqs' := reqs - {h};
    assert ReqOk(desc, info, owner, reqs, h);
    forall k ensures ReqOk(desc', info', owner', reqs', k) {
      assert ReqOk(desc, info, owner, reqs, k);
    }
    forall i ensures DescOk(free', owner', reqs', i) {
      assert DescOk(free, owner, reqs, i);
      if Index(i) && owner[i] != -1 {
        assert ReqOk(desc, info, owner, reqs, owner[i]);
      }
    }
  }
}
