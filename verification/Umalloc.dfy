/** The user-level allocator of user/umalloc.c, in place on its header words. */
module Umalloc {
  import opened FreeList

  const NULL: int := 0

  /** Units of a header's size, and the least sbrk asks for. */
  const HEADER: nat := 16
  const MINCORE: nat := 4096

  /** nunits in malloc: the payload rounded up, plus the header. */
  function Units(nbytes: nat): nat {
    (nbytes + HEADER - 1) / HEADER + 1
  }

  function Wrap(x: int, n: int): int {
    if x < n then x else x - n
  }

  class Heap {
    const base: int
    var ptr: Words
    var size: Words
    var freep: int
    var brk: int
    ghost var fl: seq<int>
    ghost var live: set<int>
    ghost var owner: Owner

    ghost function A(): Arena
      reads this
    {
      Arena(base, fl, ptr, size, live, owner)
    }

    /**
    The free list is circular, ordered and coalesced; the free and the live blocks partition
    the units obtained from sbrk.
    */
    ghost predicate Valid()
      reads this
    {
      && NULL < base < brk && (forall u :: u in owner ==> base < u < brk)
      && if freep == NULL then live == {} && fl == [] && forall u :: u !in owner
         else Tidy(A()) && freep in fl
    }

    constructor (base: int, brk: int)
      requires NULL < base < brk
      ensures Valid() && freep == NULL && this.base == base && this.brk == brk
    {
      this.base, this.brk := base, brk;
      ptr, size, freep := map[], map[], NULL;
      fl, live, owner := [], {}, imap[];
    }

    /** Where in the list the block bp belongs. */
    ghost method Spot(bp: int) returns (k: nat)
      requires Valid() && bp in live
      ensures k < |fl| && fl[k] < bp && (k + 1 < |fl| ==> bp < fl[k + 1]) && Fits(fl, size, k, bp)
    {
      assert InBlock(owner, size, bp, bp);
      TidyList(A());
      k := 0;
      while k + 1 < |fl| && fl[k + 1] < bp
        invariant 0 <= k < |fl| && fl[k] < bp
      {
        k := k + 1;
      }
      if k > 0 {
        Apart(owner, size, Heads(A()), fl[k], bp);
      }
      if k + 1 < |fl| {
        assert fl[k + 1] in fl && fl[k + 1] != bp;
        Apart(owner, size, Heads(A()), bp, fl[k + 1]);
      }
    }

    /** The search at the head of free: it ends, at the header the block goes after. */
    method Search(bp: int) returns (p: int, ghost k: nat)
      requires Valid() && bp in live
      ensures k < |fl| && p == fl[k] && p > NULL && Fits(fl, size, k, bp)
    {
      k := Spot(bp);
      TidyList(A());
      p := freep;
      ghost var i :| 0 <= i < |fl| && fl[i] == p;
      while !(bp > p && bp < ptr[p])
        invariant 0 <= i < |fl| && p == fl[i]
        decreases if i <= k then k - i else k + |fl| - i
      {
        assert LinkOk(fl, ptr, i);
        if p >= ptr[p] && (bp > p || bp < ptr[p]) {
          assert i == k;
          return;
        }
        assert i != k;
        p := ptr[p];
        i := if i + 1 < |fl| then i + 1 else 0;
      }
      assert LinkOk(fl, ptr, i);
    }

    /** The first test of free: take in the next block, or point to it. */
    method JoinNext(p: int, bp: int, ghost k: nat)
      requires Valid() && bp in live && k < |fl| && p == fl[k] && Fits(fl, size, k, bp)
      modifies this`ptr, this`size, this`fl, this`live, this`owner
      ensures bp in ptr && A().(ptr := ptr[p := bp]) == Joined(Inserted(old(A()), k, bp), k + 1)
    {
      hide Tidy, TouchAt, Insert, Remove, Relabel;
      ghost var a := A();
      TidyEntry(a, k);
      ghost var one := Inserted(a, k, bp);
      NextTest(a, k, bp);
      var nx := ptr[p];
      if bp + size[bp] == nx {
        owner := Relabel(owner, nx, nx + size[nx], bp);
        size := size[bp := size[bp] + size[nx]];
        ptr := ptr[bp := ptr[nx]];
        fl, live := Remove(one.fl, k + 2), one.live;
        assert ptr[p := bp] == Merged(one, k + 1).ptr;
      } else {
        ptr := ptr[bp := nx];
        fl, live := one.fl, one.live;
      }
    }

    /** The second test of free: p takes in the block, or points to it. */
    method JoinPrevious(p: int, bp: int, ghost k: nat)
      requires bp in ptr && k + 1 < |fl| && fl[k] == p && fl[k + 1] == bp && Sound(A().(ptr := ptr[p := bp]))
      modifies this`ptr, this`size, this`fl, this`owner
      ensures A() == Joined(old(A()).(ptr := old(ptr)[p := bp]), k)
    {
      ghost var two := A().(ptr := ptr[p := bp]);
      assert TouchAt(two, k) <==> p + size[p] == bp;
      if p + size[p] == bp {
        owner := Relabel(owner, bp, bp + size[bp], p);
        size := size[p := size[p] + size[bp]];
        ptr := ptr[p := ptr[bp]];
        fl := Remove(fl, k + 1);
        assert ptr == Merged(two, k).ptr;
      } else {
        ptr := ptr[p := bp];
      }
    }

    /** free: the block's units become free, coalesced with their neighbours; every other live block is untouched. */
    method Free(bp: int)
      requires Valid() && bp in live
      modifies this`ptr, this`size, this`freep, this`fl, this`live, this`owner
      ensures Valid() && freep != NULL && Released(old(A()), A(), bp) && Within(A(), bp, old(size)[bp])
    {
      ghost var a := A();
      hide Tidy, Sound, Joined, Inserted, Within;
      var p: int;
      ghost var k: nat;
      p, k := Search(bp);
      JoinedNext(a, k, bp);
      FreeTidy(a, k, bp);
      JoinNext(p, bp, k);
      JoinPrevious(p, bp, k);
      freep := p;
    }

    /** morecore: sbrk fails, or `gap` units beyond the break are skipped and the new block is freed. */
    method Morecore(nu: nat, fails: bool, gap: nat) returns (p: int)
      requires Valid() && freep != NULL && nu >= 1
      modifies this
      ensures Valid() && freep != NULL
      ensures fails ==> p == NULL && A() == old(A()) && freep == old(freep)
      ensures !fails ==> p == freep && Within(A(), old(brk) + gap, nu)
      ensures !fails ==> Obtained(old(A()), A(), old(brk) + gap, if nu < MINCORE then MINCORE else nu)
    {
      hide Tidy, Released;
      var n := if nu < MINCORE then MINCORE else nu;
      if fails {
        return NULL;
      }
      ghost var a := A();
      var hp := brk + gap;
      ExtendTidy(a, hp, n);
      brk := hp + n;
      size := size[hp := n];
      live, owner := live + {hp}, Grow(owner, hp, n);
      assert A() == Extended(a, hp, n);
      Free(hp);
      ExtendRelease(a, hp, n, A());
      p := freep;
    }

    /** An exact fit leaves the list. */
    method TakeBlock(prevp: int, p: int, ghost k: nat)
      requires Valid() && freep != NULL && 0 < k < |fl| && p == fl[k] && prevp == fl[k - 1] && p in size
      modifies this`ptr, this`freep, this`fl, this`live
      ensures Valid() && freep != NULL && Allocated(old(A()), A(), p, old(size)[p])
    {
      hide Tidy, Remove;
      ghost var a := A();
      TidyEntry(a, k);
      TidyEntry(a, k - 1);
      TakeWhole(a, k);
      ptr := ptr[prevp := ptr[p]];
      fl, live := Remove(fl, k), live + {p};
      freep := prevp;
      assert A() == Taken(a, k, size[p]);
    }

    /** A larger block gives up its last n units. */
    method TakeEnd(prevp: int, p: int, n: nat, ghost k: nat) returns (h: int)
      requires Valid() && freep != NULL && 0 < k < |fl| && p == fl[k] && prevp == fl[k - 1] && p in size
      requires 1 <= n < size[p]
      modifies this`size, this`freep, this`live, this`owner
      ensures Valid() && freep != NULL && h > NULL && Allocated(old(A()), A(), h, n)
    {
      hide Tidy;
      ghost var a := A();
      TidyEntry(a, k);
      TidyEntry(a, k - 1);
      TakeTail(a, k, n);
      ghost var a' := Taken(a, k, n);
      assert Allocated(a, a', p + size[p] - n, n) && Tidy(a') && a'.fl == fl && a'.ptr == ptr;
      assert a'.size == size[p := size[p] - n][p + size[p] - n := n] && a'.live == live + {p + size[p] - n};
      hide Taken;
      size := size[p := size[p] - n];
      h := p + size[p];
      size := size[h := n];
      live, owner := a'.live, a'.owner;
      freep := prevp;
      assert A() == a';
    }

    method Take(prevp: int, p: int, n: nat, ghost k: nat) returns (h: int)
      requires Valid() && freep != NULL && 0 < k < |fl| && p == fl[k] && prevp == fl[k - 1] && p in size
      requires 1 <= n <= size[p]
      modifies this`ptr, this`size, this`freep, this`fl, this`live, this`owner
      ensures Valid() && freep != NULL && h > NULL && Allocated(old(A()), A(), h, n)
    {
      TidyEntry(A(), k);
      hide Tidy, Allocated;
      h := p;
      if size[p] == n {
        TakeBlock(prevp, p, k);
      } else {
        h := TakeEnd(prevp, p, n, k);
      }
    }

    /** The c entries after entry f of the ring have been tried and are too small. */
    ghost predicate Tried(f: int, c: int, n: nat)
      reads this
    {
      && 0 <= f < |fl| && 0 <= c < |fl| && freep == fl[f]
      && forall j :: 0 <= j < |fl| && (f < j <= f + c || j <= f + c - |fl|) ==> fl[j] in size && size[fl[j]] < n
    }

    /** malloc's loop: p is c + 1 entries after freep on the ring, prevp is before it. */
    ghost predicate Looking(f: int, c: int, n: nat, prevp: int, p: int)
      reads this
    {
      Tried(f, c, n) && prevp == fl[Wrap(f + c, |fl|)] && p == fl[Wrap(f + 1 + c, |fl|)]
    }

    lemma LookFirst(f: int, n: nat)
      requires Tidy(A()) && 0 <= f < |fl| && fl[f] == freep
      ensures freep in ptr && Looking(f, 0, n, freep, ptr[freep])
    {
      TidyEntry(A(), f);
    }

    lemma LookAt(f: int, c: int, n: nat, prevp: int, p: int) returns (k: nat)
      requires Tidy(A()) && Looking(f, c, n, prevp, p)
      ensures k < |fl| && p == fl[k] && p in size && p in ptr && (size[p] > 0 ==> k > 0 && prevp == fl[k - 1])
    {
      k := Wrap(f + 1 + c, |fl|);
      TidyEntry(A(), k);
    }

    lemma LookNext(f: int, c: int, n: nat, prevp: int, p: int)
      requires Tidy(A()) && Looking(f, c, n, prevp, p) && p != freep && p in size && size[p] < n
      ensures c + 1 < |fl| && p in ptr && Looking(f, c + 1, n, p, ptr[p])
    {
      TidyEntry(A(), Wrap(f + 1 + c, |fl|));
    }

    /** Once the loop is back at freep, every block has been tried. */
    lemma AllTried(f: int, c: int, n: nat, prevp: int, h: int)
      requires Tidy(A()) && Looking(f, c, n, prevp, freep) && freep in size && size[freep] < n && h in fl
      ensures h in size && size[h] < n
    {
      var i :| 0 <= i < |fl| && fl[i] == h;
      assert c == |fl| - 1;
    }

    /** malloc's call of morecore, once the loop is back at freep, and the step after it. */
    method Refill(n: nat, fails: bool, gap: nat, ghost f: int, ghost c: int, ghost before: int)
      returns (p: int, ghost f': int, ghost big: int)
      requires Valid() && freep != NULL && n >= 1 && Looking(f, c, n, before, freep) && freep in size && size[freep] < n
      modifies this
      ensures Valid() && freep != NULL && forall h :: h in old(fl) ==> h in old(size) && old(size)[h] < n
      ensures p == NULL ==> fails && A() == old(A())
      ensures p != NULL ==>
                p == freep && p in ptr && Looking(f', 0, n, p, ptr[p]) && big in fl && big in size && size[big] >= n
      ensures p != NULL ==> Obtained(old(A()), A(), old(brk) + gap, if n < MINCORE then MINCORE else n)
    {
      forall h | h in fl ensures h in size && size[h] < n { AllTried(f, c, n, before, h); }
      hide Tidy, Obtained, Within;
      p := Morecore(n, fails, gap);
      f', big := 0, 0;
      if p != NULL {
        big := BigBlock(A(), old(brk) + gap, n);
        f' :| 0 <= f' < |fl| && fl[f'] == freep;
        LookFirst(f', n);
      }
    }

    /** malloc before its first block: the list is just base. */
    method Start()
      requires Valid()
      modifies this`ptr, this`size, this`freep, this`fl, this`owner
      ensures Valid() && freep != NULL
      ensures A() == if old(freep) == NULL then Fresh(base, old(ptr), old(size)) else old(A())
    {
      if freep == NULL {
        FreshTidy(base, ptr, size);
        ptr := ptr[base := base];
        freep := base;
        size := size[base := 0];
        fl, owner := [base], imap[];
      }
    }

    /**
    malloc: a block of exactly the units asked for, all of them free before or just obtained.
    morecore is called at most once, and only when no free block is large enough.
    */
    method Malloc(nbytes: nat, fails: bool, gap: nat) returns (r: int, ghost calls: nat, ghost mid: Arena)
      requires Valid()
      modifies this
      ensures Valid() && freep != NULL && calls <= 1
      ensures var start := if old(freep) == NULL then Fresh(base, old(ptr), old(size)) else old(A());
              && (calls == 0 ==> mid == start)
              && (calls == 1 ==> forall h :: h in start.fl ==> h in start.size && start.size[h] < Units(nbytes))
              && (r == NULL ==> calls == 1 && fails && A() == start)
              && (r != NULL && calls == 1 ==> Obtained(start, mid, old(brk) + gap,
                     if Units(nbytes) < MINCORE then MINCORE else Units(nbytes)))
              && (r != NULL ==> Allocated(mid, A(), r - 1, Units(nbytes)))
    {
      hide Tidy, Obtained, Allocated, Within, Fresh, Looking;
      var n := Units(nbytes);
      calls := 0;
      Start();
      ghost var start, big := A(), NULL;
      mid := start;
      var prevp := freep;
      ghost var f :| 0 <= f < |fl| && fl[f] == freep;
      ghost var c, k := 0, 0;
      LookFirst(f, n);
      var p := ptr[prevp];
      while true
        invariant Valid() && freep != NULL && A() == mid && Looking(f, c, n, prevp, p) && calls <= 1
        invariant calls == 0 ==> mid == start && brk == old(brk)
        invariant calls == 1 ==>
                    Refilled(start, n, big) && Obtained(start, mid, old(brk) + gap, if n < MINCORE then MINCORE else n)
        decreases 1 - calls, |fl| - c
      {
        k := LookAt(f, c, n, prevp, p);
        if size[p] >= n {
          var h := Take(prevp, p, n, k);
          return h + 1, calls, mid;
        }
        if p == freep {
          assert calls == 0 by {
            if calls == 1 { AllTried(f, c, n, prevp, big); }
          }
          p, f, big := Refill(n, fails, gap, f, c, prevp);
          calls, c := 1, 0;
          if p == NULL {
            return NULL, calls, mid;
          }
          mid := A();
        } else {
          LookNext(f, c, n, prevp, p);
          c := c + 1;
        }
        prevp, p := p, ptr[p];
      }
    }

    /** After morecore: nothing was large enough before, and one block is now. */
    ghost predicate Refilled(start: Arena, n: nat, big: int)
      reads this
    {
      && big in fl && big in size && size[big] >= n
      && forall h :: h in start.fl ==> h in start.size && start.size[h] < n
    }
  }

  lemma BigBlock(a: Arena, h: int, n: nat) returns (big: int)
    requires Within(a, h, n)
    ensures big in a.fl && big in a.size && a.size[big] >= n
  {
    big := a.owner[h];
  }
}
