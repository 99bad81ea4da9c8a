/**
Sv39 page tables as vm.c keeps them: three levels of 512-entry tables in physical pages.
`Translate` is the address translation of section 4.4 of the RISC-V Privileged
Architecture; `Wf` is the shape every operation keeps: each table page hangs from exactly
one entry of one table above it.
*/
module PageTree {

  const ENTRIES: nat := 512

  /** A page table entry; a valid entry with no R, W or X points to the next level. */
  datatype Pte = Pte(v: bool, ppn: int, r: bool, w: bool, x: bool, u: bool, cow: bool) {
    predicate IsLeaf() { r || w || x }
  }

  const Zero := Pte(false, 0, false, false, false, false, false)

  function ZeroTable(): seq<Pte> {
    seq(ENTRIES, _ => Zero)
  }

  /** Where a table page hangs: its level, the virtual page prefix it covers, its parent table. */
  datatype Place = Place(level: int, prefix: int, parent: int)

  datatype Tree = Tree(root: int, tables: map<int, seq<Pte>>, place: map<int, Place>)

  /** PX(level, va), for the virtual page number of va. */
  function PX(level: int, vpn: int): int {
    if level == 0 then vpn % ENTRIES
    else if level == 1 then vpn / ENTRIES % ENTRIES
    else vpn / (ENTRIES * ENTRIES) % ENTRIES
  }

  /** The prefix of a virtual page number covered by a table of this level. */
  function PrefixOf(level: int, vpn: int): int {
    if level == 0 then vpn / ENTRIES
    else if level == 1 then vpn / (ENTRIES * ENTRIES)
    else vpn / (ENTRIES * ENTRIES * ENTRIES)
  }

  /** MAXVA in pages: half of the 512^3 an Sv39 tree could map. */
  const MAXVPN: int := 0x400_0000

  predicate Vpn(vpn: int) {
    0 <= vpn < MAXVPN
  }

  /** The number of tables of a level that addresses below MAXVA can need. */
  function PrefixBound(level: int): int {
    if level == 2 then 1 else if level == 1 then 0x100 else 0x2_0000
  }

  predicate TablesOk(t: Tree) {
    && t.tables.Keys == t.place.Keys && t.root in t.tables
    && t.place[t.root].level == 2 && t.place[t.root].prefix == 0
    && (forall p :: p in t.tables ==> |t.tables[p]| == ENTRIES)
    && (forall p :: p in t.place ==>
          0 <= t.place[p].level <= 2 && 0 <= t.place[p].prefix < PrefixBound(t.place[p].level))
  }

  /** No two tables cover the same range at the same level. */
  predicate Apart(t: Tree) {
    forall p, q :: p in t.place && q in t.place ==>
      (t.place[p].level == t.place[q].level && t.place[p].prefix == t.place[q].prefix ==> p == q)
  }

  /** The entry of table p with index i is as its level demands. */
  predicate EntryOk(t: Tree, p: int, i: int)
    requires TablesOk(t)
  {
    p in t.tables && 0 <= i < ENTRIES && t.tables[p][i].v ==>
      var e, here := t.tables[p][i], t.place[p];
      if here.level == 0 then e.IsLeaf()
      else
        && !e.IsLeaf() && e.ppn in t.place
        && t.place[e.ppn] == Place(here.level - 1, here.prefix * ENTRIES + i, p)
  }

  /** Every table but the root hangs from the entry its place names. */
  predicate HangsOk(t: Tree, c: int)
    requires TablesOk(t)
  {
    c in t.place && c != t.root ==>
      var here := t.place[c];
      && here.level < 2 && here.parent in t.tables
      && t.place[here.parent].level == here.level + 1
      && t.place[here.parent].prefix == here.prefix / ENTRIES
      && t.tables[here.parent][here.prefix % ENTRIES].v
      && t.tables[here.parent][here.prefix % ENTRIES].ppn == c
  }

  predicate Wf(t: Tree) {
    && TablesOk(t) && Apart(t)
    && (forall p, i {:trigger EntryOk(t, p, i)} :: p in t.tables && 0 <= i < ENTRIES ==> EntryOk(t, p, i))
    && (forall c {:trigger HangsOk(t, c)} :: c in t.place ==> HangsOk(t, c))
  }

  // ---------------------------------------------------------------------------------
  // Translation

  /** The table one level down from p on the way to vpn, or -1. */
  function Down(t: Tree, p: int, level: int, vpn: int): int {
    if p in t.tables && PX(level, vpn) < |t.tables[p]| && PX(level, vpn) >= 0 && t.tables[p][PX(level, vpn)].v
    then t.tables[p][PX(level, vpn)].ppn else -1
  }

  /** The level-0 table for vpn, or -1 when a level is missing. */
  function LeafTable(t: Tree, vpn: int): int {
    Down(t, Down(t, t.root, 2, vpn), 1, vpn)
  }

  /** The entry that translates vpn, or Zero: what the hardware and walk both find. */
  function Translate(t: Tree, vpn: int): Pte {
    var leaf := LeafTable(t, vpn);
    if leaf in t.tables && |t.tables[leaf]| == ENTRIES && t.tables[leaf][PX(0, vpn)].v
    then t.tables[leaf][PX(0, vpn)] else Zero
  }

  /** The flat map the tree stands for: an entry, possibly Zero, for every page below MAXVA. */
  ghost function FlatMap(t: Tree): imap<int, Pte> {
    imap w | Vpn(w) :: Translate(t, w)
  }

  lemma FlatDomain(t: Tree)
    ensures forall w :: Vpn(w) <==> w in FlatMap(t)
  {
  }

  /** On the way down, each table reached is the one whose place covers vpn. */
  lemma DownPlace(t: Tree, p: int, level: int, vpn: int)
    requires Wf(t) && Vpn(vpn) && 1 <= level <= 2 && -1 !in t.tables
    requires p in t.place && t.place[p].level == level && t.place[p].prefix == PrefixOf(level, vpn)
    ensures var c := Down(t, p, level, vpn);
            c != -1 ==> c in t.place && t.place[c] == Place(level - 1, PrefixOf(level - 1, vpn), p)
  {
    assert EntryOk(t, p, PX(level, vpn));
    PrefixStep(level, vpn);
  }

  /** Base-512 digits: a prefix extends by the next index. */
  lemma PrefixStep(level: int, vpn: int)
    requires Vpn(vpn) && 1 <= level <= 2
    ensures PrefixOf(level - 1, vpn) == PrefixOf(level, vpn) * ENTRIES + PX(level, vpn)
    ensures PrefixOf(level - 1, vpn) / ENTRIES == PrefixOf(level, vpn)
    ensures PrefixOf(level - 1, vpn) % ENTRIES == PX(level, vpn)
  {
  }

  /** The two tables on the way to vpn, with their places. */
  lemma PathPlaces(t: Tree, vpn: int)
    requires Wf(t) && Vpn(vpn) && -1 !in t.tables
    ensures var mid := Down(t, t.root, 2, vpn);
            && (mid != -1 ==> mid in t.place && t.place[mid] == Place(1, PrefixOf(1, vpn), t.root))
            && (LeafTable(t, vpn) != -1 ==> mid != -1)
    ensures var leaf := LeafTable(t, vpn);
            leaf != -1 ==> leaf in t.place && t.place[leaf].level == 0 && t.place[leaf].prefix == PrefixOf(0, vpn)
  {
    DownPlace(t, t.root, 2, vpn);
    var mid := Down(t, t.root, 2, vpn);
    if mid != -1 {
      DownPlace(t, mid, 1, vpn);
    }
  }

  // ---------------------------------------------------------------------------------
  // Hanging a new table

  function Branch(c: int): Pte {
    Pte(true, c, false, false, false, false, false)
  }

  /** walk's `*pte = PA2PTE(page) | PTE_V` after zeroing the new page c. */
  function Hang(t: Tree, p: int, i: int, c: int): Tree
    requires p in t.tables && p in t.place && 0 <= i < |t.tables[p]|
  {
    t.(tables := t.tables[p := t.tables[p][i := Branch(c)]][c := ZeroTable()],
       place := t.place[c := Place(t.place[p].level - 1, t.place[p].prefix * ENTRIES + i, p)])
  }

  /** Room for a new table: a table above level 0 with an entry not in use. */
  predicate Slot(t: Tree, p: int, i: int) {
    && Wf(t) && p in t.tables && 0 <= i < ENTRIES && !t.tables[p][i].v && t.place[p].level > 0
    && t.place[p].prefix * ENTRIES + i < PrefixBound(t.place[p].level - 1)
  }

  /** An entry that is not valid has no table hanging from it. */
  lemma NothingHangs(t: Tree, p: int, i: int, q: int)
    requires Slot(t, p, i) && q in t.place
    ensures !(t.place[q].level == t.place[p].level - 1 && t.place[q].prefix == t.place[p].prefix * ENTRIES + i)
  {
    assert HangsOk(t, q);
    assert (t.place[p].prefix * ENTRIES + i) / ENTRIES == t.place[p].prefix;
  }

  lemma HangApart(t: Tree, p: int, i: int, c: int)
    requires Slot(t, p, i) && c !in t.tables
    ensures TablesOk(Hang(t, p, i, c)) && Apart(Hang(t, p, i, c))
  {
    forall q | q in t.place
      ensures !(t.place[q].level == t.place[p].level - 1 && t.place[q].prefix == t.place[p].prefix * ENTRIES + i)
    {
      NothingHangs(t, p, i, q);
    }
  }

  lemma HangEntry(t: Tree, p: int, i: int, c: int, q: int, j: int)
    requires Slot(t, p, i) && c !in t.tables && TablesOk(Hang(t, p, i, c))
    requires q in t.tables || q == c
    ensures EntryOk(Hang(t, p, i, c), q, j)
  {
    if q != c && 0 <= j < ENTRIES {
      assert EntryOk(t, q, j);
    }
  }

  lemma HangParent(t: Tree, p: int, i: int, c: int, q: int)
    requires Slot(t, p, i) && c !in t.tables && TablesOk(Hang(t, p, i, c))
    requires q in t.place || q == c
    ensures HangsOk(Hang(t, p, i, c), q)
  {
    var here := t.place[p];
    if q == c {
      assert (here.prefix * ENTRIES + i) / ENTRIES == here.prefix && (here.prefix * ENTRIES + i) % ENTRIES == i;
    } else {
      assert HangsOk(t, q);
    }
  }

  lemma HangWf(t: Tree, p: int, i: int, c: int)
    requires Slot(t, p, i) && c !in t.tables
    ensures Wf(Hang(t, p, i, c))
  {
    HangApart(t, p, i, c);
    forall q, j | q in Hang(t, p, i, c).tables && 0 <= j < ENTRIES
      ensures EntryOk(Hang(t, p, i, c), q, j)
    {
      HangEntry(t, p, i, c, q, j);
    }
    forall q | q in Hang(t, p, i, c).place
      ensures HangsOk(Hang(t, p, i, c), q)
    {
      HangParent(t, p, i, c, q);
    }
  }

  /** A new empty table translates nothing new and nothing differently. */
  lemma HangTranslates(t: Tree, p: int, i: int, c: int, vpn: int)
    requires Slot(t, p, i)
    requires c !in t.tables && c != -1 && -1 !in t.tables && Vpn(vpn)
    ensures Translate(Hang(t, p, i, c), vpn) == Translate(t, vpn)
  {
    var t' := Hang(t, p, i, c);
    PathPlaces(t, vpn);
    var mid, mid' := Down(t, t.root, 2, vpn), Down(t', t.root, 2, vpn);
    if mid' == mid {
      var leaf, leaf' := LeafTable(t, vpn), LeafTable(t', vpn);
      assert leaf' == leaf || leaf' == c;
    } else {
      assert mid' == c && mid == -1;
      assert LeafTable(t', vpn) == -1;
    }
  }

  lemma HangSameMap(t: Tree, p: int, i: int, c: int)
    requires Slot(t, p, i) && c !in t.tables && c != -1 && -1 !in t.tables
    ensures FlatMap(Hang(t, p, i, c)) == FlatMap(t)
  {
    forall w | Vpn(w)
      ensures Translate(Hang(t, p, i, c), w) == Translate(t, w)
    {
      HangTranslates(t, p, i, c, w);
    }
  }

  // ---------------------------------------------------------------------------------
  // Storing a leaf entry

  function SetEntry(t: Tree, p: int, i: int, e: Pte): Tree
    requires p in t.tables && 0 <= i < |t.tables[p]|
  {
    t.(tables := t.tables[p := t.tables[p][i := e]])
  }

  lemma SetEntryParent(t: Tree, p: int, i: int, e: Pte, q: int)
    requires Wf(t) && p in t.tables && 0 <= i < ENTRIES && t.place[p].level == 0 && q in t.place
    ensures TablesOk(SetEntry(t, p, i, e)) && HangsOk(SetEntry(t, p, i, e), q)
  {
    assert HangsOk(t, q);
  }

  lemma SetEntryWf(t: Tree, p: int, i: int, e: Pte)
    requires Wf(t) && p in t.tables && 0 <= i < ENTRIES && t.place[p].level == 0 && (e.v ==> e.IsLeaf())
    ensures Wf(SetEntry(t, p, i, e))
  {
    var t' := SetEntry(t, p, i, e);
    forall q, j | q in t'.tables && 0 <= j < ENTRIES
      ensures EntryOk(t', q, j)
    {
      assert EntryOk(t, q, j);
    }
    forall q | q in t'.place
      ensures HangsOk(t', q)
    {
      SetEntryParent(t, p, i, e, q);
    }
  }

  /** Storing the entry walk returned for vpn changes that translation and no other. */
  lemma SetEntryTranslates(t: Tree, vpn: int, e: Pte, w: int)
    requires Wf(t) && Vpn(vpn) && Vpn(w) && -1 !in t.tables && LeafTable(t, vpn) != -1
    requires LeafTable(t, vpn) in t.tables
    ensures Translate(SetEntry(t, LeafTable(t, vpn), PX(0, vpn), e), w) ==
            if w == vpn then (if e.v then e else Zero) else Translate(t, w)
    ensures LeafTable(SetEntry(t, LeafTable(t, vpn), PX(0, vpn), e), w) == LeafTable(t, w)
  {
    PathPlaces(t, vpn);
    PathPlaces(t, w);
    var leaf := LeafTable(t, vpn);
    var t' := SetEntry(t, leaf, PX(0, vpn), e);
    assert Down(t', t.root, 2, w) == Down(t, t.root, 2, w);
    assert LeafTable(t', w) == LeafTable(t, w);
    if LeafTable(t, w) == leaf && w != vpn {
      assert PX(0, w) != PX(0, vpn);
    }
  }

  /** Storing through walk's result changes one entry of the flat map. */
  lemma SetEntryStored(t: Tree, vpn: int, e: Pte)
    requires Wf(t) && Vpn(vpn) && -1 !in t.tables && LeafTable(t, vpn) != -1 && LeafTable(t, vpn) in t.tables
    ensures FlatMap(SetEntry(t, LeafTable(t, vpn), PX(0, vpn), e)) == FlatMap(t)[vpn := if e.v then e else Zero]
  {
    forall w | Vpn(w)
      ensures Translate(SetEntry(t, LeafTable(t, vpn), PX(0, vpn), e), w) ==
              if w == vpn then (if e.v then e else Zero) else Translate(t, w)
    {
      SetEntryTranslates(t, vpn, e, w);
    }
  }

  // ---------------------------------------------------------------------------------
  // Flat maps

  type Flat = imap<int, Pte>

  /** Pages vpn .. vpn + n mapped to e.ppn onwards with the flags of e. */
  ghost function AddRange(f: Flat, vpn: int, n: nat, e: Pte): Flat {
    imap w | w in f :: if vpn <= w < vpn + n then e.(ppn := e.ppn + (w - vpn)) else f[w]
  }

  /** Pages vpn .. vpn + n unmapped. */
  ghost function DropRange(f: Flat, vpn: int, n: nat): Flat {
    imap w | w in f :: if vpn <= w < vpn + n then Zero else f[w]
  }

  /** The page mapped at vpn, if any. */
  ghost function PageAt(f: Flat, vpn: int): seq<int> {
    if vpn in f && f[vpn].v then [f[vpn].ppn] else []
  }

  /** The pages mapped in vpn .. vpn + n, in order: what uvmunmap passes to kfree. */
  ghost function PagesIn(f: Flat, vpn: int, n: nat): seq<int> {
    if n == 0 then [] else PagesIn(f, vpn, n - 1) + PageAt(f, vpn + n - 1)
  }

  lemma AddRangeStep(f: Flat, vpn: int, n: nat, e: Pte)
    requires vpn + n in f
    ensures AddRange(f, vpn, n + 1, e) == AddRange(f, vpn, n, e)[vpn + n := e.(ppn := e.ppn + n)]
  {
  }

  lemma DropRangeStep(f: Flat, vpn: int, n: nat)
    requires vpn + n in f
    ensures DropRange(f, vpn, n + 1) == DropRange(f, vpn, n)[vpn + n := Zero]
    ensures PageAt(DropRange(f, vpn, n), vpn + n) == PageAt(f, vpn + n)
  {
  }

  lemma DropRangeNone(f: Flat, vpn: int)
    ensures DropRange(f, vpn, 0) == f
  {
  }

  lemma AddRangeNone(f: Flat, vpn: int, e: Pte)
    ensures AddRange(f, vpn, 0, e) == f
  {
  }

  lemma PagesInStep(before: seq<int>, f: Flat, vpn: int, n: nat)
    ensures before + PagesIn(f, vpn, n) + PageAt(f, vpn + n) == before + PagesIn(f, vpn, n + 1)
  {
    assert PagesIn(f, vpn, n + 1) == PagesIn(f, vpn, n) + PageAt(f, vpn + n);
  }

  /** g is f with the given pages mapped from vpn on, with the flags of e. */
  ghost predicate Grown(f: Flat, g: Flat, vpn: int, pages: seq<int>, e: Pte) {
    && f.Keys == g.Keys
    && forall w :: w in f ==> g[w] == if vpn <= w < vpn + |pages| then e.(ppn := pages[w - vpn]) else f[w]
  }

  lemma GrownStep(f: Flat, g: Flat, vpn: int, pages: seq<int>, e: Pte, p: int)
    requires Grown(f, g, vpn, pages, e) && vpn + |pages| in f
    ensures Grown(f, g[vpn + |pages| := e.(ppn := p)], vpn, pages + [p], e)
  {
  }

  /** Unmapping what was added restores the map and yields the pages added. */
  lemma GrownUndone(f: Flat, g: Flat, vpn: int, pages: seq<int>, e: Pte)
    requires Grown(f, g, vpn, pages, e) && e.v
    requires forall w :: vpn <= w < vpn + |pages| ==> w in f && f[w] == Zero
    ensures DropRange(g, vpn, |pages|) == f
    ensures PagesIn(g, vpn, |pages|) == pages
  {
    GrownPages(f, g, vpn, pages, e, |pages|);
    assert pages[..|pages|] == pages;
  }

  lemma {:induction false} GrownPages(f: Flat, g: Flat, vpn: int, pages: seq<int>, e: Pte, n: nat)
    requires Grown(f, g, vpn, pages, e) && e.v && n <= |pages|
    requires forall w :: vpn <= w < vpn + |pages| ==> w in f
    ensures PagesIn(g, vpn, n) == pages[..n]
  {
    if n > 0 {
      GrownPages(f, g, vpn, pages, e, n - 1);
      assert pages[..n] == pages[..n - 1] + [pages[n - 1]];
      assert vpn + n - 1 in f;
    }
  }

  // ---------------------------------------------------------------------------------
  // The tables below a table

  function Lift(prefix: int, d: int): int {
    if d == 0 then prefix else if d == 1 then prefix / ENTRIES else prefix / (ENTRIES * ENTRIES)
  }

  /** A table at place b lies at or below a table at place a. */
  predicate Covers(a: Place, b: Place) {
    b.level <= a.level && Lift(b.prefix, a.level - b.level) == a.prefix
  }

  function Under(t: Tree, p: int): set<int>
    requires p in t.place
  {
    set q | q in t.place && Covers(t.place[p], t.place[q])
  }

  predicate BranchAt(t: Tree, p: int, i: int)
    requires Wf(t)
  {
    p in t.tables && t.place[p].level > 0 && 0 <= i < ENTRIES && t.tables[p][i].v
  }

  /** The table an entry points to, and what lies below it. */
  lemma ChildPlace(t: Tree, p: int, i: int)
    requires Wf(t) && BranchAt(t, p, i)
    ensures var c := t.tables[p][i].ppn;
            && c in t.place && t.place[c] == Place(t.place[p].level - 1, t.place[p].prefix * ENTRIES + i, p)
            && !t.tables[p][i].IsLeaf()
  {
    assert EntryOk(t, p, i);
  }

  lemma LiftChild(x: int, i: int, y: int, d: int)
    requires 0 <= i < ENTRIES && 0 <= x && 0 <= y && 0 <= d <= 1 && Lift(y, d) == x * ENTRIES + i
    ensures Lift(y, d + 1) == x && Lift(y, d) % ENTRIES == i
  {
  }

  lemma UnderChild(t: Tree, p: int, i: int, q: int)
    requires Wf(t) && BranchAt(t, p, i) && t.tables[p][i].ppn in t.place && q in Under(t, t.tables[p][i].ppn)
    ensures q in Under(t, p) && q != p && t.place[q].level < t.place[p].level
    ensures Lift(t.place[q].prefix, t.place[p].level - 1 - t.place[q].level) % ENTRIES == i
  {
    ChildPlace(t, p, i);
    var here, there := t.place[p], t.place[q];
    LiftChild(here.prefix, i, there.prefix, here.level - 1 - there.level);
  }

  /** Everything strictly below p lies below one of its valid entries. */
  lemma UnderSplit(t: Tree, p: int, q: int) returns (i: int)
    requires Wf(t) && p in t.place && q in Under(t, p) && t.place[q].level < t.place[p].level
    ensures i == Index(t, p, q) && BranchAt(t, p, i)
    ensures t.tables[p][i].ppn in t.place && q in Under(t, t.tables[p][i].ppn)
  {
    var here, there := t.place[p], t.place[q];
    assert HangsOk(t, q);
    i := Index(t, p, q);
    if there.level == here.level - 1 {
      assert there.parent == p;
    } else {
      var mid := there.parent;
      assert HangsOk(t, mid);
      assert t.place[mid].prefix / ENTRIES == here.prefix;
      assert t.place[mid].parent == p;
    }
    ChildPlace(t, p, i);
  }

  /** The entry of p through which q is reached. */
  function Index(t: Tree, p: int, q: int): int
    requires p in t.place && q in t.place
  {
    Lift(t.place[q].prefix, t.place[p].level - 1 - t.place[q].level) % ENTRIES
  }

  /** The tables strictly below p reached through entries before i. */
  function Below(t: Tree, p: int, i: int): set<int>
    requires p in t.place
  {
    set q | q in t.place && t.place[q].level < t.place[p].level && Covers(t.place[p], t.place[q]) && Index(t, p, q) < i
  }

  lemma BelowStep(t: Tree, p: int, i: int)
    requires Wf(t) && BranchAt(t, p, i) && t.tables[p][i].ppn in t.place
    ensures Below(t, p, i + 1) == Below(t, p, i) + Under(t, t.tables[p][i].ppn)
    ensures Below(t, p, i) !! Under(t, t.tables[p][i].ppn)
  {
    forall q | q in Under(t, t.tables[p][i].ppn)
      ensures q in Below(t, p, i + 1) && q !in Below(t, p, i)
    {
      UnderChild(t, p, i, q);
    }
    forall q | q in Below(t, p, i + 1) && q !in Below(t, p, i)
      ensures q in Under(t, t.tables[p][i].ppn)
    {
      var j := UnderSplit(t, p, q);
    }
  }

  lemma BelowSkip(t: Tree, p: int, i: int)
    requires Wf(t) && p in t.place && 0 <= i < ENTRIES && !(t.place[p].level > 0 && t.tables[p][i].v)
    ensures Below(t, p, i + 1) == Below(t, p, i)
  {
    forall q | q in Below(t, p, i + 1)
      ensures q in Below(t, p, i)
    {
      var j := UnderSplit(t, p, q);
    }
  }

  lemma BelowAll(t: Tree, p: int)
    requires Wf(t) && p in t.place
    ensures p in t.tables && |t.tables[p]| == ENTRIES && 0 <= t.place[p].level
    ensures Below(t, p, 0) == {} && Under(t, p) == Below(t, p, ENTRIES) + {p} && p !in Below(t, p, ENTRIES)
  {
    forall q | q in Under(t, p) && q != p
      ensures q in Below(t, p, ENTRIES)
    {
      assert t.place[q].level != t.place[p].level;
    }
  }

  /** The root is above everything. */
  lemma UnderRoot(t: Tree)
    requires Wf(t)
    ensures Under(t, t.root) == t.tables.Keys
  {
    forall q | q in t.place
      ensures q in Under(t, t.root)
    {
      assert HangsOk(t, q);
    }
  }

  // ---------------------------------------------------------------------------------
  // Leaves

  /** No level-0 entry is valid: what freewalk demands of its caller. */
  predicate NoLeaves(t: Tree)
    requires TablesOk(t)
  {
    forall p, i :: p in t.tables && t.place[p].level == 0 && 0 <= i < ENTRIES ==> !t.tables[p][i].v
  }

  lemma NoLeafEntry(t: Tree, p: int, i: int)
    requires Wf(t) && NoLeaves(t) && p in t.tables && 0 <= i < ENTRIES
    ensures !(t.tables[p][i].v && t.tables[p][i].IsLeaf())
  {
    assert EntryOk(t, p, i);
  }

  /** Every level-0 entry is the translation of some page below MAXVA. */
  lemma LeafTranslates(t: Tree, p: int, i: int)
    requires Wf(t) && p in t.tables && t.place[p].level == 0 && 0 <= i < ENTRIES
    ensures Vpn(t.place[p].prefix * ENTRIES + i)
    ensures t.tables[p][i].v ==> Translate(t, t.place[p].prefix * ENTRIES + i) == t.tables[p][i]
  {
    var vpn, mid := t.place[p].prefix * ENTRIES + i, t.place[p].parent;
    assert HangsOk(t, p) && HangsOk(t, mid);
    assert t.place[mid].parent == t.root;
    Digits(t.place[p].prefix, i);
  }

  lemma Digits(x: int, i: int)
    requires 0 <= i < ENTRIES && 0 <= x < PrefixBound(0)
    ensures var vpn := x * ENTRIES + i;
            PX(0, vpn) == i && PX(1, vpn) == x % ENTRIES && PX(2, vpn) == x / ENTRIES && Vpn(vpn)
  {
  }

  lemma UnmappedHasNoLeaves(t: Tree)
    requires Wf(t) && forall w :: w in FlatMap(t) ==> !FlatMap(t)[w].v
    ensures NoLeaves(t)
  {
    forall p, i | p in t.tables && t.place[p].level == 0 && 0 <= i < ENTRIES
      ensures !t.tables[p][i].v
    {
      LeafTranslates(t, p, i);
      assert t.place[p].prefix * ENTRIES + i in FlatMap(t);
    }
  }
}
