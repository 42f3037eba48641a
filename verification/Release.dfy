/** Giving a template's memory back: every node and cell once. */
module TplRelease {
  import opened TplNames
  import opened TplDocument
  import opened TplHeap
  import opened TplFrames
  import opened TplAccount
  import opened TplChains
  import opened TplFields

  // ----- what a template owns -----

  lemma {:induction false} MainDistinct(t: Template, w: set<object>)
    requires t.MainOk(w)
    ensures Distinct(t.v.nodes)
  {
    forall i, j | 0 <= i < j < |t.v.nodes|
      ensures t.v.nodes[i] != t.v.nodes[j]
    {
      assert t.MainNodeOk(w, i) && t.MainNodeOk(w, j);
    }
  }

  method ReleaseNodes(t: Template, ghost w: set<object>, ghost freed: set<object>) returns (ghost freed': set<object>)
    requires t in w && t.MainOk(w) && (forall n | n in t.v.nodes :: n !in freed)
    modifies t`head
    ensures t.head == null && freed' == freed + set n | n in t.v.nodes
  {
    freed' := freed;
    ghost var j: nat := 0;
    MainDistinct(t, w);
    while t.head != null
      invariant j <= |t.v.nodes| && t.head == NodeAt(t.v.nodes, j)
      invariant freed' == freed + set n | n in t.v.nodes[..j]
      decreases |t.v.nodes| - j
    {
      assert old(t.MainNodeOk(w, j));
      TakeNext(t.v.nodes, j);
      var deleted := t.head;
      t.head := t.head.next;
      freed' := Destroy(deleted, freed');
      j := j + 1;
    }
    assert t.v.nodes[..j] == t.v.nodes;
  }

  method ReleaseAdded(t: Template, ghost w: set<object>, ghost freed: set<object>) returns (ghost freed': set<object>)
    requires t in w && t.AddedOk(w) && (forall n | n in t.v.addedNodes :: n !in freed)
    modifies t`addedHead
    ensures t.addedHead == null && freed' == freed + set n | n in t.v.addedNodes
  {
    freed' := freed;
    ghost var j: nat := 0;
    AddedDistinct(t, w);
    while t.addedHead != null
      invariant j <= |t.v.addedNodes| && t.addedHead == NodeAt(t.v.addedNodes, j)
      invariant freed' == freed + set n | n in t.v.addedNodes[..j]
      decreases |t.v.addedNodes| - j
    {
      assert old(t.AddedNodeOk(w, j));
      TakeNext(t.v.addedNodes, j);
      var deleted := t.addedHead;
      t.addedHead := t.addedHead.next;
      freed' := Destroy(deleted, freed');
      j := j + 1;
    }
    assert t.v.addedNodes[..j] == t.v.addedNodes;
  }

  /** The cells of the buckets below `h`, and those of bucket `h` before position `j`. */
  ghost function FiledTo(cells: seq<FieldCell>, keys: seq<Key>, h: nat, j: nat): set<object>
    requires |cells| == |keys|
  {
    set k | 0 <= k < |cells| && (keys[k].bucket < h || (keys[k].bucket == h && k < j)) :: cells[k]
  }

  lemma {:induction false} FiledOne(cells: seq<FieldCell>, keys: seq<Key>, h: nat, j: nat)
    requires |cells| == |keys| && j < |keys| && keys[j].bucket == h && Distinct(cells)
    ensures cells[j] !in FiledTo(cells, keys, h, j)
    ensures FiledTo(cells, keys, h, NextInBucket(keys, h, j + 1)) == FiledTo(cells, keys, h, j) + {cells[j]}
  {
    var next := NextInBucket(keys, h, j + 1);
    forall x | x in FiledTo(cells, keys, h, next)
      ensures x in FiledTo(cells, keys, h, j) + {cells[j]}
    {
    }
    assert cells[j] in FiledTo(cells, keys, h, next);
  }

  lemma {:induction false} FiledEnds(cells: seq<FieldCell>, keys: seq<Key>, h: nat)
    requires |cells| == |keys|
    ensures FiledTo(cells, keys, h, NextInBucket(keys, h, 0)) == FiledTo(cells, keys, h, 0)
    ensures FiledTo(cells, keys, h, |keys|) == FiledTo(cells, keys, h + 1, 0)
  {
  }

  method ReleaseBucket(t: Template, h: nat, ghost w: set<object>, ghost base: set<object>, ghost freed: set<object>)
    returns (ghost freed': set<object>)
    requires t.FieldsOk(w) && h < HASH_TABLE_SIZE && (forall c | c in t.v.fcells :: c !in base)
    requires freed == base + FiledTo(t.v.fcells, t.v.sec.keys, h, 0)
    ensures freed' == base + FiledTo(t.v.fcells, t.v.sec.keys, h + 1, 0)
  {
    freed' := freed;
    assert t.FieldBucketOk(h);
    FieldsDistinct(t, w);
    FiledEnds(t.v.fcells, t.v.sec.keys, h);
    var fc := t.fields[h];
    ghost var j: nat := NextInBucket(t.v.sec.keys, h, 0);
    while fc != null
      invariant j <= |t.v.fcells| && fc == FieldAt(t.v.fcells, j)
      invariant fc != null ==> t.v.sec.keys[j].bucket == h
      invariant freed' == base + FiledTo(t.v.fcells, t.v.sec.keys, h, j)
      decreases |t.v.fcells| - j
    {
      assert t.FieldCellOk(w, j);
      FiledOne(t.v.fcells, t.v.sec.keys, h, j);
      var deleted := fc;
      fc := fc.next;
      freed' := Destroy(deleted, freed');
      j := NextInBucket(t.v.sec.keys, h, j + 1);
    }
  }

  method ReleaseFields(t: Template, ghost w: set<object>, ghost freed: set<object>) returns (ghost freed': set<object>)
    requires t.FieldsOk(w) && (forall c | c in t.v.fcells :: c !in freed)
    ensures freed' == freed + set c | c in t.v.fcells
  {
    freed' := freed;
    for i := 0 to HASH_TABLE_SIZE
      invariant freed' == freed + FiledTo(t.v.fcells, t.v.sec.keys, i, 0)
    {
      freed' := ReleaseBucket(t, i, w, freed, freed');
    }
    FiledAll(t, w);
  }

  lemma {:induction false} FiledAll(t: Template, w: set<object>)
    requires t.FieldsOk(w)
    ensures FiledTo(t.v.fcells, t.v.sec.keys, HASH_TABLE_SIZE, 0) == set c | c in t.v.fcells
  {
    forall k | 0 <= k < |t.v.fcells|
      ensures t.v.sec.keys[k].bucket < HASH_TABLE_SIZE && t.v.fcells[k] in FiledTo(t.v.fcells, t.v.sec.keys, HASH_TABLE_SIZE, 0)
    {
      assert t.FieldCellOk(w, k);
    }
  }

  /** The first half of tpl_release: everything but the sections. */
  method ReleaseChains(t: Template, ghost w: set<object>, ghost freed: set<object>) returns (ghost freed': set<object>)
    requires t in w && t.MainOk(w) && t.AddedOk(w) && t.FieldsOk(w) && Chain(t) !! freed
    modifies t`head, t`addedHead
    ensures t.head == null && t.addedHead == null && freed' == freed + Chain(t)
  {
    ChainsApart(t, w);
    freed' := ReleaseNodes(t, w, freed);
    AddedWiden(t, w, w);
    freed' := ReleaseAdded(t, w, freed');
    FieldsWiden(t, w, w);
    freed' := ReleaseFields(t, w, freed');
  }

  // ----- the records of a whole subtree -----

  ghost function Estate(d: Dom): map<Path, set<object>>
    reads d.st.Values
  {
    map q | q in d.st :: Owned(d.st[q])
  }

  /** No two records at or below `p` share a block. */
  ghost predicate Apart(e: map<Path, set<object>>, p: Path) {
    forall q, r | q in e && r in e && p <= q && p <= r && q != r :: e[q] !! e[r]
  }

  /** Everything owned at or below `p`. */
  ghost function Below(e: map<Path, set<object>>, p: Path): set<object> {
    set q, o | q in e && p <= q && o in e[q] :: o
  }

  /** The part of it given back when `k` children are done. */
  ghost function DoneBelow(e: map<Path, set<object>>, p: Path, chain: set<object>, cells: seq<SectionCell>, k: nat): set<object>
    requires k <= |cells|
  {
    chain + (set c | c in cells[..k]) + set q, o | q in e && p < q && q[|p|] < k && o in e[q] :: o
  }

  lemma {:induction false} EstateApart(d: Dom, p: Path)
    requires Tree(d) && forall q {:trigger Local(d, q)} | q in d.st && p <= q :: Local(d, q)
    ensures Apart(Estate(d), p)
  {
    var e := Estate(d);
    forall q, r | q in e && r in e && p <= q && p <= r && q != r
      ensures e[q] !! e[r]
    {
      OwnedBelongs(d, q);
      OwnedBelongs(d, r);
      assert d.st[q].v.path == q && d.st[r].v.path == r;
    }
  }

  lemma {:induction false} CellsApart(t: Template, w: set<object>)
    requires t.MainOk(w) && t.AddedOk(w) && t.FieldsOk(w) && t.SectionsOk(w)
    ensures Distinct(t.v.scells) && forall c | c in t.v.scells :: c !in Chain(t)
  {
    forall i, j | 0 <= i < j < |t.v.scells|
      ensures t.v.scells[i] != t.v.scells[j]
    {
      assert t.SectionCellOk(w, i) && t.SectionCellOk(w, j);
    }
  }

  lemma {:induction false} NotYet(e: map<Path, set<object>>, p: Path, chain: set<object>, cells: seq<SectionCell>, k: nat)
    requires p in e && Apart(e, p) && e[p] == chain + set c | c in cells
    requires Distinct(cells) && (forall c | c in cells :: c !in chain) && k < |cells|
    ensures Below(e, Child(p, k)) !! DoneBelow(e, p, chain, cells, k)
    ensures cells[k] !in Below(e, Child(p, k)) + DoneBelow(e, p, chain, cells, k)
  {
    var c := Child(p, k);
    forall o | o in Below(e, c)
      ensures o !in e[p] && o !in DoneBelow(e, p, chain, cells, k)
    {
      var q :| q in e && c <= q && o in e[q];
      assert p < q && q[|p|] == k;
      assert forall r | r in e && p < r && r[|p|] < k :: o !in e[r];
    }
    assert cells[k] in e[p];
    TakeNext(cells, k);
    assert forall r | r in e && p < r :: cells[k] !in e[r];
  }

  lemma {:induction false} DoneGrows(e: map<Path, set<object>>, p: Path, chain: set<object>, cells: seq<SectionCell>, k: nat)
    requires k < |cells|
    ensures DoneBelow(e, p, chain, cells, k + 1) == DoneBelow(e, p, chain, cells, k) + Below(e, Child(p, k)) + {cells[k]}
  {
    assert cells[..k + 1] == cells[..k] + [cells[k]];
    forall q | q in e && p < q && q[|p|] == k
      ensures Child(p, k) <= q
    {
    }
    forall q | q in e && Child(p, k) <= q
      ensures p < q && q[|p|] == k
    {
    }
  }

  lemma {:induction false} DoneAll(d: Dom, p: Path)
    requires Tree(d) && p in d.st && |d.root| <= |p|
    ensures DoneBelow(Estate(d), p, Chain(d.st[p]), d.st[p].v.scells, |d.st[p].v.scells|) == Below(Estate(d), p)
  {
    var e, cells := Estate(d), d.st[p].v.scells;
    forall q | q in e && p < q
      ensures q[|p|] < |cells|
    {
      ChildOf(d, p, q);
    }
    assert cells[..|cells|] == cells;
    var done := DoneBelow(e, p, Chain(d.st[p]), cells, |cells|);
    assert e[p] == Chain(d.st[p]) + set c | c in cells;
    forall o | o in Below(e, p)
      ensures o in done
    {
      var q :| q in e && p <= q && o in e[q];
      assert q != p ==> p < q;
    }
  }

  // ----- releasing -----

  ghost function Records(d: Dom, p: Path): set<Template> {
    set q | q in d.st && p <= q :: d.st[q]
  }

  ghost predicate Emptied(t: Template)
    reads t
  {
    t.head == null && t.addedHead == null && t.first == null
  }

  twostate lemma {:induction false} LocalsKept(d: Dom, new ts: set<Template>, new qs: set<Path>)
    requires old(Tree(d)) && Spares(d.world, ts) && qs <= d.st.Keys && forall q {:trigger d.st[q]} | q in qs :: d.st[q] !in ts
    requires forall q {:trigger old(Local(d, q))} | q in qs :: old(Local(d, q))
    ensures forall q {:trigger Local(d, q)} | q in qs :: Local(d, q)
  {
    forall q | q in qs
      ensures Local(d, q)
    {
      assert q in d.st;
      assert d.st[q] in d.world && old(Local(d, q));
      LocalKept(d, d, ts, q);
    }
  }

  /** The sections below the children of `p` from the k-th on. */
  ghost function Beyond(d: Dom, p: Path, k: nat): set<Path> {
    set q | q in d.st && p < q && q[|p|] >= k
  }

  ghost predicate CellAt(d: Dom, p: Path, cells: seq<SectionCell>, x: nat)
    reads d.world
  {
    && x < |cells| && cells[x] in d.world && cells[x].next == SectionAt(cells, x + 1)
    && Child(p, x) in d.st && cells[x].tpl == d.st[Child(p, x)]
  }

  lemma {:induction false} CellsAt(d: Dom, p: Path)
    requires p in d.st && Local(d, p)
    ensures forall x {:trigger CellAt(d, p, d.st[p].v.scells, x)} | 0 <= x < |d.st[p].v.scells| :: CellAt(d, p, d.st[p].v.scells, x)
  {
    forall x | 0 <= x < |d.st[p].v.scells|
      ensures CellAt(d, p, d.st[p].v.scells, x)
    {
      assert d.st[p].SectionCellOk(d.world, x);
      assert Child(p, x) in d.st;
    }
  }

  /** What releasing does not touch: who owns what, and how the section cells are linked. */
  ghost predicate Fixed(d: Dom, p: Path, e: map<Path, set<object>>, chain: set<object>, cells: seq<SectionCell>)
    reads d.world, d.st.Values
  {
    && Tree(d) && p in d.st && |d.root| <= |p| && d.st[p].v.scells == cells && Chain(d.st[p]) == chain && Estate(d) == e
    && (forall x {:trigger CellAt(d, p, cells, x)} | 0 <= x < |cells| :: CellAt(d, p, cells, x))
  }

  twostate predicate SameRest(t: Template)
    reads t
  {
    t.v == old(t.v)
  }

  /** Only the pointers to the first node, appended node and section of some records changed. */
  twostate predicate OnlyHeads(w: set<object>)
    reads w
  {
    && (forall t: Template {:trigger SameRest(t)} | t in w :: SameRest(t))
    && (forall c: SectionCell {:trigger SameSection(c)} | c in w :: SameSection(c))
  }

  twostate lemma {:induction false} RestOwned(t: Template)
    requires SameRest(t)
    ensures Owned(t) == old(Owned(t)) && Chain(t) == old(Chain(t))
  {
  }

  twostate lemma {:induction false} NextSame(c: SectionCell)
    requires SameSection(c)
    ensures c.next == old(c.next)
  {
  }

  twostate lemma {:induction false} FixedKept(d: Dom, new p: Path, new e: map<Path, set<object>>, new chain: set<object>, new cells: seq<SectionCell>)
    requires old(allocated(e) && allocated(chain) && allocated(cells)) && old(Fixed(d, p, e, chain, cells)) && OnlyHeads(d.world)
    ensures Fixed(d, p, e, chain, cells)
  {
    hide Owned, Chain, Local, SameSection;
    forall q | q in d.st
      ensures SameRest(d.st[q]) && Owned(d.st[q]) == old(Owned(d.st[q])) && Chain(d.st[q]) == old(Chain(d.st[q]))
    {
      assert d.st[q] in d.world;
      RestOwned(d.st[q]);
    }
    forall q | q in d.st && q != d.root && q != []
      ensures Up(q) in d.st && q[|q| - 1] < |d.st[Up(q)].v.scells|
    {
      assert SameRest(d.st[Up(q)]);
    }
    forall x | 0 <= x < |cells|
      ensures CellAt(d, p, cells, x)
    {
      assert old(CellAt(d, p, cells, x)) && SameSection(cells[x]);
      NextSame(cells[x]);
    }
  }

  // ----- releasing -----

  /** The sections below the first `k` children of `p` are emptied. */
  ghost predicate EmptiedTo(d: Dom, p: Path, k: nat)
    reads d.st.Values
  {
    forall q {:trigger Emptied(d.st[q])} | q in d.st && p < q && q[|p|] < k :: Emptied(d.st[q])
  }

  /** Those below the others are as they were. */
  ghost predicate LocalFrom(d: Dom, p: Path, k: nat)
    reads d.world
  {
    forall q {:trigger Local(d, q)} | q in Beyond(d, p, k) :: Local(d, q)
  }

  lemma {:induction false} ChainBelow(d: Dom, p: Path)
    requires p in d.st
    ensures Chain(d.st[p]) <= Below(Estate(d), p)
  {
    assert Chain(d.st[p]) <= Estate(d)[p];
  }

  method ReleaseOwn(t: Template, ghost d: Dom, ghost p: Path, ghost freed: set<object>) returns (ghost freed': set<object>)
    requires Tree(d) && p in d.st && d.st[p] == t && |d.root| <= |p|
    requires forall q {:trigger Local(d, q)} | q in d.st && p <= q :: Local(d, q)
    requires Below(Estate(d), p) !! freed
    modifies t`head, t`addedHead
    ensures Fixed(d, p, old(Estate(d)), old(Chain(t)), old(t.v.scells)) && LocalFrom(d, p, 0)
    ensures t.first == SectionAt(t.v.scells, 0) && t.head == null && t.addedHead == null
    ensures freed' == freed + old(Chain(t))
  {
    hide Spares, Chain, Estate, Below, CellAt;
    assert Local(d, p);
    CellsAt(d, p);
    ChainBelow(d, p);
    freed' := ReleaseChains(t, d.world, freed);
    FixedKept(d, p, old(Estate(d)), old(Chain(t)), old(t.v.scells));
    SparesOne(d, t);
    LocalsKept(d, {t}, Beyond(d, p, 0));
  }

  method UnlinkFirst(t: Template, ghost d: Dom, ghost p: Path, ghost e: map<Path, set<object>>, ghost chain: set<object>,
                     ghost cells: seq<SectionCell>, ghost k: nat)
    returns (deleted: SectionCell)
    requires Fixed(d, p, e, chain, cells) && d.st[p] == t && k < |cells|
    requires t.first == cells[k] && t.head == null && t.addedHead == null
    requires LocalFrom(d, p, k) && EmptiedTo(d, p, k)
    modifies t`first
    ensures deleted == cells[k] && CellAt(d, p, cells, k) && deleted.tpl == d.st[Child(p, k)]
    ensures Fixed(d, p, e, chain, cells)
    ensures t.first == SectionAt(cells, k + 1) && t.head == null && t.addedHead == null
    ensures LocalFrom(d, p, k) && EmptiedTo(d, p, k)
  {
    assert CellAt(d, p, cells, k);
    deleted := t.first;
    t.first := t.first.next;
    SparesOne(d, t);
    LocalsKept(d, {t}, Beyond(d, p, k));
    FixedKept(d, p, e, chain, cells);
    assert CellAt(d, p, cells, k);
  }

  /** Releasing one child leaves the later ones as they are. */
  twostate lemma {:induction false} LaterKept(d: Dom, new p: Path, new k: nat)
    requires old(Tree(d)) && Tree(d) && old(LocalFrom(d, p, k)) && Spares(d.world, Records(d, Child(p, k)))
    ensures LocalFrom(d, p, k + 1)
  {
    var c := Child(p, k);
    forall q | q in Beyond(d, p, k + 1)
      ensures d.st[q] !in Records(d, c)
    {
      assert !(c <= q);
      assert d.st[q].v.path == q;
    }
    assert Beyond(d, p, k + 1) <= Beyond(d, p, k);
    LocalsKept(d, Records(d, c), Beyond(d, p, k + 1));
  }

  /** One turn of its loop over the sections. */
  method ReleaseFirst(t: Template, ghost d: Dom, ghost p: Path, ghost freed: set<object>,
                      ghost e: map<Path, set<object>>, ghost chain: set<object>, ghost cells: seq<SectionCell>, ghost k: nat)
    returns (ghost freed': set<object>)
    requires Fixed(d, p, e, chain, cells) && d.st[p] == t && k < |cells|
    requires t.first == cells[k] && t.head == null && t.addedHead == null
    requires LocalFrom(d, p, k) && EmptiedTo(d, p, k)
    requires Below(e, Child(p, k)) !! freed && cells[k] !in freed + Below(e, Child(p, k))
    modifies Records(d, p)`head, Records(d, p)`addedHead, Records(d, p)`first
    ensures Fixed(d, p, e, chain, cells)
    ensures t.first == SectionAt(cells, k + 1) && t.head == null && t.addedHead == null
    ensures LocalFrom(d, p, k + 1) && EmptiedTo(d, p, k + 1)
    ensures freed' == freed + Below(e, Child(p, k)) + {cells[k]}
    decreases Under(d.st.Keys, p), 0
  {
    UnderShrinks(d.st.Keys, p, k);
    var deleted := UnlinkFirst(t, d, p, e, chain, cells, k);
    freed' := ReleaseChild(deleted.tpl, d, p, freed, e, chain, cells, k);
    freed' := Destroy(deleted, freed');
  }

  lemma {:induction false} ChildReady(d: Dom, p: Path, e: map<Path, set<object>>, chain: set<object>, cells: seq<SectionCell>, k: nat)
    requires Fixed(d, p, e, chain, cells) && k < |cells| && Child(p, k) in d.st && LocalFrom(d, p, k)
    ensures Tree(d) && |d.root| <= |Child(p, k)| && Estate(d) == e
    ensures forall q {:trigger Local(d, q)} | q in d.st && Child(p, k) <= q :: Local(d, q)
  {
    hide Local, CellAt, Estate;
    forall q | q in d.st && Child(p, k) <= q
      ensures Local(d, q)
    {
      assert p < q && q[|p|] == k;
      assert q in Beyond(d, p, k);
    }
  }

  twostate lemma {:induction false} EmptiedMore(d: Dom, new p: Path, new k: nat)
    requires Tree(d) && old(Tree(d)) && old(EmptiedTo(d, p, k)) && Spares(d.world, Records(d, Child(p, k)))
    requires forall q {:trigger Emptied(d.st[q])} | q in d.st && Child(p, k) <= q :: Emptied(d.st[q])
    ensures EmptiedTo(d, p, k + 1)
  {
    var c := Child(p, k);
    forall q | q in d.st && p < q && q[|p|] < k + 1
      ensures Emptied(d.st[q])
    {
      if q[|p|] == k {
        assert c <= q;
      } else {
        assert old(Emptied(d.st[q])) && d.st[q] in d.world;
        forall r | r in d.st && c <= r
          ensures d.st[r] != d.st[q]
        {
          assert d.st[r].v.path == r && d.st[q].v.path == q;
        }
        assert SameTemplate(d.st[q]);
      }
    }
  }

  method ReleaseChild(child: Template, ghost d: Dom, ghost p: Path, ghost freed: set<object>,
                      ghost e: map<Path, set<object>>, ghost chain: set<object>, ghost cells: seq<SectionCell>, ghost k: nat)
    returns (ghost freed': set<object>)
    requires Fixed(d, p, e, chain, cells) && k < |cells| && Child(p, k) in d.st && child == d.st[Child(p, k)]
    requires LocalFrom(d, p, k) && EmptiedTo(d, p, k)
    requires Below(e, Child(p, k)) !! freed
    modifies Records(d, Child(p, k))`head, Records(d, Child(p, k))`addedHead, Records(d, Child(p, k))`first
    ensures Fixed(d, p, e, chain, cells) && LocalFrom(d, p, k + 1) && EmptiedTo(d, p, k + 1)
    ensures freed' == freed + Below(e, Child(p, k))
    decreases Under(d.st.Keys, Child(p, k)), 3
  {
    hide Local, CellAt, Owned, Chain, Fixed, LocalFrom, EmptiedTo, Estate, Below, Emptied, Tree, Spares;
    ChildReady(d, p, e, chain, cells, k);
    freed' := Release(child, d, Child(p, k), freed);
    FixedKept(d, p, e, chain, cells);
    SparesRecords(d, Child(p, k));
    FixedTree(d, p, e, chain, cells);
    LaterKept(d, p, k);
    EmptiedMore(d, p, k);
  }

  lemma {:induction false} FixedTree(d: Dom, p: Path, e: map<Path, set<object>>, chain: set<object>, cells: seq<SectionCell>)
    requires Fixed(d, p, e, chain, cells)
    ensures Tree(d)
  {
  }

  twostate lemma {:induction false} SparesRecords(d: Dom, new p: Path)
    requires forall o: object | o in d.world && o !in Records(d, p) :: unchanged(o)
    ensures Spares(d.world, Records(d, p))
  {
  }

  /** tpl_release, called on the section `p`: every node and cell at and below it is given back once. */
  method Release(t: Template, ghost d: Dom, ghost p: Path, ghost freed: set<object>) returns (ghost freed': set<object>)
    requires Tree(d) && p in d.st && d.st[p] == t && |d.root| <= |p|
    requires forall q {:trigger Local(d, q)} | q in d.st && p <= q :: Local(d, q)
    requires Below(Estate(d), p) !! freed
    modifies Records(d, p)`head, Records(d, p)`addedHead, Records(d, p)`first
    ensures forall q {:trigger Emptied(d.st[q])} | q in d.st && p <= q :: Emptied(d.st[q])
    ensures freed' == freed + Below(old(Estate(d)), p)
    decreases Under(d.st.Keys, p), 2
  {
    ghost var e, chain, cells := Estate(d), Chain(t), t.v.scells;
    assert Local(d, p);
    EstateApart(d, p);
    CellsApart(t, d.world);
    freed' := ReleaseOwn(t, d, p, freed);
    DoneStarts(e, p, chain, cells);
    freed' := ReleaseSections(t, d, p, freed, freed', e, chain, cells);
    DoneAll(d, p);
    AllEmptied(d, p);
  }

  method ReleaseSections(t: Template, ghost d: Dom, ghost p: Path, ghost base: set<object>, ghost freed: set<object>,
                         ghost e: map<Path, set<object>>, ghost chain: set<object>, ghost cells: seq<SectionCell>)
    returns (ghost freed': set<object>)
    requires Fixed(d, p, e, chain, cells) && d.st[p] == t && LocalFrom(d, p, 0)
    requires t.first == SectionAt(cells, 0) && t.head == null && t.addedHead == null
    requires Ready(e, p, chain, cells) && Below(e, p) !! base && freed == base + DoneBelow(e, p, chain, cells, 0)
    modifies Records(d, p)`head, Records(d, p)`addedHead, Records(d, p)`first
    ensures Fixed(d, p, e, chain, cells) && Emptied(t) && EmptiedTo(d, p, |cells|)
    ensures freed' == base + DoneBelow(e, p, chain, cells, |cells|)
    decreases Under(d.st.Keys, p), 1
  {
    hide Below, DoneBelow, Fixed, LocalFrom, Ready;
    freed' := freed;
    ghost var k: nat := 0;
    while t.first != null
      invariant Fixed(d, p, e, chain, cells) && k <= |cells|
      invariant t.first == SectionAt(cells, k) && t.head == null && t.addedHead == null
      invariant LocalFrom(d, p, k) && EmptiedTo(d, p, k)
      invariant freed' == base + DoneBelow(e, p, chain, cells, k)
      decreases |cells| - k
    {
      Proceeds(e, p, chain, cells, k, base);
      freed' := ReleaseFirst(t, d, p, freed', e, chain, cells, k);
      k := k + 1;
    }
  }

  /** The records and blocks of `p`, as far as they matter for giving each back once. */
  ghost predicate Ready(e: map<Path, set<object>>, p: Path, chain: set<object>, cells: seq<SectionCell>) {
    p in e && Apart(e, p) && e[p] == chain + (set c | c in cells) && Distinct(cells) && forall c | c in cells :: c !in chain
  }

  lemma {:induction false} DoneStarts(e: map<Path, set<object>>, p: Path, chain: set<object>, cells: seq<SectionCell>)
    ensures DoneBelow(e, p, chain, cells, 0) == chain
  {
  }

  lemma {:induction false} Proceeds(e: map<Path, set<object>>, p: Path, chain: set<object>, cells: seq<SectionCell>, k: nat, base: set<object>)
    requires Ready(e, p, chain, cells) && k < |cells| && Below(e, p) !! base
    ensures var freed := base + DoneBelow(e, p, chain, cells, k);
            && Below(e, Child(p, k)) !! freed && cells[k] !in freed + Below(e, Child(p, k))
            && freed + Below(e, Child(p, k)) + {cells[k]} == base + DoneBelow(e, p, chain, cells, k + 1)
  {
    NotYet(e, p, chain, cells, k);
    DoneGrows(e, p, chain, cells, k);
    assert cells[k] in e[p];
    assert Below(e, Child(p, k)) <= Below(e, p);
  }

  lemma {:induction false} AllEmptied(d: Dom, p: Path)
    requires Tree(d) && p in d.st && |d.root| <= |p| && Emptied(d.st[p]) && EmptiedTo(d, p, |d.st[p].v.scells|)
    ensures forall q {:trigger Emptied(d.st[q])} | q in d.st && p <= q :: Emptied(d.st[q])
  {
    forall q | q in d.st && p <= q
      ensures Emptied(d.st[q])
    {
      if q != p {
        ChildOf(d, p, q);
      }
    }
  }

  /** tpl_init */
  method Init(t: Template, ghost p: Path)
    modifies t
    ensures t.Blank(p) && t.tpl == t && t.parent == null
  {
    t.head, t.addedHead, t.first := null, null, null;
    t.fields, t.sections := seq(HASH_TABLE_SIZE, _ => null), seq(HASH_TABLE_SIZE, _ => null);
    t.parent := null;
    t.tpl := t;
    t.addedTail := AddedHeadOf(t);
    t.v := View(p, [], [], [], [], [], EMPTY);
  }

  lemma {:induction false} Sound(d: Dom)
    requires Wf(d)
    ensures Tree(d) && forall q {:trigger Local(d, q)} | q in d.st :: Local(d, q)
    ensures d.root in d.st && (forall q {:trigger d.st[q]} | q in d.st :: d.st[q] in d.world)
  {
  }

  /** What hangs at and below `p` hangs nowhere else and was not given back. */
  ghost predicate BelowAlone(d: Dom, p: Path)
    reads d.st.Values
  {
    var e := Below(Estate(d), p);
    && e <= d.world && (forall o | o in e :: !(o is Template)) && e !! Unheld(d)
    && forall q {:trigger d.st[q]} | q in d.st && !(p <= q) :: e !! Owned(d.st[q])
  }

  lemma {:induction false} BelowIsAlone(d: Dom, p: Path)
    requires Wf(d)
    ensures BelowAlone(d, p)
  {
    var e := Below(Estate(d), p);
    forall o | o in e
      ensures o in d.world && !(o is Template) && Held(d, o) && forall q | q in d.st && !(p <= q) :: o !in Owned(d.st[q])
    {
      var r :| r in d.st && p <= r && o in Owned(d.st[r]);
      OwnedBelongs(d, r);
      assert d.st[r] == d.st[r];
      forall q | q in d.st && !(p <= q)
        ensures o !in Owned(d.st[q])
      {
        OwnedApart(d, q, r);
      }
    }
  }

  /** Every node and cell made so far. */
  ghost function Made(d: Dom): set<object> {
    set o | o in d.world && !(o is Template)
  }

  lemma {:induction false} AllBlocks(d: Dom)
    requires Wf(d)
    ensures Unheld(d) + Below(Estate(d), d.root) == Made(d)
  {
    assert Tree(d);
    BelowIsAlone(d, d.root);
    forall o | o in Made(d) && Held(d, o)
      ensures o in Below(Estate(d), d.root)
    {
      var q :| q in d.st && o in Owned(d.st[q]);
      PrefixesIn(d, q, |d.root|);
      var e := Estate(d);
      assert d.root <= q && q in e && o in e[q];
    }
  }

  /** Releasing a record with all its sections, and starting it afresh. */
  method Restart(t: Template, ghost d: Dom, ghost freed: set<object>) returns (ghost freed': set<object>)
    requires Wf(d) && d.st[d.root] == t && freed == Unheld(d)
    modifies d.world
    ensures t.Blank(d.root) && t.tpl == t && t.parent == null && freed' == Made(d)
  {
    hide Wf, Tree, Below, Estate, Local, Unheld, Made;
    Sound(d);
    BelowIsAlone(d, d.root);
    AllBlocks(d);
    freed' := Release(t, d, d.root, freed);
    Init(t, d.root);
  }

  /** tpl_free: everything the template still owns is given back, then the record itself. With that, every node
      and cell ever made is given back, and none of them twice. */
  method Free(t: Template, ghost d: Dom, ghost freed: set<object>) returns (ghost freed': set<object>)
    requires Wf(d) && d.st[d.root] == t && freed == Unheld(d)
    modifies d.world
    ensures freed' == freed + Below(old(Estate(d)), d.root) + {t} == Made(d) + {t}
  {
    hide Wf, Tree, Below, Estate, Local, Unheld, Made;
    Sound(d);
    BelowIsAlone(d, d.root);
    AllBlocks(d);
    OwnsNoRecord(d, t);
    freed' := Release(t, d, d.root, freed);
    freed' := Destroy(t, freed');
  }

  lemma {:induction false} OwnsNoRecord(d: Dom, t: Template)
    ensures t !in Made(d)
  {
  }

  /** A node hangs in one place only: in one section, in one of its two chains, once. */
  lemma {:induction false} NodesOnce(d: Dom, p: Path, q: Path, i: nat, j: nat)
    requires Wf(d) && p in d.st && q in d.st
    requires i < |d.st[p].v.nodes + d.st[p].v.addedNodes| && j < |d.st[q].v.nodes + d.st[q].v.addedNodes|
    requires (d.st[p].v.nodes + d.st[p].v.addedNodes)[i] == (d.st[q].v.nodes + d.st[q].v.addedNodes)[j]
    ensures p == q && i == j
  {
    NodeHome(d, p, i);
    NodeHome(d, q, j);
    assert d.st[p].v.path == p && d.st[q].v.path == q;
  }

  lemma {:induction false} NodeHome(d: Dom, p: Path, i: nat)
    requires Wf(d) && p in d.st && i < |d.st[p].v.nodes + d.st[p].v.addedNodes|
    ensures var t := d.st[p];
            var n := (t.v.nodes + t.v.addedNodes)[i];
            n in d.world && n.home == if i < |t.v.nodes| then Main(t, i) else Added(t, i - |t.v.nodes|)
  {
    var t := d.st[p];
    assert Local(d, p);
    if i < |t.v.nodes| {
      assert t.MainNodeOk(d.world, i);
    } else {
      assert t.AddedNodeOk(d.world, i - |t.v.nodes|);
    }
  }
}
