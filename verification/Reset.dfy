/** Clearing fields and appended content. */
module TplReset {
  import opened TplNames
  import opened TplDocument
  import opened TplHeap
  import opened TplFrames
  import opened TplAccount
  import opened TplChains
  import opened TplFields

  method ClearCell(t: Template, cell: FieldCell, ghost w: set<object>, ghost k: nat)
    requires t in w && t.FieldsOk(w) && k < |t.v.fcells| && cell == t.v.fcells[k]
    modifies t`v, cell`val
    ensures t.FieldsOk(w) && k < |old(t.v.sec.vals)|
    ensures t.v == old(t.v).(sec := old(t.v.sec).(vals := old(t.v.sec.vals)[k := ""]))
  {
    FieldsDistinct(t, w);
    assert t.FieldCellOk(w, k);
    cell.val := "";
    t.v := t.v.(sec := t.v.sec.(vals := t.v.sec.vals[k := ""]));
    ValWritten(t, w, k, "");
  }

  /** The part of the table cleared when buckets from `h` up, and bucket `h - 1` before `j`, are done. */
  predicate ClearedFrom(keys: seq<Key>, vals: seq<string>, h: nat, j: nat) {
    && |keys| == |vals|
    && forall k | 0 <= k < |keys| && (keys[k].bucket >= h || (keys[k].bucket + 1 == h && k < j)) :: vals[k] == ""
  }

  method ClearBucket(t: Template, h: nat, ghost w: set<object>)
    requires t in w && t.FieldsOk(w) && h < HASH_TABLE_SIZE && ClearedFrom(t.v.sec.keys, t.v.sec.vals, h + 1, 0)
    modifies t`v, t.v.fcells
    ensures t.FieldsOk(w) && ClearedFrom(t.v.sec.keys, t.v.sec.vals, h, 0)
    ensures t.v == old(t.v).(sec := old(t.v.sec).(vals := t.v.sec.vals))
  {
    assert t.FieldBucketOk(h);
    var field := t.fields[h];
    ghost var j: nat := NextInBucket(t.v.sec.keys, h, 0);
    while field != null
      invariant t.FieldsOk(w) && t.v == old(t.v).(sec := old(t.v.sec).(vals := t.v.sec.vals))
      invariant j <= |t.v.fcells| && field == FieldAt(t.v.fcells, j)
      invariant ClearedFrom(t.v.sec.keys, t.v.sec.vals, h + 1, j)
      invariant j < |t.v.fcells| ==> t.v.sec.keys[j].bucket == h
      decreases |t.v.fcells| - j
    {
      ClearCell(t, field, w, j);
      assert t.FieldCellOk(w, j);
      field := field.next;
      j := NextInBucket(t.v.sec.keys, h, j + 1);
    }
  }

  method ClearBuckets(t: Template, ghost w: set<object>)
    requires t in w && t.FieldsOk(w)
    modifies t`v, t.v.fcells
    ensures t.FieldsOk(w) && t.v == old(t.v).(sec := Blank(old(t.v.sec)))
  {
    var i := HASH_TABLE_SIZE;
    assert ClearedFrom(t.v.sec.keys, t.v.sec.vals, i, 0) by {
      forall k | 0 <= k < |t.v.sec.keys|
        ensures t.v.sec.keys[k].bucket < HASH_TABLE_SIZE
      {
        assert t.FieldCellOk(w, k);
      }
    }
    ghost var v := t.v;
    while i != 0
      invariant 0 <= i <= HASH_TABLE_SIZE
      invariant t.FieldsOk(w) && t.v == v.(sec := v.sec.(vals := t.v.sec.vals)) && |t.v.sec.vals| == |v.sec.vals|
      invariant ClearedFrom(t.v.sec.keys, t.v.sec.vals, i, 0)
    {
      i := i - 1;
      ClearBucket(t, i, w);
    }
  }

  method ClearFields(t: Template, ghost w: set<object>)
    requires t in w && t.FieldsOk(w)
    modifies w
    ensures t.FieldsOk(w) && OnlyVals(w) && Spares(w, {t})
    ensures t.v.sec == Blank(old(t.v.sec))
  {
    FieldHomes(t, w);
    ClearBuckets(t, w);
  }

  /** The first half of tpl_reset. */
  method ResetFields(t: Template, ghost d: Dom, ghost p: Path)
    requires Wf(d) && p in d.st && d.st[p] == t
    modifies d.world
    ensures Wf(d) && Shape(d) == old(Shape(d)) && ResetTo(old(Abs(d)), Abs(d), p, 0) && Unheld(d) == old(Unheld(d))
  {
    assert Local(d, p);
    ClearFields(t, d.world);
    ValsStep(d, {t});
    ValsShape(d);
    ValsBlocks(d);
    forall q | q in d.st
      ensures Abs(d)[q] == if q == p then Blank(old(Abs(d)[q])) else old(Abs(d)[q])
    {
      assert q != p ==> SameTemplate(d.st[q]);
    }
  }

  // ----- the appended chain of a child -----

  /** Gives the appended nodes back one by one. */
  method UnlinkAdded(c: Template, ghost w: set<object>, ghost freed: set<object>) returns (ghost freed': set<object>)
    requires c in w && c.AddedOk(w) && AddedSet(c) !! freed
    modifies c`addedHead
    ensures c.addedHead == null && freed' == freed + AddedSet(c)
  {
    freed' := freed;
    ghost var j: nat := 0;
    AddedDistinct(c, w);
    while c.addedHead != null
      invariant j <= |c.v.addedNodes| && c.addedHead == NodeAt(c.v.addedNodes, j)
      invariant freed' == freed + set n | n in c.v.addedNodes[..j]
      decreases |c.v.addedNodes| - j
    {
      assert old(c.AddedNodeOk(w, j));
      TakeNext(c.v.addedNodes, j);
      var deleted := c.addedHead;
      c.addedHead := c.addedHead.next;
      freed' := Destroy(deleted, freed');
      j := j + 1;
    }
    assert c.v.addedNodes[..j] == c.v.addedNodes;
  }

  method FreeAdded(c: Template, ghost w: set<object>, ghost freed: set<object>) returns (ghost freed': set<object>)
    requires c in w && c.AddedOk(w) && AddedSet(c) !! freed
    modifies w
    ensures c.AddedOk(w) && OnlyAdded(w) && Spares(w, {c}) && c.v.sec.added == "" && c.v.addedNodes == []
    ensures freed' == freed + old(AddedSet(c))
  {
    freed' := UnlinkAdded(c, w, freed);
    DropAdded(c);
  }

  method ResetAdded(c: Template, ghost d: Dom, ghost q: Path, ghost freed: set<object>) returns (ghost freed': set<object>)
    requires Wf(d) && q in d.st && d.st[q] == c && freed == Unheld(d)
    modifies d.world
    ensures Wf(d) && Shape(d) == old(Shape(d)) && Readded(old(Abs(d)), Abs(d), map[q := ""]) && freed <= freed' == Unheld(d)
  {
    assert Local(d, q);
    AddedIsAlone(d, q);
    freed' := FreeAdded(c, d.world, freed);
    AddedStep(d, d, {c});
    ShapeStays(d, d);
    AbsAdded(d, d, {c}, map[q := ""]);
    ResetBlocks(d, q);
  }

  twostate lemma {:induction false} ResetBlocks(d: Dom, new q: Path)
    requires old(Wf(d)) && q in d.st && old(AddedAlone(d, q) && AddedSet(d.st[q]) <= d.world)
    requires OnlyAdded(d.world) && Spares(d.world, {d.st[q]}) && d.st[q].v.addedNodes == []
    ensures Unheld(d) == old(Unheld(d)) + old(AddedSet(d.st[q]))
  {
    assert old(d.st[q].v.path) == q && SameButAdded(d.st[q]);
    forall r | r in d.st && r != q
      ensures SameBlocks(d.st[r])
    {
      assert old(d.st[r].v.path) == r;
      OtherBlocks(d, {d.st[q]}, r);
    }
    hide Local, Wf, Spares, OnlyAdded;
    AddedDrops(d, d, q, old(AddedSet(d.st[q])), {});
  }

  // ----- the whole reset -----

  /** tpl_reset, called on the section `p`. */
  method Reset(t: Template, ghost d: Dom, ghost p: Path, ghost freed: set<object>) returns (ghost freed': set<object>)
    requires Wf(d) && p in d.st && d.st[p] == t && |d.root| <= |p| && freed == Unheld(d)
    modifies d.world
    ensures Wf(d) && Shape(d) == old(Shape(d)) && Abs(d) == ResetDoc(old(Abs(d)), p)
    ensures freed <= freed' == Unheld(d)
    decreases Under(d.st.Keys, p), 1
  {
    hide Wf, Abs, Shape, ResetTo, ResetDoc, Unheld;
    freed' := freed;
    WorldHolds(d);
    BonesAt(d, p);
    ghost var doc, b := Abs(d), Shape(d);
    ResetFields(t, d, p);
    WorldHolds(d);
    BonesAt(d, p);
    FirstCell(d, p);
    var section := t.first;
    ghost var k: nat, cells := 0, b[p].scells;
    while section != null
      invariant Wf(d) && Shape(d) == b && k <= |cells| && section == SectionAt(cells, k)
      invariant ResetTo(doc, Abs(d), p, k) && freed <= freed' == Unheld(d)
      decreases |cells| - k
    {
      WorldHolds(d);
      BonesAt(d, p);
      section, freed' := ResetBelow(section, d, p, k, doc, freed');
      k := k + 1;
    }
    WorldHolds(d);
    BonesAt(d, p);
    ResetAll(d, doc, p);
  }

  lemma {:induction false} ResetAll(d: Dom, doc: Doc, p: Path)
    requires Wf(d) && p in d.st && |d.root| <= |p| && ResetTo(doc, Abs(d), p, |d.st[p].v.scells|)
    ensures Abs(d) == ResetDoc(doc, p)
  {
    var now := Abs(d);
    forall q | q in doc
      ensures now[q] == ResetDoc(doc, p)[q]
    {
      assert q in d.st;
      if p < q {
        ChildOf(d, p, q);
      }
    }
  }

  /** One turn of its loop over the children. */
  method ResetBelow(section: SectionCell, ghost d: Dom, ghost p: Path, ghost k: nat, ghost doc: Doc, ghost freed: set<object>)
    returns (next: SectionCell?, ghost freed': set<object>)
    requires Wf(d) && p in d.st && |d.root| <= |p| && k < |d.st[p].v.scells| && section == d.st[p].v.scells[k]
    requires ResetTo(doc, Abs(d), p, k) && freed == Unheld(d)
    modifies d.world
    ensures Wf(d) && Shape(d) == old(Shape(d)) && ResetTo(doc, Abs(d), p, k + 1)
    ensures freed <= freed' == Unheld(d)
    ensures next == SectionAt(old(d.st[p].v.scells), k + 1)
    decreases Under(d.st.Keys, p), 0
  {
    ghost var b, d2 := Shape(d)[p], Abs(d);
    ChildCell(d, p, k);
    freed' := ResetAdded(section.tpl, d, Child(p, k), freed);
    ghost var d3 := Abs(d);
    UnderShrinks(d.st.Keys, p, k);
    freed' := Reset(section.tpl, d, Child(p, k), freed');
    ResetAdvances(doc, d2, d3, Abs(d), p, k);
    assert Shape(d)[p] == b;
    NextCell(d, p, k);
    next := section.next;
  }
}
