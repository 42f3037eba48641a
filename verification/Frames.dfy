/** What a change leaves alone, and what therefore stays well formed. */
module TplFrames {
  import opened TplNames
  import opened TplDocument
  import opened TplHeap

  /** The same sections, possibly over more objects. */
  predicate Grown(d: Dom, d': Dom) {
    d'.root == d.root && d'.st == d.st && d.world <= d'.world
  }

  twostate predicate SameNode(n: Node)
    reads n
  {
    n.val == old(n.val) && n.fval == old(n.fval) && n.next == old(n.next) && n.home == old(n.home)
  }

  twostate predicate SameField(c: FieldCell)
    reads c
  {
    c.val == old(c.val) && c.next == old(c.next)
  }

  twostate predicate SameSection(c: SectionCell)
    reads c
  {
    c.preceding == old(c.preceding) && c.bnext == old(c.bnext) && c.next == old(c.next)
  }

  twostate predicate SameTemplate(t: Template)
    reads t
  {
    && t.head == old(t.head) && t.addedHead == old(t.addedHead) && t.addedTail == old(t.addedTail)
    && t.first == old(t.first) && t.fields == old(t.fields) && t.sections == old(t.sections)
    && t.tpl == old(t.tpl) && t.parent == old(t.parent) && t.v == old(t.v)
  }

  /** Nothing of the templates outside `ts` changed. */
  twostate predicate Spares(w: set<object>, new ts: set<Template>)
    reads w
  {
    && (forall t: Template {:trigger SameTemplate(t)} | t in w && t !in ts :: SameTemplate(t))
    && (forall n: Node {:trigger SameNode(n)} | n in w && old(n.home) != Loose && old(n.home.t) !in ts :: SameNode(n))
    && (forall c: FieldCell {:trigger SameField(c)} | c in w && c.owner !in ts :: SameField(c))
    && (forall c: SectionCell {:trigger SameSection(c)} | c in w && c.owner !in ts :: SameSection(c))
  }

  twostate lemma {:induction false} SparesOne(d: Dom, new t: Template)
    requires forall o: object | o in d.world && o != t :: unchanged(o)
    ensures Spares(d.world, {t})
  {
  }

  // ----- one part of one template is as before -----

  twostate predicate MainSame(t: Template, w: set<object>)
    reads t, w
  {
    && t.head == old(t.head) && t.v.nodes == old(t.v.nodes) && t.v.fcells == old(t.v.fcells)
    && t.v.sec.items == old(t.v.sec.items)
    && forall n: Node {:trigger SameNode(n)} | n in w && old(n.home).Main? && old(n.home.t) == t :: SameNode(n)
  }

  twostate predicate AddedSame(t: Template, w: set<object>)
    reads t, w
  {
    && t.addedHead == old(t.addedHead) && t.addedTail == old(t.addedTail)
    && t.v.addedNodes == old(t.v.addedNodes) && t.v.addedParts == old(t.v.addedParts)
    && t.v.sec.added == old(t.v.sec.added)
    && forall n: Node {:trigger SameNode(n)} | n in w && old(n.home).Added? && old(n.home.t) == t :: SameNode(n)
  }

  twostate predicate FieldsSame(t: Template, w: set<object>)
    reads t, w
  {
    && t.fields == old(t.fields) && t.v.fcells == old(t.v.fcells)
    && t.v.sec.keys == old(t.v.sec.keys) && t.v.sec.vals == old(t.v.sec.vals)
    && forall c: FieldCell {:trigger SameField(c)} | c in w && c.owner == t :: SameField(c)
  }

  twostate predicate SectionsSame(t: Template, w: set<object>)
    reads t, w
  {
    && t.first == old(t.first) && t.sections == old(t.sections)
    && t.v.scells == old(t.v.scells) && t.v.nodes == old(t.v.nodes)
    && t.v.sec.names == old(t.v.sec.names) && t.v.sec.anchors == old(t.v.sec.anchors)
    && forall c: SectionCell {:trigger SameSection(c)} | c in w && c.owner == t :: SameSection(c)
  }

  twostate lemma {:induction false} MainStays(d: Dom, new d': Dom, new p: Path)
    requires p in d.st && d.st[p] in d.world && d.world <= d'.world && MainSame(d.st[p], d.world)
    requires old(d.st[p].MainOk(d.world))
    ensures d.st[p].MainOk(d'.world)
  {
    var t := d.st[p];
    forall i | 0 <= i < |t.v.nodes|
      ensures t.MainNodeOk(d'.world, i)
    {
      assert old(t.MainNodeOk(d.world, i));
      assert SameNode(t.v.nodes[i]);
    }
  }

  twostate lemma {:induction false} AddedWiden(t: Template, new w: set<object>, new w': set<object>)
    requires old(allocated(w)) && t in w && w <= w' && AddedSame(t, w)
    requires old(t.AddedOk(w))
    ensures t.AddedOk(w')
  {
    forall i | 0 <= i < |t.v.addedNodes|
      ensures t.AddedNodeOk(w', i)
    {
      assert old(t.AddedNodeOk(w, i));
      assert SameNode(t.v.addedNodes[i]);
    }
  }

  twostate lemma {:induction false} AddedStays(d: Dom, new d': Dom, new p: Path)
    requires p in d.st && d.st[p] in d.world && d.world <= d'.world && AddedSame(d.st[p], d.world)
    requires old(d.st[p].AddedOk(d.world))
    ensures d.st[p].AddedOk(d'.world)
  {
    AddedWiden(d.st[p], d.world, d'.world);
  }

  twostate lemma {:induction false} FieldsWiden(t: Template, new w: set<object>, new w': set<object>)
    requires old(allocated(w)) && t in w && w <= w' && FieldsSame(t, w)
    requires old(t.FieldsOk(w))
    ensures t.FieldsOk(w')
  {
    forall h | 0 <= h < HASH_TABLE_SIZE
      ensures t.FieldBucketOk(h)
    {
      assert old(t.FieldBucketOk(h));
    }
    forall k | 0 <= k < |t.v.fcells|
      ensures t.FieldCellOk(w', k)
    {
      assert old(t.FieldCellOk(w, k));
      assert SameField(t.v.fcells[k]);
    }
  }

  twostate lemma {:induction false} FieldsStay(d: Dom, new d': Dom, new p: Path)
    requires p in d.st && d.st[p] in d.world && d.world <= d'.world && FieldsSame(d.st[p], d.world)
    requires old(d.st[p].FieldsOk(d.world))
    ensures d.st[p].FieldsOk(d'.world)
  {
    FieldsWiden(d.st[p], d.world, d'.world);
  }

  twostate lemma {:induction false} SectionsStay(d: Dom, new d': Dom, new p: Path)
    requires p in d.st && d.st[p] in d.world && d.world <= d'.world && SectionsSame(d.st[p], d.world)
    requires old(d.st[p].SectionsOk(d.world))
    ensures d.st[p].SectionsOk(d'.world)
  {
    var t := d.st[p];
    forall h | 0 <= h < HASH_TABLE_SIZE
      ensures t.SectionBucketOk(h)
    {
      assert old(t.SectionBucketOk(h));
    }
    forall k | 0 <= k < |t.v.scells|
      ensures t.SectionCellOk(d'.world, k)
    {
      assert old(t.SectionCellOk(d.world, k));
      assert SameSection(t.v.scells[k]);
    }
  }

  /** A section outside the touched templates stays well formed, also when sections are added. */
  twostate lemma {:induction false} LocalKept(d: Dom, new d': Dom, new ts: set<Template>, new p: Path)
    requires p in d.st && d.st[p] in d.world && d.st[p] !in ts && d.world <= d'.world && Spares(d.world, ts)
    requires forall q {:trigger d.st[q]} | q in d.st :: q in d'.st && d'.st[q] == d.st[q]
    requires old(Local(d, p))
    ensures p in d'.st && Local(d', p)
  {
    assert SameTemplate(d.st[p]);
    MainStays(d, d', p);
    AddedStays(d, d', p);
    FieldsStay(d, d', p);
    SectionsStay(d, d', p);
    var t := d.st[p];
    assert p in d'.st;
    forall k | 0 <= k < |d.st[p].v.scells|
      ensures Child(p, k) in d'.st && d.st[p].v.scells[k].tpl == d'.st[Child(p, k)]
    {
      var c := d.st[Child(p, k)];
      assert t.v.scells[k].tpl == c;
    }
  }
}
