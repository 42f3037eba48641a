/** Selecting sections, and setting fields through the selection. */
module TplSelection {
  import opened TplNames
  import opened TplDocument
  import opened TplHeap
  import opened TplFrames
  import opened TplAccount

  // ----- finding a section -----

  ghost predicate Seeking(t: Template, k: Key, prev: SectionCell?, j: nat)
    reads t
  {
    && j <= |t.v.sec.names| == |t.v.scells| && (j < |t.v.sec.names| ==> t.v.sec.names[j].bucket == k.bucket)
    && (forall i | 0 <= i < j :: !Answers(t.v.sec.names[i], k))
    && (prev == null ==> j == NextInBucket(t.v.sec.names, k.bucket, 0))
    && (prev != null ==>
          && prev.at < j && t.v.scells[prev.at] == prev && t.v.sec.names[prev.at].bucket == k.bucket
          && j == NextInBucket(t.v.sec.names, k.bucket, prev.at + 1))
  }

  lemma {:induction false} SeekAdvances(t: Template, w: set<object>, k: Key, prev: SectionCell?, j: nat)
    requires t.SectionsOk(w) && Seeking(t, k, prev, j) && j < |t.v.scells| && !Answers(t.v.sec.names[j], k)
    ensures t.v.scells[j] in w
    ensures Seeking(t, k, t.v.scells[j], NextInBucket(t.v.sec.names, k.bucket, j + 1))
    ensures t.v.scells[j].bnext == SectionAt(t.v.scells, NextInBucket(t.v.sec.names, k.bucket, j + 1))
  {
    assert t.SectionCellOk(w, j);
  }

  /** tpl_produce_section without must_create, keeping the place where a missing section would be linked. */
  method FindSection(t: Template, key: string, ghost w: set<object>)
    returns (cell: SectionCell?, prev: SectionCell?, bucket: nat)
    requires t.SectionsOk(w) && CleanName(key)
    ensures bucket == KeyOf(key).bucket
    ensures cell == SectionAt(t.v.scells, FirstMatch(t.v.sec.names, KeyOf(key)))
    ensures exists r {:trigger Finds(t.v.sec.names, key, r)} :: Finds(t.v.sec.names, key, r) && cell == SectionAt(t.v.scells, r)
    ensures cell == null ==> Seeking(t, KeyOf(key), prev, |t.v.scells|)
  {
    bucket := TplHash(key);
    ghost var k := KeyOf(key);
    assert t.SectionBucketOk(bucket);
    cell, prev := t.sections[bucket], null;
    ghost var j: nat := NextInBucket(t.v.sec.names, bucket, 0);
    assert j < |t.v.scells| ==> t.SectionCellOk(w, j);
    while cell != null && !(key <= cell.key.name)
      invariant Seeking(t, k, prev, j) && cell == SectionAt(t.v.scells, j)
      invariant cell != null ==> cell.key == t.v.sec.names[j]
      decreases |t.v.scells| - j
    {
      SeekAdvances(t, w, k, prev, j);
      j := NextInBucket(t.v.sec.names, bucket, j + 1);
      prev := cell;
      cell := cell.bnext;
      assert j < |t.v.scells| ==> t.SectionCellOk(w, j);
    }
    FirstMatchIs(t.v.sec.names, k, j);
    FirstFinds(t.v.sec.names, key, j);
  }

  // ----- selecting -----

  /** The section selected by a name, when there is one. */
  function SelectPath(doc: Doc, sel: Path, k: Key): Option<Path>
    requires sel in doc
  {
    var r := FirstMatch(doc[sel].names, k);
    if r < |doc[sel].names| then Some(Child(sel, r)) else None
  }

  /** The child a name selects is the first one filed under the hash of the name whose own name begins with it. */
  lemma {:induction false} SelectFinds(doc: Doc, sel: Path, name: string, r: nat)
    requires sel in doc && Finds(doc[sel].names, name, r)
    ensures SelectPath(doc, sel, KeyOf(name)) == if r < |doc[sel].names| then Some(Child(sel, r)) else None
  {
    FirstFinds(doc[sel].names, name, r);
  }

  /** Only the `tpl` pointers of `a` and `b` may have changed. */
  twostate predicate OnlyPointers(w: set<object>)
    reads w
  {
    && (forall t: Template {:trigger SameButPointer(t)} | t in w :: SameButPointer(t))
    && (forall n: Node {:trigger SameNode(n)} | n in w :: SameNode(n))
    && (forall c: FieldCell {:trigger SameField(c)} | c in w :: SameField(c))
    && (forall c: SectionCell {:trigger SameSection(c)} | c in w :: SameSection(c))
  }

  twostate predicate SameButPointer(t: Template)
    reads t
  {
    && t.head == old(t.head) && t.addedHead == old(t.addedHead) && t.addedTail == old(t.addedTail)
    && t.first == old(t.first) && t.fields == old(t.fields) && t.sections == old(t.sections)
    && t.parent == old(t.parent) && t.v == old(t.v)
  }

  twostate lemma {:induction false} PointerStep(d: Dom)
    requires old(Wf(d)) && OnlyPointers(d.world)
    ensures Wf(d)
  {
    forall p | p in d.st
      ensures Local(d, p) && SameButPointer(d.st[p])
    {
      assert old(Local(d, p));
      assert SameButPointer(d.st[p]);
      MainStays(d, d, p);
      AddedStays(d, d, p);
      FieldsStay(d, d, p);
      SectionsStay(d, d, p);
    }
    forall p | p in d.st && p != d.root && p != []
      ensures Up(p) in d.st && p[|p| - 1] < |d.st[Up(p)].v.scells|
    {
      assert SameButPointer(d.st[Up(p)]);
    }
  }

  twostate lemma {:induction false} PointerAbs(d: Dom)
    requires old(Wf(d)) && Wf(d) && OnlyPointers(d.world)
    ensures Abs(d) == old(Abs(d))
  {
    forall p | p in d.st
      ensures Abs(d)[p] == old(Abs(d)[p])
    {
      assert SameButPointer(d.st[p]);
    }
  }

  twostate lemma {:induction false} PointerBlocks(d: Dom)
    requires old(Wf(d)) && OnlyPointers(d.world)
    ensures Unheld(d) == old(Unheld(d))
  {
    forall p | p in d.st
      ensures SameBlocks(d.st[p])
    {
      assert d.st[p] in d.world && SameButPointer(d.st[p]);
    }
    UnheldSame(d);
  }

  /** `b2` is `b1` with the `tpl` pointers of the root and of section `p` leading to section `q`. */
  predicate Repointed(st: map<Path, Template>, b1: map<Path, Bones>, b2: map<Path, Bones>, p: Path, q: Path) {
    && b2.Keys == b1.Keys && q in st
    && forall r {:trigger b2[r]} | r in b1 ::
         b2[r] == if r == [] || r == p then b1[r].(tpl := st[q]) else b1[r]
  }

  /** Selecting a child of the selected section pushes it on the path. */
  lemma {:induction false} LinkedDown(st: map<Path, Template>, b1: map<Path, Bones>, b2: map<Path, Bones>, sel: Path, c: Path)
    requires Linked(st, b1, sel) && c in st && c != [] && Up(c) == sel && Repointed(st, b1, b2, sel, c)
    ensures Linked(st, b2, c)
  {
    forall p | p in st
      ensures LinkedAt(st, b2, c, p)
    {
      assert LinkedAt(st, b1, sel, p);
      assert b2[p] == b2[p];
      assert c[..|sel|] == sel && c[..|sel| + 1] == c;
      if p < c {
        assert p == c[..|p|];
        if p != sel {
          assert p == sel[..|p|] && c[..|p| + 1] == sel[..|p| + 1];
        }
      }
      if p < sel {
        assert p == c[..|p|];
      }
    }
  }

  /** Deselecting pops it. */
  lemma {:induction false} LinkedUp(st: map<Path, Template>, b1: map<Path, Bones>, b2: map<Path, Bones>, sel: Path)
    requires Linked(st, b1, sel) && sel != [] && Up(sel) in st && Repointed(st, b1, b2, Up(sel), Up(sel))
    ensures Linked(st, b2, Up(sel))
  {
    var c := Up(sel);
    forall p | p in st
      ensures LinkedAt(st, b2, c, p)
    {
      assert LinkedAt(st, b1, sel, p);
      assert b2[p] == b2[p];
      if p < sel && p != c {
        assert p < c && c[..|p| + 1] == sel[..|p| + 1];
      }
      if p < c {
        assert p < sel;
      }
    }
  }

  twostate lemma {:induction false} Repointing(d: Dom, new p: Path, new q: Path)
    requires old(Wf(d)) && [] in d.st && p in d.st && q in d.st && OnlyPointers(d.world)
    requires d.st[[]].tpl == d.st[q] && d.st[p].tpl == d.st[q]
    requires forall t: Template | t in d.world && t != d.st[[]] && t != d.st[p] :: t.tpl == old(t.tpl)
    ensures Wf(d) && Repointed(d.st, old(Shape(d)), Shape(d), p, q)
  {
    PointerStep(d);
    ghost var b := Shape(d);
    forall r | r in d.st
      ensures b[r] == if r == [] || r == p then old(Shape(d))[r].(tpl := d.st[q]) else old(Shape(d))[r]
    {
      assert SameButPointer(d.st[r]);
      assert old(d.st[r].v.path) == r;
    }
  }

  /** What selecting by a name leads to, seen on the heap. */
  ghost predicate LeadsTo(d: Dom, sel: Path, section: SectionCell?, found: Option<Path>)
    reads d.world
  {
    && (section == null <==> found.None?)
    && (section != null ==>
          && found.value in d.st && d.st[found.value] == section.tpl && section.tpl in d.world && section.tpl.tpl == section.tpl
          && found.value != [] && Up(found.value) == sel)
  }

  lemma {:induction false} CellLeads(d: Dom, sel: Path, k: Key, section: SectionCell?)
    requires Selected(d, sel) && sel in d.st
    requires section == SectionAt(d.st[sel].v.scells, FirstMatch(d.st[sel].v.sec.names, k))
    ensures LeadsTo(d, sel, section, SelectPath(Abs(d), sel, k))
  {
    assert Local(d, sel);
    if section != null {
      var c := Child(sel, FirstMatch(d.st[sel].v.sec.names, k));
      ChildCell(d, sel, c[|sel|]);
      hide Wf, Local;
      assert LinkedAt(d.st, Shape(d), sel, c);
    }
  }

  /** tpl_get_section at the selected section. */
  method FindSelected(tpl: Template, key: string, ghost d: Dom, ghost sel: Path) returns (section: SectionCell?)
    requires Selected(d, sel) && d.st[[]] == tpl && CleanName(key)
    ensures [] in d.st && sel in d.st && d.st[sel] == tpl.tpl && tpl.tpl in d.world
    ensures LeadsTo(d, sel, section, SelectPath(Abs(d), sel, KeyOf(key)))
  {
    hide Seeking;
    assert LinkedAt(d.st, Shape(d), sel, []);
    assert Local(d, sel);
    var prev, bucket;
    section, prev, bucket := FindSection(tpl.tpl, key, d.world);
    CellLeads(d, sel, KeyOf(key), section);
  }

  /** tpl_select_section */
  method SelectSection(tpl: Template, key: string, ghost d: Dom, ghost sel: Path) returns (code: int, ghost sel': Path)
    requires Selected(d, sel) && d.st[[]] == tpl && CleanName(key)
    modifies d.world
    ensures Selected(d, sel') && Abs(d) == old(Abs(d)) && Unheld(d) == old(Unheld(d))
    ensures var found := SelectPath(old(Abs(d)), sel, KeyOf(key));
            sel' == found.GetOr(sel) && code == if found.Some? then TPL_OK else TPL_SECTION_NOT_FOUND_ERROR
  {
    hide Repointed, Wf, LinkedAt, SelectPath, Abs, Shape, Unheld;
    WorldHolds(d);
    AbsKeys(d);
    ghost var b := Shape(d);
    ghost var found := SelectPath(Abs(d), sel, KeyOf(key));
    var section := FindSelected(tpl, key, d, sel);
    sel', code := sel, TPL_SECTION_NOT_FOUND_ERROR;
    if section != null {
      sel', code := found.value, TPL_OK;
      Descend(tpl, section, d, sel, sel');
      WorldHolds(d);
      LinkedDown(d.st, b, Shape(d), sel, sel');
    }
  }

  method Descend(tpl: Template, section: SectionCell, ghost d: Dom, ghost p: Path, ghost q: Path)
    requires Wf(d) && [] in d.st && d.st[[]] == tpl && p in d.st && d.st[p] == tpl.tpl && q in d.st
    requires d.st[q] == section.tpl && section.tpl.tpl == section.tpl
    modifies d.world
    ensures Wf(d) && Abs(d) == old(Abs(d)) && Unheld(d) == old(Unheld(d)) && Repointed(d.st, old(Shape(d)), Shape(d), p, q)
  {
    tpl.tpl.tpl := section.tpl;
    tpl.tpl := tpl.tpl.tpl;
    Repointing(d, p, q);
    PointerAbs(d);
    PointerBlocks(d);
  }

  method Ascend(tpl: Template, ghost d: Dom, ghost p: Path)
    requires Wf(d) && [] in d.st && d.st[[]] == tpl && p in d.st && tpl.tpl in d.world && tpl.tpl.parent == d.st[p]
    modifies d.world
    ensures Wf(d) && Abs(d) == old(Abs(d)) && Unheld(d) == old(Unheld(d)) && Repointed(d.st, old(Shape(d)), Shape(d), p, p)
  {
    tpl.tpl := tpl.tpl.parent;
    tpl.tpl.tpl := tpl.tpl;
    Repointing(d, p, p);
    PointerAbs(d);
    PointerBlocks(d);
  }

  /** tpl_deselect_section */
  method DeselectSection(tpl: Template, ghost d: Dom, ghost sel: Path) returns (code: int, ghost sel': Path)
    requires Selected(d, sel) && d.st[[]] == tpl
    modifies d.world
    ensures Selected(d, sel') && Abs(d) == old(Abs(d)) && Unheld(d) == old(Unheld(d))
    ensures if sel == [] then sel' == sel && code == TPL_NO_SECTION_SELECTED_ERROR else sel' == Up(sel) && code == TPL_OK
  {
    ghost var b := Shape(d);
    assert LinkedAt(d.st, b, sel, []) && LinkedAt(d.st, b, sel, sel);
    sel', code := sel, TPL_NO_SECTION_SELECTED_ERROR;
    if tpl.tpl != tpl {
      sel', code := Up(sel), TPL_OK;
      Ascend(tpl, d, sel');
      LinkedUp(d.st, b, Shape(d), sel);
    }
  }
}
