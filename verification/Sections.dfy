/** Adding a child section at the end of a section. */
module TplSections {
  import opened TplNames
  import opened TplDocument
  import opened TplHeap
  import opened TplFrames
  import opened TplAccount
  import opened TplSelection
  import opened TplBuild
  import opened TplGrowth

  // ----- linking the new cell -----

  ghost function LastCell(prev: SectionCell?): int {
    if prev == null then -1 else prev.at
  }

  /** Writes the cell through the address the bucket search ended at, and at the end of the list. */
  method StoreSection(t: Template, cell: SectionCell, prev: SectionCell?, last: SectionCell?, bucket: nat, tail: Link)
    requires bucket < |t.sections| && cell != prev && cell != last
    modifies t`sections, t`first, cell, if prev == null then {} else {prev}`bnext, if last == null then {} else {last}`next
    ensures if prev == null then t.sections == old(t.sections)[bucket := cell]
            else prev.bnext == cell && t.sections == old(t.sections)
    ensures if last == null then t.first == cell else last.next == cell && t.first == old(t.first)
    ensures cell.preceding == tail && cell.next == old(cell.next) && cell.bnext == old(cell.bnext)
    ensures prev != null && prev != last ==> prev.next == old(prev.next)
    ensures prev != null ==> prev.preceding == old(prev.preceding)
    ensures last != null && prev != last ==> last.bnext == old(last.bnext)
    ensures last != null ==> last.preceding == old(last.preceding)
  {
    if prev == null {
      t.sections := t.sections[bucket := cell];
    } else {
      prev.bnext := cell;
    }
    if last == null {
      t.first := cell;
    } else {
      last.next := cell;
    }
    cell.preceding := tail;
  }

  twostate lemma {:induction false} SectionsSnoc(t: Template, new w: set<object>, new w': set<object>,
                                                 new cell: SectionCell, new prev: SectionCell?)
    requires old(allocated(w)) && w <= w' && cell in w' && old(t.SectionsOk(w))
    requires cell.owner == t && cell.at == old(|t.v.scells|) && cell.next == null && cell.bnext == null
    requires cell.key.bucket < HASH_TABLE_SIZE && cell.preceding == LinkTo(t, t.v.nodes, |t.v.nodes|)
    requires t.v.nodes == old(t.v.nodes) && t.v.scells == old(t.v.scells) + [cell]
    requires t.v.sec.names == old(t.v.sec.names) + [cell.key] && t.v.sec.anchors == old(t.v.sec.anchors) + [|t.v.nodes|]
    requires LastOf(old(t.v.sec.names), cell.key.bucket, LastCell(prev))
    requires prev != null ==> prev.at < old(|t.v.scells|) && old(t.v.scells)[prev.at] == prev
    requires if prev == null then t.sections == old(t.sections)[cell.key.bucket := cell] else t.sections == old(t.sections)
    requires t.first == SectionAt(t.v.scells, 0)
    requires forall i | 0 <= i < old(|t.v.scells|) ::
               && old(t.v.scells)[i].preceding == old(t.v.scells[i].preceding)
               && old(t.v.scells)[i].bnext == (if i == LastCell(prev) then cell else old(t.v.scells[i].bnext))
               && old(t.v.scells)[i].next == if i == old(|t.v.scells|) - 1 then cell else old(t.v.scells[i].next)
    ensures t.SectionsOk(w')
  {
    var names := old(t.v.sec.names);
    forall h | 0 <= h < HASH_TABLE_SIZE
      ensures t.SectionBucketOk(h)
    {
      assert old(t.SectionBucketOk(h));
      BucketHeadGrows(names, cell.key, LastCell(prev), h);
    }
    forall k | 0 <= k < |t.v.scells|
      ensures t.SectionCellOk(w', k)
    {
      if k < |names| {
        assert old(t.SectionCellOk(w, k));
        BucketCellGrows(names, cell.key, LastCell(prev), k);
      }
    }
  }

  lemma {:induction false} SectionHomes(t: Template, w: set<object>)
    requires t.SectionsOk(w)
    ensures forall c | c in t.v.scells :: c in w && c.owner == t
    ensures forall i, j | 0 <= i < j < |t.v.scells| :: t.v.scells[i] != t.v.scells[j]
  {
    forall i | 0 <= i < |t.v.scells|
      ensures t.v.scells[i] in w && t.v.scells[i].owner == t && t.v.scells[i].at == i
    {
      assert t.SectionCellOk(w, i);
    }
  }

  /** A new section cell at the end of its bucket and of the list. */
  method LinkCell(t: Template, tail: Link, last: SectionCell?, cell: SectionCell, prev: SectionCell?, ghost w: set<object>, ghost w': set<object>)
    requires t in w && t.SectionsOk(w) && tail == LinkTo(t, t.v.nodes, |t.v.nodes|) && w <= w' && cell in w' && cell !in w
    requires cell.owner == t && cell.at == |t.v.scells| && cell.next == null && cell.bnext == null && cell.key.bucket < HASH_TABLE_SIZE
    requires Seeking(t, cell.key, prev, |t.v.scells|) && |t.v.nodes| == |t.v.sec.items|
    requires last == if |t.v.scells| == 0 then null else t.v.scells[|t.v.scells| - 1]
    modifies t`sections, t`first, t`v, t.v.scells, cell
    ensures t.SectionsOk(w')
    ensures t.v == old(t.v).(scells := old(t.v.scells) + [cell],
                             sec := old(t.v.sec).(names := old(t.v.sec.names) + [cell.key],
                                                  anchors := old(t.v.sec.anchors) + [|t.v.nodes|]))
  {
    SectionHomes(t, w);
    StoreSection(t, cell, prev, last, cell.key.bucket, tail);
    t.v := t.v.(scells := t.v.scells + [cell],
                sec := t.v.sec.(names := t.v.sec.names + [cell.key], anchors := t.v.sec.anchors + [|t.v.nodes|]));
    SectionsSnoc(t, w, w', cell, prev);
  }

  /** tpl_produce_section with must_create, and what tpl_construct does with the cell at once. */
  method LinkSection(t: Template, tail: Link, last: SectionCell?, key: Key, prev: SectionCell?, ghost p: Path, ghost w: set<object>)
    returns (cell: SectionCell)
    requires t in w && t.SectionsOk(w) && tail == LinkTo(t, t.v.nodes, |t.v.nodes|)
    requires key == KeyOf(key.name) && Seeking(t, key, prev, |t.v.scells|) && |t.v.nodes| == |t.v.sec.items|
    requires last == if |t.v.scells| == 0 then null else t.v.scells[|t.v.scells| - 1]
    modifies t`sections, t`first, t`v, t.v.scells
    ensures fresh(cell) && fresh(cell.tpl) && cell.key == key && t.SectionsOk(w + {cell, cell.tpl})
    ensures cell.tpl.Blank(p) && cell.tpl.tpl == cell.tpl && cell.tpl.parent == t
    ensures t.v == old(t.v).(scells := old(t.v.scells) + [cell], sec := AddSection(old(t.v.sec), key.name))
  {
    hide Template.SectionsOk, Seeking, LinkTo;
    var child := new Template(p);
    cell := new SectionCell(key, child, t, |t.v.scells|);
    child.parent := t;
    LinkCell(t, tail, last, cell, prev, w, w + {cell, child});
  }

  method MakeSection(t: Template, tail: Link, last: SectionCell?, name: string, ghost p: Path, ghost w: set<object>)
    returns (cell: SectionCell?)
    requires t in w && t.SectionsOk(w) && tail == LinkTo(t, t.v.nodes, |t.v.nodes|)
    requires CleanName(name) && |t.v.nodes| == |t.v.sec.items|
    requires last == if |t.v.scells| == 0 then null else t.v.scells[|t.v.scells| - 1]
    modifies t`sections, t`first, t`v, t.v.scells
    ensures cell == null <==> FirstMatch(old(t.v.sec.names), KeyOf(name)) < |old(t.v.sec.names)|
    ensures cell == null ==> forall o: object | o in w :: unchanged(o)
    ensures cell != null ==>
              && fresh(cell) && fresh(cell.tpl) && t.SectionsOk(w + {cell, cell.tpl})
              && cell.tpl.Blank(p) && cell.tpl.tpl == cell.tpl && cell.tpl.parent == t
              && t.v == old(t.v).(scells := old(t.v.scells) + [cell], sec := AddSection(old(t.v.sec), name))
  {
    var prev, bucket;
    cell, prev, bucket := FindSection(t, name, w);
    if cell != null {
      cell := null;
    } else {
      FirstMatchIs(t.v.sec.names, KeyOf(name), |t.v.scells|);
      cell := LinkSection(t, tail, last, Key(name, bucket), prev, p, w);
    }
  }

  method MakeSectionFramed(t: Template, tail: Link, last: SectionCell?, name: string, ghost p: Path, ghost w: set<object>)
    returns (cell: SectionCell?)
    requires t in w && t.SectionsOk(w) && tail == LinkTo(t, t.v.nodes, |t.v.nodes|)
    requires CleanName(name) && |t.v.nodes| == |t.v.sec.items|
    requires last == if |t.v.scells| == 0 then null else t.v.scells[|t.v.scells| - 1]
    modifies w
    ensures cell == null <==> FirstMatch(old(t.v.sec.names), KeyOf(name)) < |old(t.v.sec.names)|
    ensures Spares(w, {t}) && MainSame(t, w) && AddedSame(t, w) && FieldsSame(t, w)
    ensures t.tpl == old(t.tpl) && t.parent == old(t.parent)
    ensures cell == null ==> Spares(w, {})
    ensures cell != null ==>
              && fresh(cell) && fresh(cell.tpl) && t.SectionsOk(w + {cell, cell.tpl})
              && cell.tpl.Blank(p) && cell.tpl.tpl == cell.tpl && cell.tpl.parent == t
              && t.v == old(t.v).(scells := old(t.v.scells) + [cell], sec := AddSection(old(t.v.sec), name))
  {
    SectionHomes(t, w);
    cell := MakeSection(t, tail, last, name, p, w);
  }

  // ----- the document with the new section -----

  ghost predicate Grafted(d: Dom, d': Dom, c: Path, child: Template) {
    d'.root == d.root && d'.st == d.st[c := child] && d.world <= d'.world && child in d'.world && c !in d.st
  }

  lemma {:induction false} NoSuchChild(d: Dom, p: Path, k: nat)
    requires Wf(d) && p in d.st && k >= |d.st[p].v.scells|
    ensures Child(p, k) !in d.st
  {
    var c := Child(p, k);
    assert Up(c) == p;
    assert d.st[p] in d.world;
  }

  twostate lemma {:induction false} GraftLocal(d: Dom, new d': Dom, new p: Path, new c: Path, new child: Template)
    requires old(Wf(d)) && p in d.st && Grafted(d, d', c, child) && Spares(d.world, {d.st[p]})
    requires c == Child(p, old(|d.st[p].v.scells|)) && d.st[p].v.path == p
    requires old(|d.st[p].v.scells|) < |d.st[p].v.scells| && old(d.st[p].v.scells) == d.st[p].v.scells[..old(|d.st[p].v.scells|)]
    requires |d.st[p].v.scells| == old(|d.st[p].v.scells|) + 1 && d.st[p].v.scells[old(|d.st[p].v.scells|)].tpl == child
    requires var t := d.st[p]; t in d.world && t.MainOk(d'.world) && t.AddedOk(d'.world) && t.FieldsOk(d'.world) && t.SectionsOk(d'.world)
    requires SecOk(d.st[p].v.sec)
    ensures Local(d', p)
  {
    var t, n := d.st[p], old(|d.st[p].v.scells|);
    assert old(Local(d, p));
    forall k | 0 <= k < |t.v.scells|
      ensures Child(p, k) in d'.st && t.v.scells[k].tpl == d'.st[Child(p, k)]
    {
      if k < n {
        assert Child(p, k) in d.st;
        assert t.v.scells[k] == old(t.v.scells)[k];
      }
    }
  }

  twostate lemma {:induction false} GraftPlace(d: Dom, new d': Dom, new p: Path, new c: Path, new child: Template, new q: Path)
    requires old(Wf(d)) && p in d.st && Grafted(d, d', c, child) && Spares(d.world, {d.st[p]}) && q in d'.st
    requires c == Child(p, old(|d.st[p].v.scells|)) && d.st[p].v.path == p && child.Blank(c) && Local(d', p)
    ensures Local(d', q) && d'.st[q] in d'.world && d'.st[q].v.path == q && (q == d.root || |q| > |d.root|)
    ensures q != p && q != c ==> d.st[q].v.scells == old(d.st[q].v.scells)
  {
    hide Local, Spares, SameTemplate;
    assert p in d.st && old(d.st[p].v.path) == p;
    if q == c {
      BlankLocal(d', c);
    } else if q != p {
      assert old(d.st[q].v.path) == q;
      OtherKept(d, d', p, q);
      Untied(d.st[q]);
    }
  }

  twostate lemma {:induction false} GraftStep(d: Dom, new d': Dom, new p: Path, new c: Path, new child: Template)
    requires old(Wf(d)) && p in d.st && Grafted(d, d', c, child) && Spares(d.world, {d.st[p]})
    requires c == Child(p, old(|d.st[p].v.scells|)) && d.st[p].v.path == p && |d.st[p].v.scells| == old(|d.st[p].v.scells|) + 1
    requires child.Blank(c) && Local(d', p)
    ensures Wf(d')
  {
    hide Local, Spares, SameTemplate, Template.Blank;
    forall q | q in d'.st
      ensures Local(d', q) && d'.st[q] in d'.world && d'.st[q].v.path == q && (q == d.root || |q| > |d.root|)
      ensures q != p && q != c ==> d.st[q].v.scells == old(d.st[q].v.scells)
    {
      GraftPlace(d, d', p, c, child, q);
    }
    forall q | q in d'.st && q != d.root && q != []
      ensures Up(q) in d'.st && q[|q| - 1] < |d'.st[Up(q)].v.scells|
    {
      if q != c {
        assert Up(q) in d.st;
        assert Up(q) != c;
      }
    }
  }

  twostate lemma {:induction false} GraftAbs(d: Dom, new d': Dom, new p: Path, new c: Path, new child: Template)
    requires old(Wf(d)) && Wf(d') && p in d.st && Grafted(d, d', c, child) && Spares(d.world, {d.st[p]}) && child.Blank(c) && c != p
    ensures Abs(d') == old(Abs(d))[p := d.st[p].v.sec][c := EMPTY]
  {
    hide Local, Spares, SameTemplate, Wf;
    forall q | q in d'.st
      ensures Abs(d')[q] == old(Abs(d))[p := d.st[p].v.sec][c := EMPTY][q]
    {
      if q != p && q != c {
        OtherKept(d, d', p, q);
        Untied(d.st[q]);
      }
    }
  }

  twostate lemma {:induction false} NothingMoved(d: Dom)
    requires Spares(d.world, {}) && forall q {:trigger d.st[q]} | q in d.st :: d.st[q] in d.world
    ensures Unheld(d) == old(Unheld(d))
  {
    hide Spares;
    forall q | q in d.st
      ensures SameBlocks(d.st[q])
    {
      OtherBlocks(d, {}, q);
    }
    UnheldSame(d);
  }

  twostate lemma {:induction false} NothingDone(d: Dom)
    requires old(Wf(d)) && Spares(d.world, {})
    ensures Unheld(d) == old(Unheld(d))
    ensures Wf(d) && Abs(d) == old(Abs(d)) && forall q | q in d.st :: d.st[q] in d.world && SameTemplate(d.st[q])
  {
    hide Local, Spares, SameTemplate;
    forall q | q in d.st
      ensures d.st[q] in d.world && SameTemplate(d.st[q]) && Local(d, q) && SameTies(d.st[q]) && d.st[q].v == old(d.st[q].v)
    {
      assert d.st[q] in d.world && old(Local(d, q));
      SparesAll(d, q);
      LocalKept(d, d, {}, q);
      Untied(d.st[q]);
    }
    NothingMoved(d);
    assert forall q | q in d.st && q != d.root && q != [] :: Up(q) in d.st && SameTies(d.st[Up(q)]);
  }

  twostate lemma {:induction false} SparesAll(d: Dom, new q: Path)
    requires q in d.st && d.st[q] in d.world && Spares(d.world, {})
    ensures SameTemplate(d.st[q])
  {
  }

  /** `cell`, with a blank record, is the new last section of `t`, at `c`. */
  ghost predicate Attached(t: Template, cell: SectionCell, tail: Link, d: Dom, d': Dom, c: Path, cells: seq<SectionCell>)
    reads t, cell.tpl
  {
    && Grafted(d, d', c, cell.tpl) && cell.tpl.Blank(c) && cell.tpl.tpl == cell.tpl && cell.tpl.parent == t
    && t.v.scells == cells + [cell] && tail == LinkTo(t, t.v.nodes, |t.v.nodes|)
  }

  /** A section cell at the end of section `p`, with a blank record, makes a new section. */
  twostate lemma {:induction false} GraftWhole(d: Dom, new d': Dom, new p: Path, new child: Template, new name: string)
    requires old(Wf(d)) && p in d.st && d.st[p] in d.world
    requires var t, c := d.st[p], Child(p, old(|d.st[p].v.scells|));
             && Grafted(d, d', c, child) && child.Blank(c)
             && Spares(d.world, {t}) && MainSame(t, d.world) && AddedSame(t, d.world) && FieldsSame(t, d.world) && t.SectionsOk(d'.world)
             && |t.v.scells| == old(|t.v.scells|) + 1 && t.v.scells[..old(|t.v.scells|)] == old(t.v.scells)
             && t.v.scells[old(|t.v.scells|)].tpl == child
             && t.v == old(t.v).(scells := t.v.scells, sec := AddSection(old(t.v.sec), name))
             && SecOk(t.v.sec)
    ensures Wf(d') && Abs(d') == old(Abs(d))[p := AddSection(old(Abs(d)[p]), name)][Child(p, old(|d.st[p].v.scells|)) := EMPTY]
  {
    hide Spares, MainSame, AddedSame, FieldsSame, SameTemplate, AddSection, SecOk;
    var c := Child(p, old(|d.st[p].v.scells|));
    assert old(Local(d, p)) && old(d.st[p].v.path) == p;
    MainStays(d, d', p);
    AddedStays(d, d', p);
    FieldsStay(d, d', p);
    GraftLocal(d, d', p, c, child);
    GraftStep(d, d', p, c, child);
    GraftAbs(d, d', p, c, child);
  }

  /** The new section cell hangs in section `p`, and its record holds nothing yet. */
  twostate lemma {:induction false} GraftBlocks(d: Dom, new d': Dom, new p: Path, new cell: SectionCell)
    requires old(Wf(d)) && p in d.st && fresh(cell) && fresh(cell.tpl) && d'.world == d.world + {cell, cell.tpl}
    requires var t, c := d.st[p], Child(p, old(|d.st[p].v.scells|));
             && Grafted(d, d', c, cell.tpl) && cell.tpl.Blank(c) && Spares(d.world, {t}) && c != p
             && t.v == old(t.v).(scells := old(t.v.scells) + [cell], sec := t.v.sec)
    ensures Unheld(d') == old(Unheld(d))
  {
    var t, c := d.st[p], Child(p, old(|d.st[p].v.scells|));
    assert Owned(cell.tpl) == {} && Owned(t) == old(Owned(t)) + {cell};
    hide Owned, Local, Spares, SameTemplate, Template.Blank;
    forall q | q in d.st && q != p
      ensures SameBlocks(d.st[q])
    {
      assert old(d.st[q].v.path) == q && old(d.st[p].v.path) == p;
      OtherBlocks(d, {t}, q);
    }
    forall o | o in d.world
      ensures Held(d', o) <==> old(Held(d, o))
    {
      GraftHolds(d, d', p, cell, o);
    }
    assert cell in Owned(d'.st[p]);
  }

  twostate lemma {:induction false} GraftHolds(d: Dom, new d': Dom, new p: Path, new cell: SectionCell, new o: object)
    requires p in d.st && p in d'.st && d'.st[p] == d.st[p]
    requires exists c :: d'.st == d.st[c := cell.tpl] && c !in d.st
    requires o in d.world && o != cell && Owned(cell.tpl) == {} && Owned(d.st[p]) == old(Owned(d.st[p])) + {cell}
    requires forall q {:trigger d.st[q]} | q in d.st && q != p :: SameBlocks(d.st[q])
    ensures Held(d', o) <==> old(Held(d, o))
  {
    hide Owned;
    forall q | q in d.st && q != p
      ensures o in Owned(d.st[q]) <==> o in old(Owned(d.st[q]))
    {
      HeldStill(d, q, o);
    }
    if q :| q in d'.st && o in Owned(d'.st[q]) {
      assert q in d.st && d.st[q] == d'.st[q];
    }
    if old(Held(d, o)) {
      var q :| q in d.st && o in old(Owned(d.st[q]));
      assert d'.st[q] == d.st[q];
    }
    assert d'.st[p] == d.st[p];
  }

  /** What making a section cell asks of the section. */
  lemma {:induction false} SectionParts(d: Dom, p: Path)
    requires Wf(d) && p in d.st
    ensures var t := d.st[p];
            && t in d.world && t.SectionsOk(d.world) && |t.v.nodes| == |t.v.sec.items|
            && |t.v.scells| == |t.v.sec.names| && Abs(d)[p] == t.v.sec && SecOk(t.v.sec) && Child(p, |t.v.scells|) !in d.st
  {
    assert Local(d, p);
    NoSuchChild(d, p, |d.st[p].v.scells|);
  }

  /** A new child at the end of section `p`, unless a section of the level already answers to the name. */
  method PushSection(t: Template, tail: Link, last: SectionCell?, name: string, ghost d: Dom, ghost p: Path)
    returns (cell: SectionCell?, ghost d': Dom)
    requires Wf(d) && p in d.st && d.st[p] == t && tail == LinkTo(t, t.v.nodes, |t.v.nodes|) && CleanName(name)
    requires last == if |t.v.scells| == 0 then null else t.v.scells[|t.v.scells| - 1]
    modifies d.world
    ensures Wf(d') && fresh(d'.world - d.world) && Spares(d.world, {t}) && t.tpl == old(t.tpl) && t.parent == old(t.parent) && Unheld(d') == old(Unheld(d))
    ensures cell == null <==> FirstMatch(old(t.v.sec.names), KeyOf(name)) < |old(t.v.sec.names)|
    ensures cell == null ==> d' == d && Abs(d') == old(Abs(d)) && SameTemplate(t)
    ensures cell != null ==> Attached(t, cell, tail, d, d', Child(p, |old(t.v.sec.names)|), old(t.v.scells))
    ensures cell != null ==> Abs(d') == old(Abs(d))[p := AddSection(old(Abs(d)[p]), name)][Child(p, |old(t.v.sec.names)|) := EMPTY]
  {
    hide Wf, Abs, Unheld, Spares, MainSame, AddedSame, FieldsSame, SameTemplate, SecOk, AddSection, Template.SectionsOk, Template.Blank;
    SectionParts(d, p);
    ghost var cells, c := t.v.scells, Child(p, |t.v.scells|);
    if FirstMatch(t.v.sec.names, KeyOf(name)) == |t.v.sec.names| {
      AddSectionOk(t.v.sec, name);
    }
    cell := MakeSectionFramed(t, tail, last, name, c, d.world);
    d' := d;
    if cell == null {
      NothingDone(d);
    } else {
      d' := Dom(d.root, d.st[c := cell.tpl], d.world + {cell, cell.tpl});
      assert t.v.scells[..|cells|] == cells;
      GraftWhole(d, d', p, cell.tpl, name);
      GraftBlocks(d, d', p, cell);
    }
  }
}
