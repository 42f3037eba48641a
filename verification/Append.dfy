/** Appending the selected section's content to itself. */
module TplAppend {
  import opened TplDocument
  import opened TplHeap
  import opened TplFrames
  import opened TplAccount
  import opened TplChains
  import opened TplContent

  /** The text of a run of nodes, built in a buffer of exactly the measured length. */
  method RunText(from: Node?, to: Node?, ghost t: Template, ghost w: set<object>, ghost i: nat, ghost a: nat)
    returns (text: string)
    requires t in w && t.MainOk(w) && t.FieldsOk(w) && i <= a <= |t.v.nodes|
    requires from == NodeAt(t.v.nodes, i) && to == NodeAt(t.v.nodes, a)
    ensures text == ItemsText(t.v.sec.items, t.v.sec.vals, i, a)
  {
    var len := RunLength(from, to, t, w, i, a);
    var buffer := new char[len];
    var end := CopyRun(buffer, 0, from, to, t, w, i, a);
    text := buffer[..];
  }

  /** The text between a node and a child's anchor. */
  method ChildText(t: Template, sect: SectionCell, node: Node?, ghost w: set<object>, ghost i: nat, ghost k: nat)
    returns (stop: Node?, text: string)
    requires Readable(t, w) && k < |t.v.scells| && sect == t.v.scells[k]
    requires i <= t.v.sec.anchors[k] && node == NodeAt(t.v.nodes, i)
    ensures t.v.sec.anchors[k] <= |t.v.sec.items| && stop == NodeAt(t.v.nodes, t.v.sec.anchors[k])
    ensures text == ItemsText(t.v.sec.items, t.v.sec.vals, i, t.v.sec.anchors[k])
  {
    LoadPreceding(t, w, k);
    stop := Load(sect.preceding);
    text := RunText(node, stop, t, w, i, t.v.sec.anchors[k]);
  }

  method PushContent(t: Template, text: string, ghost d: Dom, ghost p: Path) returns (ghost d': Dom)
    requires Wf(d) && p in d.st && d.st[p] == t
    modifies d.world
    ensures Wf(d') && Grown(d, d') && fresh(d'.world - d.world) && Shape(d') == old(Shape(d)) && Unheld(d') == old(Unheld(d))
    ensures Readded(old(Abs(d)), Abs(d'), map[p := old(Abs(d)[p].added) + text])
    ensures forall q | q in d.st && q != p :: d.st[q].addedHead == old(d.st[q].addedHead)
  {
    d' := PushAdded(t, text, d, p);
    AbsAdded(d, d', {t}, map[p := t.v.sec.added]);
    ShapeStays(d, d');
    forall q | q in d.st && q != p
      ensures d.st[q].addedHead == old(d.st[q].addedHead)
    {
      assert SameTemplate(d.st[q]);
    }
  }

  method TakeContent(t: Template, c: Template, ghost d: Dom, ghost p: Path, ghost q: Path)
    requires Wf(d) && p in d.st && d.st[p] == t && q in d.st && d.st[q] == c && p != q && c.addedHead != null
    modifies d.world
    ensures Wf(d) && Shape(d) == old(Shape(d)) && Unheld(d) == old(Unheld(d))
    ensures Readded(old(Abs(d)), Abs(d), map[p := old(Abs(d)[p].added + Abs(d)[q].added), q := ""])
  {
    Splice(t, c, d, p, q);
    AbsAdded(d, d, {t, c}, map[p := t.v.sec.added, q := ""]);
    ShapeStays(d, d);
  }

  method PushAndTake(t: Template, c: Template, text: string, ghost d: Dom, ghost p: Path, ghost q: Path)
    returns (ghost d': Dom)
    requires Wf(d) && p in d.st && d.st[p] == t && q in d.st && d.st[q] == c && p != q && c.addedHead != null
    modifies d.world
    ensures Wf(d') && Grown(d, d') && fresh(d'.world - d.world) && Shape(d') == old(Shape(d)) && Unheld(d') == old(Unheld(d))
    ensures Readded(old(Abs(d)), Abs(d'), map[p := old(Abs(d)[p].added) + text + old(Abs(d)[q].added), q := ""])
  {
    ghost var d1 := Abs(d);
    d' := PushContent(t, text, d, p);
    ghost var d2 := Abs(d');
    TakeContent(t, c, d', p, q);
    ReaddedTwice(d1, d2, Abs(d'), p, q, text);
  }

  /** A child with appended content: the text up to it, then its chain, move to the selected section. */
  method AppendTurn(cur: Template, sect: SectionCell, node: Node?, ghost d: Dom, ghost sel: Path, ghost i: nat, ghost k: nat)
    returns (stop: Node?, ghost d': Dom)
    requires Wf(d) && sel in d.st && d.st[sel] == cur && Readable(cur, d.world)
    requires k < |cur.v.scells| && sect == cur.v.scells[k] && sect.tpl.addedHead != null
    requires Child(sel, k) in d.st && sect.tpl == d.st[Child(sel, k)]
    requires i <= cur.v.sec.anchors[k] <= |cur.v.sec.items| && node == NodeAt(cur.v.nodes, i)
    modifies d.world
    ensures Wf(d') && Grown(d, d') && fresh(d'.world - d.world) && Shape(d') == old(Shape(d)) && Unheld(d') == old(Unheld(d))
    ensures stop == NodeAt(old(cur.v.nodes), old(cur.v.sec.anchors[k]))
    ensures Readded(old(Abs(d)), Abs(d'),
                    map[sel := old(Abs(d)[sel].added) + old(ItemsText(cur.v.sec.items, cur.v.sec.vals, i, cur.v.sec.anchors[k]))
                               + old(Abs(d)[Child(sel, k)].added),
                        Child(sel, k) := ""])
  {
    hide Wf, Abs, Shape, Unheld, Readded;
    var text;
    stop, text := ChildText(cur, sect, node, d.world, i, k);
    d' := PushAndTake(cur, sect.tpl, text, d, sel, Child(sel, k));
  }

  /** The loop over the children, standing before child `k`. */
  ghost predicate Appending(d: Dom, cur: Template, sel: Path, doc: Doc, sect: SectionCell?, node: Node?, i: nat, j: nat, k: nat)
    reads d.world
  {
    && Wf(d) && sel in d.st && d.st[sel] == cur && cur in d.world
    && doc.Keys == d.st.Keys && |doc[sel].anchors| == |cur.v.scells|
    && AppendReached(doc, sel, i, j, k) && Partly(doc, Abs(d), sel, i, j, k)
    && sect == SectionAt(cur.v.scells, k) && node == NodeAt(cur.v.nodes, i)
  }

  method AppendMove(cur: Template, sect: SectionCell, node: Node?, ghost d: Dom, ghost sel: Path, ghost doc: Doc,
                    ghost i: nat, ghost j: nat, ghost k: nat)
    returns (stop: Node?, ghost d': Dom)
    requires Appending(d, cur, sel, doc, sect, node, i, j, k) && k < |doc[sel].anchors|
    requires Readable(cur, d.world) && sect in d.world && sect.tpl.addedHead != null
    requires Child(sel, k) in d.st && sect.tpl == d.st[Child(sel, k)]
    modifies d.world
    ensures Grown(d, d') && fresh(d'.world - d.world) && Shape(d') == old(Shape(d)) && Unheld(d') == old(Unheld(d))
    ensures Appending(d', cur, sel, doc, sect.next, stop, doc[sel].anchors[k], k + 1, k + 1)
  {
    ghost var before, shape := Abs(d), Shape(d);
    PartlyHere(doc, before, sel, i, j, k);
    stop, d' := AppendTurn(cur, sect, node, d, sel, i, k);
    AppendTakes(doc, sel, i, j, k, ItemsText(doc[sel].items, doc[sel].vals, i, doc[sel].anchors[k]), before, Abs(d'));
    assert Shape(d')[sel] == shape[sel];
    NextCell(d', sel, k);
  }

  lemma {:induction false} AppendPass(cur: Template, sect: SectionCell, node: Node?, d: Dom, sel: Path, doc: Doc, i: nat, j: nat, k: nat)
    requires Appending(d, cur, sel, doc, sect, node, i, j, k) && k < |doc[sel].anchors|
    requires sect in d.world && Child(sel, k) in Abs(d) && Abs(d)[Child(sel, k)].added == ""
    ensures Appending(d, cur, sel, doc, sect.next, node, i, j, k + 1)
  {
    PartlyHere(doc, Abs(d), sel, i, j, k);
    AppendSkips(doc, Abs(d), sel, i, j, k);
    NextCell(d, sel, k);
  }

  method AppendStep(cur: Template, sect: SectionCell, node: Node?, ghost d: Dom, ghost sel: Path, ghost doc: Doc,
                    ghost i: nat, ghost j: nat, ghost k: nat)
    returns (node': Node?, ghost d': Dom, ghost i': nat, ghost j': nat)
    requires Appending(d, cur, sel, doc, sect, node, i, j, k)
    modifies d.world
    ensures Grown(d, d') && fresh(d'.world - d.world) && Shape(d') == old(Shape(d)) && Unheld(d') == old(Unheld(d))
    ensures sect in d.world && Appending(d', cur, sel, doc, sect.next, node', i', j', k + 1) && k < |doc[sel].anchors|
  {
    ChildCell(d, sel, k);
    if sect.tpl.addedHead != null {
      node', d' := AppendMove(cur, sect, node, d, sel, doc, i, j, k);
      i', j' := doc[sel].anchors[k], k + 1;
    } else {
      node', d', i', j' := node, d, i, j;
      AppendPass(cur, sect, node, d, sel, doc, i, j, k);
    }
  }

  lemma {:induction false} AppendedAll(cur: Template, node: Node?, d: Dom, sel: Path, doc: Doc, i: nat, j: nat, k: nat)
    requires Appending(d, cur, sel, doc, null, node, i, j, k)
    ensures k == |doc[sel].anchors| && Readable(cur, d.world) && i <= |cur.v.nodes|
    ensures doc[sel].items == cur.v.sec.items && doc[sel].vals == cur.v.sec.vals
    ensures d.root == [] ==> ChildrenWithin(doc, sel, k)
  {
    assert Local(d, sel);
    PartlyHere(doc, Abs(d), sel, i, j, k);
  }

  /** The text after the last child completes the appended content. */
  method AppendLast(cur: Template, node: Node?, ghost d: Dom, ghost sel: Path, ghost doc: Doc, ghost i: nat, ghost j: nat, ghost k: nat)
    returns (ghost d': Dom)
    requires d.root == [] && Appending(d, cur, sel, doc, null, node, i, j, k)
    modifies d.world
    ensures Wf(d') && Grown(d, d') && fresh(d'.world - d.world) && Shape(d') == old(Shape(d)) && Unheld(d') == old(Unheld(d))
    ensures Abs(d') == AppendDoc(doc, sel)
  {
    hide Wf, Abs, AppendDoc, RenderTo, Readded, Shape;
    ghost var before := Abs(d);
    AppendedAll(cur, node, d, sel, doc, i, j, k);
    var text := RunText(node, null, cur, d.world, i, |cur.v.nodes|);
    d' := PushContent(cur, text, d, sel);
    AppendEnds(doc, sel, i, j, text, before, Abs(d'));
  }

  lemma {:induction false} AppendFirst(d: Dom, sel: Path)
    requires Wf(d) && sel in d.st
    ensures Appending(d, d.st[sel], sel, Abs(d), d.st[sel].first, d.st[sel].head, 0, 0, 0)
  {
    assert Local(d, sel);
    AppendStarts(Abs(d), sel);
  }

  /** The body of tpl_append_section once a section is known to be selected. */
  method AppendSelected(cur: Template, ghost d: Dom, ghost sel: Path) returns (ghost d': Dom)
    requires Wf(d) && d.root == [] && sel in d.st && d.st[sel] == cur
    modifies d.world
    ensures Wf(d') && Grown(d, d') && fresh(d'.world - d.world) && Shape(d') == old(Shape(d)) && Unheld(d') == old(Unheld(d))
    ensures Abs(d') == AppendDoc(old(Abs(d)), sel)
  {
    hide Wf, Abs, Appending, AppendDoc, Shape, Unheld;
    WorldHolds(d);
    ghost var doc, shape, unheld := Abs(d), Shape(d), Unheld(d);
    d' := d;
    var sect := cur.first;
    var node := cur.head;
    ghost var i: nat, j: nat, k: nat := 0, 0, 0;
    AppendFirst(d, sel);
    while sect != null
      invariant Grown(d, d') && fresh(d'.world - d.world) && Shape(d') == shape && Unheld(d') == unheld
      invariant Appending(d', cur, sel, doc, sect, node, i, j, k)
      decreases |doc[sel].anchors| - k
    {
      ghost var i', j';
      node, d', i', j' := AppendStep(cur, sect, node, d', sel, doc, i, j, k);
      i, j, k := i', j', k + 1;
      sect := sect.next;
    }
    d' := AppendLast(cur, node, d', sel, doc, i, j, k);
  }

  /** tpl_append_section */
  method AppendSection(tpl: Template, ghost d: Dom, ghost sel: Path) returns (code: int, ghost d': Dom)
    requires Selected(d, sel) && d.st[[]] == tpl
    modifies d.world
    ensures Selected(d', sel) && Grown(d, d') && fresh(d'.world - d.world) && Shape(d') == old(Shape(d)) && Unheld(d') == old(Unheld(d))
    ensures code == if sel == [] then TPL_NO_SECTION_SELECTED_ERROR else TPL_OK
    ensures Abs(d') == if sel == [] then old(Abs(d)) else AppendDoc(old(Abs(d)), sel)
  {
    assert LinkedAt(d.st, Shape(d), sel, []);
    if tpl.tpl != tpl {
      d' := AppendSelected(tpl.tpl, d, sel);
      code := TPL_OK;
    } else {
      d' := d;
      code := TPL_NO_SECTION_SELECTED_ERROR;
    }
  }
}
