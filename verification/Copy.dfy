/** Copying a template. */
module TplCopy {
  import opened TplNames
  import opened TplDocument
  import opened TplHeap
  import opened TplFrames
  import opened TplAccount
  import opened TplChains
  import opened TplFields
  import opened TplSelection
  import opened TplContent
  import opened TplAppend
  import opened TplBuild
  import opened TplGrowth
  import opened TplSections
  import opened TplJoin

  // ----- the part of a section that is copied so far -----

  lemma {:induction false} UsesTo(items: seq<Item>, i: nat)
    requires Uses(items) >= 0 && i <= |items|
    ensures 0 <= Uses(items[..i]) <= Uses(items)
    decreases |items| - i
  {
    if i == |items| {
      assert items[..i] == items;
    } else {
      UsesTo(items, i + 1);
      assert items[..i + 1] == items[..i] + [items[i]];
      UsesSnoc(items[..i], items[i]);
    }
  }

  /** The first `i` items with their fields, and the first `k` children, of an orderly section. */
  function CopySec(s: Sec, i: nat, k: nat, added: string): Sec
    requires SecOk(s) && i <= |s.items| && k <= |s.names|
  {
    UsesTo(s.items, i);
    var u := Uses(s.items[..i]);
    Sec(s.items[..i], s.keys[..u], s.vals[..u], s.names[..k], s.anchors[..k], added)
  }

  lemma {:induction false} CopyNothing(s: Sec, added: string)
    requires SecOk(s)
    ensures CopySec(s, 0, 0, added) == EMPTY.(added := added)
  {
  }

  lemma {:induction false} CopyEverything(s: Sec, added: string)
    requires SecOk(s)
    ensures CopySec(s, |s.items|, |s.names|, added) == s.(added := added)
  {
    assert s.items[..|s.items|] == s.items;
  }

  lemma {:induction false} CopyTextStep(s: Sec, i: nat, k: nat, added: string)
    requires SecOk(s) && i < |s.items| && k <= |s.names| && s.items[i].Text?
    ensures AddText(CopySec(s, i, k, added), s.items[i].text) == CopySec(s, i + 1, k, added)
  {
    assert s.items[..i + 1] == s.items[..i] + [s.items[i]];
    UsesSnoc(s.items[..i], s.items[i]);
  }

  /** In an orderly table, cut off behind place `u`, an entry is found at its own place. */
  lemma {:induction false} FoundAt(keys: seq<Key>, u: nat, f: nat)
    requires Free(keys) && Filed(keys) && f <= u <= |keys| && f < |keys|
    ensures FirstMatch(keys[..u], KeyOf(keys[f].name)) == f
  {
    hide Hash;
    assert keys[f] == KeyOf(keys[f].name);
    FirstMatchIs(keys[..u], keys[f], f);
  }

  /** What one field more does to the number of fields used. */
  lemma {:induction false} UsesField(s: Sec, i: nat)
    requires SecOk(s) && i < |s.items| && s.items[i].Field?
    ensures var f, u := s.items[i].k, Uses(s.items[..i]);
            0 <= f <= u && f < |s.keys| && Uses(s.items[..i + 1]) == if f == u then u + 1 else u
  {
    hide Uses, Filed, Free, AnchorsOk;
    UsesTo(s.items, i);
    UsesTo(s.items, i + 1);
    assert s.items[..i + 1] == s.items[..i] + [s.items[i]];
    UsesSnoc(s.items[..i], s.items[i]);
  }

  /** A field is found at its own place, or is new there. */
  lemma {:induction false} CopyFieldStep(s: Sec, i: nat, k: nat, added: string)
    requires SecOk(s) && i < |s.items| && k <= |s.names| && s.items[i].Field? && s.items[i].k < |s.keys|
    ensures var f, a := s.items[i].k, CopySec(s, i, k, added);
            var b := AddField(a, s.keys[f].name);
            && b.items == a.items + [Field(f)] && |b.vals| == |b.keys| && f < |b.vals|
            && b.vals[f] == (if f < |a.vals| then s.vals[f] else "")
            && b.(vals := b.vals[f := s.vals[f]]) == CopySec(s, i + 1, k, added)
  {
    hide Hash, FirstMatch, Uses, Answers;
    var f, u := s.items[i].k, Uses(s.items[..i]);
    UsesTo(s.items, i);
    UsesField(s, i);
    FoundAt(s.keys, u, f);
    assert s.keys[f] == KeyOf(s.keys[f].name);
    assert s.items[..i + 1] == s.items[..i] + [s.items[i]];
    if f == u {
      assert s.keys[..u + 1] == s.keys[..u] + [s.keys[u]];
      assert s.vals[..u + 1] == (s.vals[..u] + [""])[u := s.vals[u]];
    } else {
      assert s.vals[..u] == s.vals[..u][f := s.vals[f]];
    }
  }

  lemma {:induction false} CopySectionStep(s: Sec, i: nat, k: nat, added: string)
    requires SecOk(s) && k < |s.names| && i <= |s.items| && s.anchors[k] == i
    ensures FirstMatch(CopySec(s, i, k, added).names, KeyOf(s.names[k].name)) == k == |CopySec(s, i, k, added).names|
    ensures AddSection(CopySec(s, i, k, added), s.names[k].name) == CopySec(s, i, k + 1, added)
  {
    assert s.names[k] == KeyOf(s.names[k].name);
    FirstMatchIs(s.names[..k], s.names[k], k);
  }

  // ----- the part of a document -----

  /** Section `p` up to item `i` and child `k`, with what lies below those children. */
  function CopyTo(doc: Doc, p: Path, i: nat, k: nat, added: string): Doc
    requires p in doc && SecOk(doc[p]) && i <= |doc[p].items| && k <= |doc[p].names|
  {
    map q | q in doc && (q == p || (p < q && q[|p|] < k)) :: if q == p then CopySec(doc[p], i, k, added) else doc[q]
  }

  /** Everything at and below `p`, where what is appended to `p` itself is `added`. */
  function CopyDoc(doc: Doc, p: Path, added: string): Doc {
    map q | q in doc && p <= q :: if q == p then doc[q].(added := added) else doc[q]
  }

  lemma {:induction false} CopyToItem(doc: Doc, p: Path, i: nat, j: nat, k: nat, added: string)
    requires p in doc && SecOk(doc[p]) && i <= |doc[p].items| && j <= |doc[p].items| && k <= |doc[p].names|
    ensures CopyTo(doc, p, i, k, added)[p := CopySec(doc[p], j, k, added)] == CopyTo(doc, p, j, k, added)
  {
  }

  lemma {:induction false} CopyTo0(doc: Doc, p: Path, i: nat, k: nat, added: string)
    requires p in doc && SecOk(doc[p]) && i <= |doc[p].items| && k <= |doc[p].names|
    ensures p in CopyTo(doc, p, i, k, added) && CopyTo(doc, p, i, k, added)[p] == CopySec(doc[p], i, k, added)
  {
  }

  /** A field pushed, then given its value. */
  lemma {:induction false} CopyToField(doc: Doc, p: Path, i: nat, k: nat, added: string)
    requires p in doc && SecOk(doc[p]) && i < |doc[p].items| && k <= |doc[p].names|
    requires doc[p].items[i].Field? && doc[p].items[i].k < |doc[p].keys|
    ensures var d0, f := CopyTo(doc, p, i, k, added), doc[p].items[i].k;
            && p in d0
            && var b := AddField(d0[p], doc[p].keys[f].name);
               && b.items == d0[p].items + [Field(f)] && f < |b.vals| && (b.vals[f] == "" || b.vals[f] == doc[p].vals[f])
               && d0[p := b][p := b.(vals := b.vals[f := doc[p].vals[f]])] == CopyTo(doc, p, i + 1, k, added)
  {
    hide CopySec, AddField;
    CopyTo0(doc, p, i, k, added);
    CopyFieldStep(doc[p], i, k, added);
    CopyToItem(doc, p, i, i + 1, k, added);
  }

  lemma {:induction false} CopyToChild(doc: Doc, p: Path, i: nat, k: nat, added: string, d1: Doc, text: string)
    requires p in doc && SecOk(doc[p]) && i <= |doc[p].items| && k < |doc[p].names|
    requires Child(p, k) in doc && text == doc[Child(p, k)].added
    requires d1 == CopyTo(doc, p, i, k, added)[p := CopySec(doc[p], i, k + 1, added)][Child(p, k) := EMPTY.(added := text)]
    ensures d1 + CopyDoc(doc, Child(p, k), text) == CopyTo(doc, p, i, k + 1, added)
  {
    var c := Child(p, k);
    var l, r := d1 + CopyDoc(doc, c, text), CopyTo(doc, p, i, k + 1, added);
    forall q
      ensures q in l <==> q in r
      ensures q in l ==> l[q] == r[q]
    {
      if p < q {
        assert c <= q <==> q[|p|] == k;
      }
    }
  }

  lemma {:induction false} CopyToAll(doc: Doc, p: Path, added: string)
    requires p in doc && SecOk(doc[p]) && forall q | q in doc && p < q :: q[|p|] < |doc[p].names|
    ensures CopyTo(doc, p, |doc[p].items|, |doc[p].names|, added) == CopyDoc(doc, p, added)
  {
    CopyEverything(doc[p], added);
  }

  // ----- the copy while it is made -----

  ghost predicate Copying(t: Template, d: Dom, doc: Doc, p: Path, i: nat, k: nat, added: string, tail: Link, last: SectionCell?)
    reads d.world
  {
    && p in doc && SecOk(doc[p]) && i <= |doc[p].items| && k <= |doc[p].names|
    && Wf(d) && d.root == p && p in d.st && d.st[p] == t && t in d.world && Abs(d) == CopyTo(doc, p, i, k, added)
    && tail == LinkTo(t, t.v.nodes, |t.v.nodes|) && last == LastOrNull(t.v.scells) && Unheld(d) == {}
  }

  method CopyText(t: Template, tail: Link, last: SectionCell?, text: string, ghost d: Dom, ghost doc: Doc, ghost p: Path,
                  ghost i: nat, ghost k: nat, ghost added: string, ghost sel: Path)
    returns (next: Link, ghost d': Dom)
    requires Copying(t, d, doc, p, i, k, added, tail, last) && Settled(d, sel)
    requires i < |doc[p].items| && doc[p].items[i] == Text(text)
    modifies d.world
    ensures Copying(t, d', doc, p, i + 1, k, added, next, last) && Settled(d', sel) && d.world <= d'.world && fresh(d'.world - d.world)
    ensures t.tpl == old(t.tpl) && t.parent == old(t.parent)
  {
    CopyTextStep(doc[p], i, k, added);
    CopyToItem(doc, p, i, i + 1, k, added);
    next, d' := PushText(t, tail, text, d, p);
    SettledKept(d, d', p, sel);
  }

  /** Writes a field cell of section `p`. */
  method WriteCell(t: Template, cell: FieldCell, val: string, ghost d: Dom, ghost p: Path, ghost f: nat)
    requires Wf(d) && p in d.st && d.st[p] == t && f < |t.v.fcells| && cell == t.v.fcells[f] && f < |t.v.sec.vals|
    modifies d.world
    ensures Wf(d) && Shape(d) == old(Shape(d)) && Unheld(d) == old(Unheld(d))
    ensures Abs(d) == old(Abs(d))[p := old(t.v.sec).(vals := old(t.v.sec.vals)[f := val])]
  {
    assert Local(d, p);
    WriteVal(t, cell, val, d.world, f);
    ValsStep(d, {t});
    ValsShape(d);
    ValsBlocks(d);
    CellAbs(d, p);
  }

  twostate lemma {:induction false} CellAbs(d: Dom, new p: Path)
    requires old(Wf(d)) && Wf(d) && p in d.st && OnlyVals(d.world) && Spares(d.world, {d.st[p]})
    ensures Abs(d) == old(Abs(d))[p := old(d.st[p].v.sec).(vals := d.st[p].v.sec.vals)]
  {
    hide Local, SameTemplate, Spares;
    forall q | q in d.st
      ensures q != p ==> Abs(d)[q] == old(Abs(d))[q]
    {
      if q != p {
        OtherKept(d, d, p, q);
        Untied(d.st[q]);
      }
    }
    assert SameButVals(d.st[p]);
  }

  twostate lemma {:induction false} SettledShape(d: Dom, new sel: Path)
    requires (forall p | p in d.st :: d.st[p] in d.world) && old(Settled(d, sel)) && Shape(d) == old(Shape(d))
    ensures Settled(d, sel)
  {
    forall q | q in d.st
      ensures SettledAt(d, sel, q)
    {
      assert old(SettledAt(d, sel, q));
      assert Shape(d)[q] == old(Shape(d))[q];
    }
  }

  /** The node at the end of a section's chain. */
  lemma {:induction false} LastField(d: Dom, p: Path, items: seq<Item>, f: nat)
    requires Wf(d) && p in d.st && Abs(d)[p].items == items + [Field(f)]
    ensures var t := d.st[p];
            && |t.v.nodes| == |items| + 1 && t.v.nodes[|items|] in d.world && f < |t.v.fcells|
            && t.v.nodes[|items|].fval == t.v.fcells[f] && t.v.fcells[f] in d.world && f < |t.v.sec.vals|
            && t.v.fcells[f].val == t.v.sec.vals[f] && t.v.sec == Abs(d)[p] && t in d.world
  {
    var t := d.st[p];
    assert Local(d, p) && t.MainNodeOk(d.world, |items|);
    assert t.FieldCellOk(d.world, f);
  }

  method CopyField(t: Template, tail: Link, last: SectionCell?, name: string, val: string, ghost d: Dom, ghost doc: Doc, ghost p: Path,
                   ghost i: nat, ghost k: nat, ghost added: string, ghost sel: Path)
    returns (next: Link, ghost d': Dom)
    requires Copying(t, d, doc, p, i, k, added, tail, last) && Settled(d, sel) && CleanName(name)
    requires i < |doc[p].items| && doc[p].items[i].Field? && doc[p].items[i].k < |doc[p].keys|
    requires name == doc[p].keys[doc[p].items[i].k].name && val == doc[p].vals[doc[p].items[i].k]
    modifies d.world
    ensures Copying(t, d', doc, p, i + 1, k, added, next, last) && Settled(d', sel) && d.world <= d'.world && fresh(d'.world - d.world)
    ensures t.tpl == old(t.tpl) && t.parent == old(t.parent)
  {
    hide CopySec, CopyTo, AddField, Wf, Abs, Unheld;
    CopyToField(doc, p, i, k, added);
    ghost var f, items := doc[p].items[i].k, CopyTo(doc, p, i, k, added)[p].items;
    next, d' := PushField(t, tail, name, d, p);
    SettledKept(d, d', p, sel);
    LastField(d', p, items, f);
    FillCell(t, next.n.fval, val, d', p, f, sel);
  }

  /** The second half of tpl_cpy_field: the value is copied into an empty cell. */
  method FillCell(t: Template, cell: FieldCell, val: string, ghost d: Dom, ghost p: Path, ghost f: nat, ghost sel: Path)
    requires Wf(d) && p in d.st && d.st[p] == t && f < |t.v.fcells| && cell == t.v.fcells[f] && f < |t.v.sec.vals| && Settled(d, sel)
    requires t.v.sec.vals[f] == "" || t.v.sec.vals[f] == val
    modifies d.world
    ensures Wf(d) && Settled(d, sel) && Shape(d) == old(Shape(d)) && p in d.st && Unheld(d) == old(Unheld(d))
    ensures t.tpl == old(t.tpl) && t.parent == old(t.parent) && t.v.nodes == old(t.v.nodes) && t.v.scells == old(t.v.scells)
    ensures Abs(d) == old(Abs(d))[p := old(t.v.sec).(vals := old(t.v.sec.vals)[f := val])]
  {
    assert Local(d, p) && t.FieldCellOk(d.world, f);
    hide Local, Settled, Unheld;
    if |cell.val| == 0 && |val| != 0 {
      WriteCell(t, cell, val, d, p, f);
      WorldHolds(d);
      SettledShape(d, sel);
      assert Shape(d)[p] == old(Shape(d))[p];
    } else {
      assert t.v.sec.vals[f := val] == t.v.sec.vals;
    }
  }

  // ----- the nodes of the source -----

  /** What the loops read: the source's section `p`, which the copy is made from. */
  ghost predicate Source(ds: Dom, doc: Doc, p: Path, src: Template)
    reads ds.world, src
  {
    p in ds.st && ds.st[p] == src && Readable(src, ds.world) && p in doc && src.v.sec == doc[p]
  }

  method CopyNode(n: Node, src: Template, t: Template, tail: Link, last: SectionCell?, ghost ds: Dom, ghost d: Dom, ghost doc: Doc,
                  ghost p: Path, ghost i: nat, ghost k: nat, ghost added: string, ghost sel: Path)
    returns (next: Link, ghost d': Dom)
    requires Source(ds, doc, p, src) && ds.world !! d.world && i < |src.v.nodes| && n == src.v.nodes[i]
    requires Copying(t, d, doc, p, i, k, added, tail, last) && Settled(d, sel)
    modifies d.world
    ensures Copying(t, d', doc, p, i + 1, k, added, next, last) && Settled(d', sel) && d.world <= d'.world && fresh(d'.world - d.world)
    ensures t.tpl == old(t.tpl) && t.parent == old(t.parent)
  {
    assert src.MainNodeOk(ds.world, i);
    if n.val.Some? {
      next, d' := CopyText(t, tail, last, n.val.value, d, doc, p, i, k, added, sel);
    } else {
      assert src.FieldCellOk(ds.world, doc[p].items[i].k);
      next, d' := CopyField(t, tail, last, n.fval.key.name, n.fval.val, d, doc, p, i, k, added, sel);
    }
  }

  /** The loop that copies the nodes up to `stop`. */
  method CopyNodes(from: Node?, stop: Node?, src: Template, t: Template, tail: Link, last: SectionCell?, ghost ds: Dom, ghost d: Dom,
                   ghost doc: Doc, ghost p: Path, ghost i: nat, ghost a: nat, ghost k: nat, ghost added: string, ghost sel: Path)
    returns (next: Link, ghost d': Dom)
    requires Source(ds, doc, p, src) && ds.world !! d.world && i <= a <= |src.v.nodes|
    requires from == NodeAt(src.v.nodes, i) && stop == NodeAt(src.v.nodes, a)
    requires Copying(t, d, doc, p, i, k, added, tail, last) && Settled(d, sel)
    modifies d.world
    ensures Copying(t, d', doc, p, a, k, added, next, last) && Settled(d', sel) && d.world <= d'.world && fresh(d'.world - d.world)
    ensures t.tpl == old(t.tpl) && t.parent == old(t.parent)
  {
    hide Copying, Settled;
    next, d' := tail, d;
    var n := from;
    ghost var j := i;
    while n != stop
      invariant i <= j <= a && n == NodeAt(src.v.nodes, j)
      invariant Copying(t, d', doc, p, j, k, added, next, last) && Settled(d', sel) && d.world <= d'.world && fresh(d'.world - d.world)
      invariant t.tpl == old(t.tpl) && t.parent == old(t.parent)
      decreases a - j
    {
      assert src.MainNodeOk(ds.world, j);
      next, d' := CopyNode(n, src, t, next, last, ds, d', doc, p, j, k, added, sel);
      n := n.next;
      j := j + 1;
    }
    MainIndex(src, ds.world, j, a);
  }

  /** The appended chain of a child as one text, built in a buffer of exactly the measured length. */
  method AddedText(c: Template, ghost w: set<object>) returns (text: string)
    requires c in w && c.AddedOk(w)
    ensures text == c.v.sec.added
  {
    var len := AddedRunLength(c.addedHead, c, w);
    var buffer := new char[len];
    var end := CopyAdded(buffer, 0, c.addedHead, c, w);
    text := buffer[..];
  }

  // ----- the selection -----

  /** The copy has the source's sections at and below its root, with as many children each. */
  ghost predicate Mirrors(d: Dom, ds: Dom)
    reads d.world, ds.world
  {
    && Wf(d) && Wf(ds) && d.world !! ds.world
    && (forall q {:trigger d.st[q]} | q in d.st :: q in ds.st && |d.st[q].v.scells| == |ds.st[q].v.scells|)
    && (forall q {:trigger ds.st[q]} | q in ds.st && d.root <= q :: q in d.st)
  }

  /** Section `r` lies below a child of `q` from the j-th on. */
  predicate Ahead(q: Path, j: nat, r: Path) {
    q < r && r[|q|] >= j
  }

  twostate lemma {:induction false} MirrorsStill(d: Dom, new ds: Dom, new t: Template)
    requires old(allocated(ds)) && old(Mirrors(d, ds)) && t in d.world && OnlyPointers(d.world)
    requires forall o: object | o in ds.world :: unchanged(o)
    ensures Mirrors(d, ds)
  {
    PointerStep(d);
    forall q | q in d.st
      ensures q in ds.st && |d.st[q].v.scells| == |ds.st[q].v.scells|
    {
      assert d.st[q] in d.world && SameButPointer(d.st[q]);
    }
  }

  predicate AheadTo(q: Path, j: nat, r: Path, x: nat) {
    Ahead(q, j, r) && r[|q|] < x
  }

  lemma {:induction false} AheadBounds(q: Path, j: nat, r: Path, n: nat)
    requires j <= n && (q < r ==> r[|q|] < n)
    ensures !AheadTo(q, j, r, j) && (AheadTo(q, j, r, n) <==> Ahead(q, j, r))
    ensures r <= q ==> !Ahead(q, j, r)
    ensures forall x {:trigger AheadTo(q, j, r, x)} :: AheadTo(q, j, r, x) ==> Ahead(q, j, r)
  {
  }

  lemma {:induction false} AheadFrom(q: Path, j: nat, x: nat, r: Path)
    requires j <= x
    ensures AheadTo(q, j, r, x + 1) <==> AheadTo(q, j, r, x) || Child(q, x) <= r
    ensures Ahead(Child(q, x), 0, r) <==> Child(q, x) < r
  {
    if q < r && r[|q|] == x {
      assert r[..|q| + 1] == Child(q, x);
    }
  }

  lemma {:induction false} SameRecord(d: Dom, q: Path, r: Path)
    requires Wf(d) && q in d.st && r in d.st
    ensures d.st[q] == d.st[r] <==> q == r
  {
    assert d.st[q].v.path == q && d.st[r].v.path == r;
  }

  lemma {:induction false} PairedCells(d: Dom, ds: Dom, q: Path, x: nat)
    requires Mirrors(d, ds) && q in d.st && x < |d.st[q].v.scells|
    ensures q in ds.st && x < |ds.st[q].v.scells| && Child(q, x) in d.st && Child(q, x) in ds.st
    ensures d.st[q].v.scells[x].tpl == d.st[Child(q, x)] && ds.st[q].v.scells[x].tpl == ds.st[Child(q, x)]
    ensures d.st[q].v.scells[x].next == SectionAt(d.st[q].v.scells, x + 1)
    ensures ds.st[q].v.scells[x].next == SectionAt(ds.st[q].v.scells, x + 1)
    ensures d.st[Child(q, x)].first == SectionAt(d.st[Child(q, x)].v.scells, 0)
    ensures ds.st[Child(q, x)].first == SectionAt(ds.st[Child(q, x)].v.scells, 0)
  {
    assert d.st[q] == d.st[q];
    ChildCell(d, q, x);
    ChildCell(ds, q, x);
    NextCell(d, q, x);
    NextCell(ds, q, x);
    FirstCell(d, Child(q, x));
    FirstCell(ds, Child(q, x));
  }

  method PointTo(t: Template, to: Template, ghost d: Dom, ghost ds: Dom, ghost p: Path)
    requires Mirrors(d, ds) && p in d.st && d.st[p] == t
    modifies t`tpl
    ensures Mirrors(d, ds) && t.tpl == to
  {
    assert t in d.world && t !in ds.world;
    t.tpl := to;
    MirrorsStill(d, ds, t);
  }

  lemma {:induction false} MirrorRecords(d: Dom, ds: Dom, q: Path, r: Path)
    requires Mirrors(d, ds) && q in ds.st && r in ds.st
    ensures ds.st[q] == ds.st[r] <==> q == r
  {
    SameRecord(ds, q, r);
  }

  /** One child of `q`, and what lies below it. */
  method AdjustOne(t: Template, src: Template, sec: SectionCell, srcsec: SectionCell,
                   ghost d: Dom, ghost ds: Dom, ghost p: Path, ghost q: Path, ghost x: nat, ghost r: Path)
    requires Mirrors(d, ds) && p in d.st && d.st[p] == t && q in d.st && x < |d.st[q].v.scells| && t.tpl == t
    requires r in ds.st && src.tpl == ds.st[r] && src.tpl != src && p in ds.st && src == ds.st[p] && ds.root == []
    requires sec == d.st[q].v.scells[x] && srcsec == ds.st[q].v.scells[x] && p <= q
    modifies t`tpl
    ensures Mirrors(d, ds)
    ensures if Child(q, x) <= r then r in d.st && t.tpl == d.st[r] else t.tpl == t
    decreases Under(ds.st.Keys, q), 0
  {
    hide Mirrors, Wf, Ahead, AheadTo;
    ghost var c := Child(q, x);
    PairedCells(d, ds, q, x);
    MirrorRecords(d, ds, c, r);
    UnderShrinks(ds.st.Keys, q, x);
    AheadFrom(q, x, x, r);
    if src.tpl == srcsec.tpl {
      PointTo(t, sec.tpl, d, ds, p);
    } else {
      AdjustSelection(t, src, sec.tpl.first, srcsec.tpl.first, d, ds, p, c, 0, r);
    }
  }

  /** tpl_adjust_selection: looks, among the children of `q` from the j-th on and below them, for the section
      that the source's `tpl` pointer leads to. */
  method AdjustSelection(t: Template, src: Template, sec: SectionCell?, srcsec: SectionCell?,
                         ghost d: Dom, ghost ds: Dom, ghost p: Path, ghost q: Path, ghost j: nat, ghost r: Path)
    requires Mirrors(d, ds) && p in d.st && d.st[p] == t && q in d.st && j <= |d.st[q].v.scells| && t.tpl == t && p <= q
    requires r in ds.st && src.tpl == ds.st[r] && p in ds.st && src == ds.st[p] && q in ds.st && ds.root == []
    requires sec == SectionAt(d.st[q].v.scells, j) && srcsec == SectionAt(ds.st[q].v.scells, j)
    modifies t`tpl
    ensures Mirrors(d, ds)
    ensures if Ahead(q, j, r) then r in d.st && t.tpl == d.st[r] else t.tpl == t
    decreases Under(ds.st.Keys, q), 1
  {
    hide Mirrors, Wf, Ahead, AheadTo;
    var sec1, sec2 := srcsec, sec;
    ghost var x: nat, cells, srccells := j, d.st[q].v.scells, ds.st[q].v.scells;
    AdjustFacts(d, ds, p, q, r);
    AheadBounds(q, j, r, |cells|);
    if src.tpl != src {
      while t.tpl == t && sec1 != null
        invariant Mirrors(d, ds) && j <= x <= |cells| && d.st[q].v.scells == cells && ds.st[q].v.scells == srccells
        invariant sec1 == SectionAt(srccells, x) && sec2 == SectionAt(cells, x)
        invariant if AheadTo(q, j, r, x) then r in d.st && t.tpl == d.st[r] && t.tpl != t else t.tpl == t
        decreases |cells| - x
      {
        PairedCells(d, ds, q, x);
        AheadFrom(q, j, x, r);
        var next1, next2 := sec1.next, sec2.next;
        AdjustOne(t, src, sec2, sec1, d, ds, p, q, x, r);
        sec1, sec2 := next1, next2;
        x := x + 1;
      }
    }
  }

  lemma {:induction false} AdjustFacts(d: Dom, ds: Dom, p: Path, q: Path, r: Path)
    requires Mirrors(d, ds) && p in d.st && p in ds.st && q in d.st && r in ds.st && |ds.root| <= |q|
    ensures ds.st[p] == ds.st[r] <==> p == r
    ensures r in d.st && r != p ==> d.st[r] != d.st[p]
    ensures q in ds.st && |ds.st[q].v.scells| == |d.st[q].v.scells|
    ensures q < r ==> r[|q|] < |d.st[q].v.scells|
  {
    SameRecord(ds, p, r);
    if r in d.st {
      SameRecord(d, r, p);
    }
    SameCount(d, ds, q, r);
  }

  /** A section below `q` lies below one of its children. */
  lemma {:induction false} SameCount(d: Dom, ds: Dom, q: Path, r: Path)
    requires Mirrors(d, ds) && q in d.st && r in ds.st && |ds.root| <= |q|
    ensures q in ds.st && |ds.st[q].v.scells| == |d.st[q].v.scells|
    ensures q < r ==> r[|q|] < |d.st[q].v.scells|
  {
    assert Tree(ds) && d.st[q] == d.st[q];
    if q < r {
      ChildOf(ds, q, r);
    }
  }

  // ----- a child of the copy -----

  /** The k-th child is made, with its appended content and nothing else. */
  ghost predicate Awaits(t: Template, d: Dom, doc: Doc, p: Path, i: nat, k: nat, added: string, tail: Link, cell: SectionCell, text: string)
    reads d.world
  {
    var c := Child(p, k);
    && p in doc && SecOk(doc[p]) && i <= |doc[p].items| && k < |doc[p].names|
    && Wf(d) && d.root == p && p in d.st && d.st[p] == t && t in d.world && c in d.st
    && Abs(d) == CopyTo(doc, p, i, k, added)[p := CopySec(doc[p], i, k + 1, added)][c := EMPTY.(added := text)]
    && tail == LinkTo(t, t.v.nodes, |t.v.nodes|) && cell == LastOrNull(t.v.scells) && Unheld(d) == {}
    && cell in d.world && cell.tpl == d.st[c] && cell.tpl != t && cell.tpl in d.world && Bare(cell.tpl)
    && cell.tpl.tpl == cell.tpl && cell.tpl.parent == t
  }

  ghost predicate Bare(child: Template)
    reads child
  {
    child.v.nodes == [] && child.v.fcells == [] && child.v.scells == []
  }

  twostate lemma {:induction false} SettledButShape(d: Dom, new d': Dom, new sel: Path, new c: Path)
    requires (forall p | p in d.st :: d.st[p] in d.world) && Grown(d, d') && old(SettledBut(d, sel, c)) && Shape(d') == old(Shape(d))
    ensures SettledBut(d', sel, c)
  {
    forall q | q in d.st && q != c
      ensures SettledAt(d', sel, q)
    {
      assert old(SettledAt(d, sel, q));
      assert Shape(d')[q] == old(Shape(d))[q];
    }
  }

  method MakeChild(t: Template, tail: Link, last: SectionCell?, name: string, ghost d: Dom, ghost doc: Doc, ghost p: Path,
                   ghost i: nat, ghost k: nat, ghost added: string, ghost sel: Path)
    returns (cell: SectionCell, ghost d': Dom)
    requires Copying(t, d, doc, p, i, k, added, tail, last) && Settled(d, sel)
    requires k < |doc[p].names| && name == doc[p].names[k].name && CleanName(name) && doc[p].anchors[k] == i
    modifies d.world
    ensures Awaits(t, d', doc, p, i, k, added, tail, cell, "") && SettledBut(d', sel, Child(p, k)) && d.world <= d'.world && fresh(d'.world - d.world)
    ensures t.tpl == old(t.tpl) && t.parent == old(t.parent)
  {
    ghost var c, cells := Child(p, k), t.v.scells;
    CopySectionStep(doc[p], i, k, added);
    CopyTo0(doc, p, i, k, added);
    ChildCount(d, p);
    hide CopySec, CopyTo;
    var made;
    made, d' := PushSection(t, tail, last, name, d, p);
    cell := made;
    SettledGrafted(d, d', p, c, cell.tpl, sel);
    AttachedAwaits(t, cell, tail, d, d', doc, p, i, k, added, cells);
  }

  lemma {:induction false} ChildCount(d: Dom, p: Path)
    requires Wf(d) && p in d.st
    ensures |d.st[p].v.scells| == |Abs(d)[p].names| && d.st[p].v.sec == Abs(d)[p]
  {
    assert Local(d, p);
  }

  lemma {:induction false} AttachedAwaits(t: Template, cell: SectionCell, tail: Link, d: Dom, d': Dom, doc: Doc, p: Path,
                                          i: nat, k: nat, added: string, cells: seq<SectionCell>)
    requires p in doc && SecOk(doc[p]) && i <= |doc[p].items| && k < |doc[p].names| && |cells| == k
    requires Attached(t, cell, tail, d, d', Child(p, k), cells) && d.root == p && p in d.st && d.st[p] == t && Wf(d') && Unheld(d') == {}
    requires Abs(d') == CopyTo(doc, p, i, k, added)[p := CopySec(doc[p], i, k + 1, added)][Child(p, k) := EMPTY]
    ensures Awaits(t, d', doc, p, i, k, added, tail, cell, "")
  {
    hide CopyTo, CopySec;
    WorldHolds(d');
    assert Local(d', p) && t.SectionCellOk(d'.world, k);
    assert EMPTY.(added := "") == EMPTY;
  }

  /** Its appended content, as one node. */
  method GiveAdded(t: Template, cell: SectionCell, text: string, ghost tail: Link, ghost d: Dom, ghost doc: Doc, ghost p: Path,
                   ghost i: nat, ghost k: nat, ghost added: string, ghost sel: Path)
    returns (ghost d': Dom)
    requires Awaits(t, d, doc, p, i, k, added, tail, cell, "") && SettledBut(d, sel, Child(p, k))
    modifies d.world
    ensures Awaits(t, d', doc, p, i, k, added, tail, cell, text) && SettledBut(d', sel, Child(p, k)) && d.world <= d'.world && fresh(d'.world - d.world)
    ensures t.tpl == old(t.tpl) && t.parent == old(t.parent)
  {
    hide Wf, Abs, CopySec, CopyTo, Readded, SettledBut, Unheld;
    WorldHolds(d);
    ghost var c, b, doc0 := Child(p, k), Shape(d), Abs(d);
    d' := PushContent(cell.tpl, text, d, c);
    SettledButShape(d, d', sel, c);
    assert Shape(d')[p] == b[p] && Shape(d')[c] == b[c];
    AddedOnly(doc0, Abs(d'), c, text);
  }

  lemma {:induction false} AddedOnly(d1: Doc, d2: Doc, c: Path, text: string)
    requires c in d1 && Readded(d1, d2, map[c := d1[c].added + text]) && d1[c] == EMPTY.(added := "")
    ensures d2 == d1[c := EMPTY.(added := text)]
  {
    assert "" + text == text;
  }

  /** The record of a bare section, on its own. */
  ghost function Alone(d: Dom, c: Path): Dom
    requires c in d.st
    reads d.st[c]
  {
    var self: set<object>, nodes: set<object> := {d.st[c]}, set n | n in d.st[c].v.addedNodes;
    Dom(c, map[c := d.st[c]], self + nodes)
  }

  lemma {:induction false} AloneWf(d: Dom, c: Path)
    requires Wf(d) && c in d.st && Bare(d.st[c])
    ensures Wf(Alone(d, c)) && Alone(d, c).world <= d.world && Abs(Alone(d, c)) == map[c := Abs(d)[c]]
    ensures Unheld(Alone(d, c)) == {} && Owned(d.st[c]) <= Alone(d, c).world
  {
    var t, a := d.st[c], Alone(d, c);
    assert Local(d, c);
    AddedHomes(t, d.world);
    forall i | 0 <= i < |t.v.addedNodes|
      ensures t.AddedNodeOk(a.world, i)
    {
      assert t.AddedNodeOk(d.world, i);
    }
    AloneHeld(d, c);
  }

  lemma {:induction false} AloneHeld(d: Dom, c: Path)
    requires c in d.st && Bare(d.st[c])
    ensures Unheld(Alone(d, c)) == {} && Owned(d.st[c]) <= Alone(d, c).world
  {
    var t, a := d.st[c], Alone(d, c);
    assert a.st[c] == t;
    forall o | o in a.world && !(o is Template)
      ensures Held(a, o)
    {
      assert o in Owned(a.st[c]);
    }
  }

  /** A step on a bare section and its appended nodes. */
  twostate lemma {:induction false} SparesAlone(d: Dom, new c: Path)
    requires old(Wf(d)) && c in d.st
    requires forall o: object | o in d.world && o !in old(Alone(d, c).world) :: unchanged(o)
    ensures Spares(d.world, {d.st[c]})
  {
    assert old(Local(d, c));
    OldAddedHomes(d, c);
  }

  twostate lemma {:induction false} OldAddedHomes(d: Dom, new c: Path)
    requires old(Wf(d)) && c in d.st
    ensures forall n | n in old(d.st[c].v.addedNodes) :: old(n.home).Added? && old(n.home.t) == d.st[c]
  {
    assert old(Local(d, c));
    forall i | 0 <= i < old(|d.st[c].v.addedNodes|)
      ensures old(d.st[c].v.addedNodes[i].home) == Added(d.st[c], i)
    {
      assert old(d.st[c].AddedNodeOk(d.world, i));
    }
  }

  /** A whole source document with section `sel` selected, which the copy is made from. */
  ghost predicate From(ds: Dom, doc: Doc, sel: Path)
    reads ds.world
  {
    Selected(ds, sel) && Abs(ds) == doc
  }

  method CopyChild(t: Template, cell: SectionCell, src: Template, ghost text: string, ghost tail: Link, ghost ds: Dom, ghost d: Dom, ghost doc: Doc,
                   ghost p: Path, ghost i: nat, ghost k: nat, ghost added: string, ghost sel: Path)
    returns (ghost d': Dom)
    requires From(ds, doc, sel) && ds.world !! d.world && Child(p, k) in ds.st && ds.st[Child(p, k)] == src && text == doc[Child(p, k)].added
    requires Awaits(t, d, doc, p, i, k, added, tail, cell, text) && SettledBut(d, sel, Child(p, k))
    modifies d.world
    ensures Copying(t, d', doc, p, i, k + 1, added, tail, cell) && Settled(d', sel) && d.world <= d'.world && fresh(d'.world - d.world)
    ensures t.tpl == old(t.tpl) && t.parent == old(t.parent)
    decreases Under(ds.st.Keys, Child(p, k)), 5
  {
    hide CopySec, CopyTo, CopyDoc, Local, Unheld, Owned;
    ghost var c := Child(p, k);
    AloneWf(d, c);
    NoneBelow(d, c);
    StartsCopy(d, ds, doc, c, text);
    label given:
    ghost var dc := Copy(cell.tpl, src, ds, Alone(d, c), doc, c, text, sel);
    d' := Joined(d, dc);
    SparesAlone@given(d, c);
    ChildJoined@given(d, dc, t, doc, p, i, k, added, tail, cell, text, sel);
  }

  /** A finished child joined with the copy. */
  twostate lemma {:induction false} ChildJoined(d: Dom, new dc: Dom, new t: Template, new doc: Doc, new p: Path, new i: nat, new k: nat,
                                                new added: string, new tail: Link, new cell: SectionCell, new text: string, new sel: Path)
    requires old(allocated(t) && allocated(cell) && allocated(tail)) && old(Awaits(t, d, doc, p, i, k, added, tail, cell, text))
    requires var c := Child(p, k);
             && c in d.st && Spares(d.world, {d.st[c]}) && old(SettledBut(d, sel, c)) && (forall q {:trigger d.st[q]} | q in d.st :: !(c < q))
             && c in doc && text == doc[c].added
             && Unheld(dc) == {} && old(Owned(d.st[c])) <= dc.world
             && Wf(dc) && dc.root == c && c in dc.st && dc.st[c] == d.st[c] && Abs(dc) == CopyDoc(doc, c, text) && Settled(dc, sel)
             && Target(sel, c) in dc.st && d.st[c].tpl == dc.st[Target(sel, c)] && d.st[c].parent == old(d.st[c].parent)
    ensures Copying(t, Joined(d, dc), doc, p, i, k + 1, added, tail, cell) && Settled(Joined(d, dc), sel)
    ensures t.tpl == old(t.tpl) && t.parent == old(t.parent)
  {
    hide CopySec, CopyTo, CopyDoc, Abs, Spares, Wf, Settled, SettledBut, Unheld, Owned, Joined;
    var c := Child(p, k);
    WorldHolds(dc);
    Appose(d, dc, c);
    JoinStep(d, dc, c);
    JoinAbs(d, dc, c);
    JoinSettled(d, dc, c, sel);
    JoinedBlocks(d, dc, c);
    JoinAgrees(d, dc, c);
    JoinedParts(d, dc);
    CopyToChild(doc, p, i, k, added, old(Abs(d)), text);
    SparedTemplate(d, c, t);
  }

  twostate lemma {:induction false} SparedTemplate(d: Dom, new c: Path, new t: Template)
    requires c in d.st && t in d.world && t != d.st[c] && Spares(d.world, {d.st[c]})
    ensures SameTemplate(t)
  {
  }

  lemma {:induction false} SectionFine(d: Dom, p: Path)
    requires Wf(d) && p in d.st
    ensures SecOk(Abs(d)[p])
  {
    assert Local(d, p);
  }

  lemma {:induction false} AloneThere(d: Dom, c: Path)
    requires c in d.st
    ensures Alone(d, c).root == c && Alone(d, c).st == map[c := d.st[c]] && d.st[c] in Alone(d, c).world
  {
  }

  lemma {:induction false} NothingCopied(doc: Doc, c: Path, text: string)
    requires c in doc && SecOk(doc[c])
    ensures CopyTo(doc, c, 0, 0, text) == map[c := EMPTY.(added := text)]
  {
    CopyNothing(doc[c], text);
  }

  lemma {:induction false} StartsCopy(d: Dom, ds: Dom, doc: Doc, c: Path, text: string)
    requires Wf(ds) && Abs(ds) == doc && c in ds.st && Wf(d) && c in d.st && Bare(d.st[c]) && Abs(d)[c] == EMPTY.(added := text)
    ensures Copying(d.st[c], Alone(d, c), doc, c, 0, 0, text, HeadOf(d.st[c]), null)
  {
    hide Wf, Abs, Local, Alone, CopySec, CopyTo, Unheld;
    AbsKeys(ds);
    AbsKeys(d);
    SectionFine(ds, c);
    AloneWf(d, c);
    AloneThere(d, c);
    NothingCopied(doc, c, text);
  }

  lemma {:induction false} SourceOf(ds: Dom, doc: Doc, sel: Path, p: Path)
    requires From(ds, doc, sel) && p in ds.st
    ensures Source(ds, doc, p, ds.st[p])
  {
    assert Local(ds, p);
  }

  /** What the source's k-th section cell says. */
  lemma {:induction false} SourceCell(ds: Dom, doc: Doc, sel: Path, p: Path, k: nat)
    requires From(ds, doc, sel) && p in ds.st && k < |ds.st[p].v.scells|
    ensures var s, c := ds.st[p].v.scells[k], Child(p, k);
            && p in doc && SecOk(doc[p]) && k < |doc[p].names| && CleanName(s.key.name) && s.key == doc[p].names[k]
            && ds.st[p] in ds.world && s in ds.world && s.next == SectionAt(ds.st[p].v.scells, k + 1)
            && c in ds.st && c in doc && s.tpl == ds.st[c] && s.tpl in ds.world && s.tpl.AddedOk(ds.world)
            && s.tpl.v.sec.added == doc[c].added && (s.tpl.addedHead == null ==> doc[c].added == "")
  {
    assert Local(ds, p) && ds.st[p].SectionCellOk(ds.world, k);
    ChildCell(ds, p, k);
    assert Local(ds, Child(p, k));
  }

  method FindStop(curr: SectionCell, src: Template, ghost w: set<object>, ghost k: nat) returns (stop: Node?)
    requires Readable(src, w) && k < |src.v.scells| && curr == src.v.scells[k] && k < |src.v.sec.anchors|
    ensures src.v.sec.anchors[k] <= |src.v.nodes| && stop == NodeAt(src.v.nodes, src.v.sec.anchors[k])
  {
    LoadPreceding(src, w, k);
    stop := Load(curr.preceding);
  }

  /** The new child's content: what is appended to it, then what is in it. */
  method CopyInto(t: Template, cell: SectionCell, curr: SectionCell, ghost tail: Link, ghost ds: Dom, ghost d: Dom,
                  ghost doc: Doc, ghost p: Path, ghost i: nat, ghost k: nat, ghost added: string, ghost sel: Path)
    returns (ghost d': Dom)
    requires From(ds, doc, sel) && ds.world !! d.world && p in ds.st && k < |ds.st[p].v.scells| && curr == ds.st[p].v.scells[k]
    requires Awaits(t, d, doc, p, i, k, added, tail, cell, "") && SettledBut(d, sel, Child(p, k))
    modifies d.world
    ensures Copying(t, d', doc, p, i, k + 1, added, tail, cell) && Settled(d', sel) && d.world <= d'.world && fresh(d'.world - d.world)
    ensures t.tpl == old(t.tpl) && t.parent == old(t.parent)
    decreases Under(ds.st.Keys, p), 0
  {
    hide From, Copying, Settled, SettledBut, Awaits;
    SourceCell(ds, doc, sel, p, k);
    UnderShrinks(ds.st.Keys, p, k);
    d' := d;
    if curr.tpl.addedHead != null {
      var text := AddedText(curr.tpl, ds.world);
      d' := GiveAdded(t, cell, text, tail, d, doc, p, i, k, added, sel);
      SourceCell(ds, doc, sel, p, k);
    }
    d' := CopyChild(t, cell, curr.tpl, doc[Child(p, k)].added, tail, ds, d', doc, p, i, k, added, sel);
  }

  /** The nodes before the k-th child are copied: the child is next. */
  method CopyNext(curr: SectionCell, t: Template, tail: Link, last: SectionCell?, ghost ds: Dom, ghost d: Dom,
                  ghost doc: Doc, ghost p: Path, ghost i: nat, ghost k: nat, ghost added: string, ghost sel: Path)
    returns (cell: SectionCell, ghost d': Dom)
    requires From(ds, doc, sel) && ds.world !! d.world && p in ds.st && k < |ds.st[p].v.scells| && curr == ds.st[p].v.scells[k]
    requires Copying(t, d, doc, p, i, k, added, tail, last) && Settled(d, sel) && k < |doc[p].anchors| && i == doc[p].anchors[k]
    modifies d.world
    ensures Copying(t, d', doc, p, i, k + 1, added, tail, cell) && Settled(d', sel) && d.world <= d'.world && fresh(d'.world - d.world)
    ensures t.tpl == old(t.tpl) && t.parent == old(t.parent)
    decreases Under(ds.st.Keys, p), 1
  {
    hide From, Copying, Settled, SettledBut, Awaits;
    SourceCell(ds, doc, sel, p, k);
    cell, d' := MakeChild(t, tail, last, curr.key.name, d, doc, p, i, k, added, sel);
    d' := CopyInto(t, cell, curr, tail, ds, d', doc, p, i, k, added, sel);
  }

  lemma {:induction false} SourceReadable(ds: Dom, doc: Doc, p: Path, src: Template)
    requires Source(ds, doc, p, src)
    ensures Readable(src, ds.world) && src in ds.world && src.v.sec == doc[p] && SecOk(doc[p])
    ensures |src.v.nodes| == |doc[p].items| && |src.v.scells| == |doc[p].names| == |doc[p].anchors|
    ensures src.head == NodeAt(src.v.nodes, 0) && src.first == SectionAt(src.v.scells, 0)
  {
  }

  /** One turn of the loop over the sections: the nodes up to the child, then the child. */
  method CopySection(curr: SectionCell, from: Node?, src: Template, t: Template, tail: Link, last: SectionCell?, ghost ds: Dom, ghost d: Dom,
                     ghost doc: Doc, ghost p: Path, ghost i: nat, ghost k: nat, ghost added: string, ghost sel: Path)
    returns (stop: Node?, next: Link, cell: SectionCell, ghost d': Dom)
    requires From(ds, doc, sel) && ds.world !! d.world && p in ds.st && ds.st[p] == src && Source(ds, doc, p, src)
    requires p in doc && k < |src.v.scells| && curr == src.v.scells[k] && k < |doc[p].anchors| && i <= doc[p].anchors[k] && from == NodeAt(src.v.nodes, i)
    requires Copying(t, d, doc, p, i, k, added, tail, last) && Settled(d, sel)
    modifies d.world
    ensures doc[p].anchors[k] <= |src.v.nodes| && stop == NodeAt(src.v.nodes, doc[p].anchors[k])
    ensures Copying(t, d', doc, p, doc[p].anchors[k], k + 1, added, next, cell) && Settled(d', sel) && d.world <= d'.world && fresh(d'.world - d.world)
    ensures t.tpl == old(t.tpl) && t.parent == old(t.parent)
    decreases Under(ds.st.Keys, p), 2
  {
    hide From, Copying, Settled, Readable, Source, Local;
    ghost var a := doc[p].anchors[k];
    SourceReadable(ds, doc, p, src);
    stop := FindStop(curr, src, ds.world, k);
    next, d' := CopyNodes(from, stop, src, t, tail, last, ds, d, doc, p, i, a, k, added, sel);
    cell, d' := CopyNext(curr, t, next, last, ds, d', doc, p, a, k, added, sel);
  }

  lemma {:induction false} MirrorsSource(d: Dom, ds: Dom, doc: Doc, p: Path, added: string)
    requires Wf(d) && Wf(ds) && Abs(ds) == doc && Abs(d) == CopyDoc(doc, p, added) && d.root == p && d.world !! ds.world
    ensures Mirrors(d, ds)
  {
    forall q | q in d.st
      ensures q in ds.st && |d.st[q].v.scells| == |ds.st[q].v.scells|
    {
      assert q in Abs(d);
      ChildCount(d, q);
      ChildCount(ds, q);
    }
    forall q | q in ds.st && p <= q
      ensures q in d.st
    {
      assert q in Abs(d);
    }
  }

  twostate lemma {:induction false} SettledAbove(d: Dom, new sel: Path)
    requires old(Wf(d)) && old(Settled(d, sel))
    requires forall q | q in d.st && q != d.root :: d.st[q].tpl == old(d.st[q].tpl) && d.st[q].parent == old(d.st[q].parent)
    ensures Settled(d, sel)
  {
    forall q | q in d.st
      ensures SettledAt(d, sel, q)
    {
      assert old(SettledAt(d, sel, q));
    }
  }

  lemma {:induction false} MirrorsWf(d: Dom, ds: Dom)
    requires Mirrors(d, ds)
    ensures Wf(d) && Wf(ds)
  {
  }

  /** Points a record back to itself, then along the source's selection. */
  method Adjust(t: Template, src: Template, ghost d: Dom, ghost ds: Dom, ghost p: Path, ghost r: Path)
    requires Mirrors(d, ds) && p in d.st && d.st[p] == t && p in ds.st && ds.st[p] == src && ds.root == [] && d.root == p
    requires r in ds.st && src.tpl == ds.st[r] && p <= r
    modifies t`tpl
    ensures Mirrors(d, ds) && Abs(d) == old(Abs(d)) && Unheld(d) == old(Unheld(d)) && r in d.st && t.tpl == d.st[r]
  {
    hide Mirrors, Wf, Abs, Ahead;
    MirrorsWf(d, ds);
    FirstCell(d, p);
    FirstCell(ds, p);
    AheadBelow(p, r);
    PointTo(t, t, d, ds, p);
    AdjustSelection(t, src, t.first, src.first, d, ds, p, p, 0, r);
    MirrorsWf(d, ds);
    PointedAbs(d, t);
  }

  lemma {:induction false} AheadBelow(p: Path, r: Path)
    requires p <= r
    ensures Ahead(p, 0, r) <==> p != r
  {
  }

  twostate lemma {:induction false} PointedAbs(d: Dom, new t: Template)
    requires old(Wf(d)) && Wf(d) && t in d.world && SameButPointer(t) && forall o: object | o in d.world && o != t :: unchanged(o)
    ensures Abs(d) == old(Abs(d)) && Unheld(d) == old(Unheld(d))
  {
    assert OnlyPointers(d.world);
    PointerBlocks(d);
    PointerAbs(d);
  }

  /** The end of tpl_copy: the `tpl` pointer. */
  method CopySelection(t: Template, src: Template, ghost ds: Dom, ghost d: Dom, ghost doc: Doc, ghost p: Path, ghost added: string, ghost sel: Path)
    requires From(ds, doc, sel) && ds.world !! d.world && p in ds.st && ds.st[p] == src
    requires Wf(d) && d.root == p && p in d.st && d.st[p] == t && Abs(d) == CopyDoc(doc, p, added) && Settled(d, sel)
    modifies t`tpl
    ensures Wf(d) && Abs(d) == CopyDoc(doc, p, added) && Settled(d, sel) && Unheld(d) == old(Unheld(d))
    ensures Target(sel, p) in d.st && t.tpl == d.st[Target(sel, p)]
  {
    hide Local, Mirrors;
    assert LinkedAt(ds.st, Shape(ds), sel, p);
    MirrorsSource(d, ds, doc, p, added);
    OtherRecords(d, p);
    Adjust(t, src, d, ds, p, Target(sel, p));
    MirrorsWf(d, ds);
    SettledAbove(d, sel);
  }

  lemma {:induction false} OtherRecords(d: Dom, p: Path)
    requires Wf(d) && p in d.st
    ensures forall q | q in d.st && q != p :: d.st[q] != d.st[p]
  {
    forall q | q in d.st && q != p
      ensures d.st[q] != d.st[p]
    {
      SameRecord(d, q, p);
    }
  }

  lemma {:induction false} SettledAlone(d: Dom, p: Path, t: Template, sel: Path)
    requires d.st == map[p := t] && d.root == p
    ensures Settled(d, sel)
  {
  }

  lemma {:induction false} Copied(t: Template, d: Dom, ds: Dom, doc: Doc, p: Path, sel: Path, i: nat, k: nat, added: string, tail: Link, last: SectionCell?)
    requires Copying(t, d, doc, p, i, k, added, tail, last) && i == |doc[p].items| && k == |doc[p].names|
    requires From(ds, doc, sel) && p in ds.st
    ensures Wf(d) && d.root == p && p in d.st && d.st[p] == t && Abs(d) == CopyDoc(doc, p, added) && Unheld(d) == {}
  {
    assert Tree(ds);
    ChildCount(ds, p);
    forall q | q in doc && p < q
      ensures q[|p|] < |doc[p].names|
    {
      ChildOf(ds, p, q);
    }
    CopyToAll(doc, p, added);
  }

  lemma {:induction false} CopyRoot(t: Template, d: Dom, doc: Doc, p: Path, i: nat, k: nat, added: string, tail: Link, last: SectionCell?)
    requires Copying(t, d, doc, p, i, k, added, tail, last)
    ensures d.root == p && t in d.world && Wf(d)
  {
  }

  /** tpl_copy into a record that is new but for its appended content. */
  method Copy(t: Template, src: Template, ghost ds: Dom, ghost d: Dom, ghost doc: Doc, ghost p: Path, ghost added: string, ghost sel: Path)
    returns (ghost d': Dom)
    requires From(ds, doc, sel) && ds.world !! d.world && p in ds.st && ds.st[p] == src
    requires Copying(t, d, doc, p, 0, 0, added, HeadOf(t), null) && d.st == map[p := t]
    modifies d.world
    ensures Wf(d') && d'.root == p && p in d'.st && d'.st[p] == t && d.world <= d'.world && fresh(d'.world - d.world)
    ensures Abs(d') == CopyDoc(doc, p, added) && Settled(d', sel) && Unheld(d') == {}
    ensures Target(sel, p) in d'.st && t.tpl == d'.st[Target(sel, p)] && t.parent == old(t.parent)
    decreases Under(ds.st.Keys, p), 4
  {
    hide From, Copying, Settled, Source, Wf, Abs, Readable, CopyDoc, Target, Unheld;
    SourceOf(ds, doc, sel, p);
    SourceReadable(ds, doc, p, src);
    CopyRoot(t, d, doc, p, 0, 0, added, HeadOf(t), null);
    SettledAlone(d, p, t, sel);
    ghost var srccells, nodes := src.v.scells, src.v.nodes;
    var tail, last := HeadOf(t), null;
    var curr, node := src.first, src.head;
    d' := d;
    ghost var i: nat, k: nat := 0, 0;
    while curr != null
      invariant From(ds, doc, sel) && Source(ds, doc, p, src) && src.v.scells == srccells && src.v.nodes == nodes
      invariant k <= |srccells| && curr == SectionAt(srccells, k) && i == (if k == 0 then 0 else doc[p].anchors[k - 1])
      invariant i <= |nodes| && node == NodeAt(nodes, i)
      invariant ds.world !! d'.world && d.world <= d'.world && fresh(d'.world - d.world) && t.tpl == old(t.tpl) && t.parent == old(t.parent)
      invariant Copying(t, d', doc, p, i, k, added, tail, last) && Settled(d', sel)
      decreases |srccells| - k
    {
      SourceCell(ds, doc, sel, p, k);
      SourceReadable(ds, doc, p, src);
      var next := curr.next;
      ghost var a := doc[p].anchors[k];
      node, tail, last, d' := CopySection(curr, node, src, t, tail, last, ds, d', doc, p, i, k, added, sel);
      curr := next;
      i, k := a, k + 1;
    }
    tail, d' := CopyNodes(node, null, src, t, tail, last, ds, d', doc, p, i, |nodes|, k, added, sel);
    Copied(t, d', ds, doc, p, sel, |nodes|, k, added, tail, last);
    CopySelection(t, src, ds, d', doc, p, added, sel);
  }
}
