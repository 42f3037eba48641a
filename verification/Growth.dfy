/** Steps that add a node, a field cell or a section cell at the end of its chain. */
module TplGrowth {
  import opened TplNames
  import opened TplDocument
  import opened TplHeap
  import opened TplFrames
  import opened TplAccount
  import opened TplFields
  import opened TplBuild

  // ----- what a step leaves well formed -----

  /** The record stands where it stood, with the same children. */
  twostate predicate SamePlace(t: Template)
    reads t
  {
    t.v.path == old(t.v.path) && t.v.scells == old(t.v.scells)
  }

  twostate predicate SameTies(t: Template)
    reads t
  {
    SamePlace(t) && t.tpl == old(t.tpl) && t.parent == old(t.parent)
  }

  twostate lemma {:induction false} OtherKept(d: Dom, new d': Dom, new p: Path, new q: Path)
    requires old(Wf(d)) && p in d.st && q in d.st && q != p && d.world <= d'.world && Spares(d.world, {d.st[p]})
    requires forall r {:trigger d.st[r]} | r in d.st :: r in d'.st && d'.st[r] == d.st[r]
    ensures d.st[q] in d.world && SameTemplate(d.st[q]) && Local(d', q)
  {
    assert old(d.st[p].v.path) == p && old(d.st[q].v.path) == q;
    assert old(Local(d, q));
    LocalKept(d, d', {d.st[p]}, q);
    assert SameTemplate(d.st[q]);
  }

  /** A step on the section `p` that adds no section. */
  twostate lemma {:induction false} GrowStep(d: Dom, new d': Dom, new p: Path)
    requires old(Wf(d)) && p in d.st && Grown(d, d') && Spares(d.world, {d.st[p]})
    requires SamePlace(d.st[p]) && Local(d', p)
    ensures Wf(d')
  {
    hide Local, Spares, SameTemplate;
    forall q | q in d.st
      ensures Local(d', q) && SamePlace(d.st[q]) && d.st[q] in d'.world
    {
      if q != p {
        OtherKept(d, d', p, q);
        Untied(d.st[q]);
      }
    }
    forall q | q in d.st && q != d.root && q != []
      ensures Up(q) in d.st && q[|q| - 1] < |d.st[Up(q)].v.scells|
    {
      assert SamePlace(d.st[Up(q)]);
    }
  }

  twostate lemma {:induction false} Untied(t: Template)
    requires SameTemplate(t)
    ensures SameTies(t) && SamePlace(t) && t.v == old(t.v)
  {
  }

  twostate lemma {:induction false} GrowAbs(d: Dom, new d': Dom, new p: Path)
    requires old(Wf(d)) && p in d.st && Grown(d, d') && Spares(d.world, {d.st[p]}) && Wf(d')
    ensures Abs(d') == old(Abs(d))[p := d.st[p].v.sec]
  {
    hide Local, Spares, SameTemplate, Wf;
    forall q | q in d.st
      ensures Abs(d')[q] == old(Abs(d))[p := d.st[p].v.sec][q]
    {
      if q != p {
        OtherKept(d, d', p, q);
        Untied(d.st[q]);
      }
    }
  }

  // ----- the main chain -----

  /** Writes a node through the address kept in `tail`. */
  method StoreMain(tail: Link, n: Node, ghost t: Template)
    requires tail == LinkTo(t, t.v.nodes, |t.v.nodes|)
    modifies t`head, if t.v.nodes == [] then {} else {t.v.nodes[|t.v.nodes| - 1]}`next
    ensures if t.v.nodes == [] then t.head == n
            else t.v.nodes[|t.v.nodes| - 1].next == n && t.head == old(t.head)
  {
    if tail.NextOf? {
      tail.n.next := n;
    } else {
      tail.t.head := n;
    }
  }

  lemma {:induction false} MainHomes(t: Template, w: set<object>)
    requires t.MainOk(w)
    ensures forall n | n in t.v.nodes :: n in w && n.home.Main? && n.home.t == t
    ensures forall i, j | 0 <= i < j < |t.v.nodes| :: t.v.nodes[i] != t.v.nodes[j]
  {
    forall i | 0 <= i < |t.v.nodes|
      ensures t.v.nodes[i] in w && t.v.nodes[i].home == Main(t, i)
    {
      assert t.MainNodeOk(w, i);
    }
  }

  twostate lemma {:induction false} MainSnoc(t: Template, new w: set<object>, new w': set<object>, new n: Node, new it: Item)
    requires old(allocated(w)) && old(t.MainOk(w)) && n !in w && w <= w' && n in w'
    requires n.home == Main(t, old(|t.v.nodes|)) && n.next == null && t.Shows(n, it)
    requires t.v.nodes == old(t.v.nodes) + [n] && t.v.sec.items == old(t.v.sec.items) + [it]
    requires old(t.v.fcells) <= t.v.fcells
    requires t.head == NodeAt(t.v.nodes, 0)
    requires forall m | m in old(t.v.nodes) :: m.val == old(m.val) && m.fval == old(m.fval) && m.home == old(m.home)
    requires forall i | 0 <= i < old(|t.v.nodes|) - 1 :: old(t.v.nodes)[i].next == old(t.v.nodes[i].next)
    requires old(t.v.nodes) != [] ==> old(t.v.nodes)[old(|t.v.nodes|) - 1].next == n
    ensures t.MainOk(w')
  {
    forall i | 0 <= i < |t.v.nodes|
      ensures t.MainNodeOk(w', i)
    {
      if i < |t.v.nodes| - 1 {
        assert old(t.MainNodeOk(w, i));
      }
    }
  }

  /** The chain step: a node showing `it` is hung behind the last one. */
  method LinkMain(t: Template, tail: Link, n: Node, ghost it: Item, ghost w: set<object>)
    requires t in w && t.MainOk(w) && tail == LinkTo(t, t.v.nodes, |t.v.nodes|)
    requires n !in w && n.next == null && n.home == Main(t, |t.v.nodes|) && t.Shows(n, it)
    modifies t`head, t`v, t.v.nodes
    ensures t.MainOk(w + {n})
    ensures t.v == old(t.v).(nodes := old(t.v.nodes) + [n], sec := old(t.v.sec).(items := old(t.v.sec.items) + [it]))
  {
    MainHomes(t, w);
    StoreMain(tail, n, t);
    t.v := t.v.(nodes := t.v.nodes + [n], sec := t.v.sec.(items := t.v.sec.items + [it]));
    MainSnoc(t, w, w + {n}, n, it);
  }

  /** Nodes were added behind the others; the sections are as before. */
  twostate predicate SectionsExtend(t: Template, w: set<object>)
    reads t, w
  {
    && t.first == old(t.first) && t.sections == old(t.sections)
    && t.v.scells == old(t.v.scells) && old(t.v.nodes) <= t.v.nodes
    && t.v.sec.names == old(t.v.sec.names) && t.v.sec.anchors == old(t.v.sec.anchors)
    && forall c: SectionCell {:trigger SameSection(c)} | c in w && c.owner == t :: SameSection(c)
  }

  twostate lemma {:induction false} SectionsReach(d: Dom, new d': Dom, new p: Path)
    requires p in d.st && d.st[p] in d.world && d.world <= d'.world && SectionsExtend(d.st[p], d.world)
    requires old(d.st[p].SectionsOk(d.world)) && AnchorsOk(d.st[p].v.sec.anchors, old(|d.st[p].v.nodes|))
    ensures d.st[p].SectionsOk(d'.world)
  {
    var t := d.st[p];
    forall h | 0 <= h < HASH_TABLE_SIZE
      ensures t.SectionBucketOk(h)
    {
      assert old(t.SectionBucketOk(h));
    }
    forall k | 0 <= k < |t.v.scells|
      ensures t.SectionCellOk(d'.world, k)
    {
      assert old(t.SectionCellOk(d.world, k));
      assert SameSection(t.v.scells[k]);
      assert t.v.sec.anchors[k] <= old(|t.v.nodes|);
    }
  }

  twostate lemma {:induction false} LocalPushed(d: Dom, new d': Dom, new p: Path)
    requires old(Wf(d)) && p in d.st && Grown(d, d') && d.st[p] in d.world && SameTies(d.st[p])
    requires var t := d.st[p]; t.MainOk(d'.world) && t.AddedOk(d'.world) && t.FieldsOk(d'.world) && t.SectionsOk(d'.world) && SecOk(t.v.sec)
    ensures Local(d', p)
  {
    assert old(Local(d, p));
    var t := d.st[p];
    forall k | 0 <= k < |t.v.scells|
      ensures Child(p, k) in d'.st && t.v.scells[k].tpl == d'.st[Child(p, k)]
    {
      assert Child(p, k) in d.st;
    }
  }

  // ----- a new field cell -----

  /** Writes a field cell through the address the bucket search ended at. */
  method StoreField(t: Template, cell: FieldCell, prev: FieldCell?, bucket: nat)
    requires bucket < |t.fields|
    modifies t`fields, if prev == null then {} else {prev}`next
    ensures if prev == null then t.fields == old(t.fields)[bucket := cell] else prev.next == cell && t.fields == old(t.fields)
  {
    if prev == null {
      t.fields := t.fields[bucket := cell];
    } else {
      prev.next := cell;
    }
  }

  ghost function LastAt(prev: FieldCell?): int {
    if prev == null then -1 else prev.at
  }

  twostate lemma {:induction false} FieldsSnoc(t: Template, new w: set<object>, new w': set<object>, new cell: FieldCell, new prev: FieldCell?)
    requires old(allocated(w)) && w <= w' && cell in w' && old(t.FieldsOk(w))
    requires cell.owner == t && cell.at == old(|t.v.fcells|) && cell.next == null && cell.key.bucket < HASH_TABLE_SIZE
    requires t.v.fcells == old(t.v.fcells) + [cell] && t.v.sec.keys == old(t.v.sec.keys) + [cell.key]
    requires t.v.sec.vals == old(t.v.sec.vals) + [cell.val]
    requires LastOf(old(t.v.sec.keys), cell.key.bucket, LastAt(prev))
    requires prev != null ==> prev.at < old(|t.v.fcells|) && old(t.v.fcells)[prev.at] == prev
    requires if prev == null then t.fields == old(t.fields)[cell.key.bucket := cell] else t.fields == old(t.fields)
    requires forall i | 0 <= i < old(|t.v.fcells|) ::
               && old(t.v.fcells)[i].val == old(t.v.fcells[i].val)
               && old(t.v.fcells)[i].next == if i == LastAt(prev) then cell else old(t.v.fcells[i].next)
    ensures t.FieldsOk(w')
  {
    var keys := old(t.v.sec.keys);
    forall h | 0 <= h < HASH_TABLE_SIZE
      ensures t.FieldBucketOk(h)
    {
      assert old(t.FieldBucketOk(h));
      BucketHeadGrows(keys, cell.key, LastAt(prev), h);
    }
    forall k | 0 <= k < |t.v.fcells|
      ensures t.FieldCellOk(w', k)
    {
      if k < |keys| {
        assert old(t.FieldCellOk(w, k));
        BucketCellGrows(keys, cell.key, LastAt(prev), k);
      }
    }
  }

  /** A new cell at the end of its bucket, and the node that shows it at the end of the main chain. */
  twostate lemma {:induction false} OwnedMore(t: Template, new ns: seq<Node>, new cells: seq<FieldCell>)
    requires t.v.nodes == old(t.v.nodes) + ns && t.v.fcells == old(t.v.fcells) + cells
    requires t.v.addedNodes == old(t.v.addedNodes) && t.v.scells == old(t.v.scells)
    ensures Owned(t) == old(Owned(t)) + (set n | n in ns) + set c | c in cells
  {
  }

  method LinkNew(t: Template, tail: Link, n: Node, cell: FieldCell, prev: FieldCell?, ghost w: set<object>)
    requires t in w && t.MainOk(w) && t.FieldsOk(w) && tail == LinkTo(t, t.v.nodes, |t.v.nodes|)
    requires n !in w && n.next == null && n.home == Main(t, |t.v.nodes|) && n.val == None && n.fval == cell
    requires cell !in w && cell.owner == t && cell.at == |t.v.fcells| && cell.next == null && cell.key.bucket < HASH_TABLE_SIZE
    requires Searching(t, cell.key, prev, |t.v.fcells|)
    modifies t`head, t`v, t`fields, t.v.nodes, if prev == null then {} else {prev}`next
    ensures t.MainOk(w + {n, cell}) && t.FieldsOk(w + {n, cell})
    ensures t.v == old(t.v).(nodes := old(t.v.nodes) + [n], fcells := old(t.v.fcells) + [cell],
                             sec := old(t.v.sec).(items := old(t.v.sec.items) + [Field(old(|t.v.fcells|))],
                                                  keys := old(t.v.sec.keys) + [cell.key],
                                                  vals := old(t.v.sec.vals) + [cell.val]))
  {
    MainHomes(t, w);
    FieldsDistinct(t, w);
    StoreMain(tail, n, t);
    StoreField(t, cell, prev, cell.key.bucket);
    t.v := t.v.(nodes := t.v.nodes + [n], fcells := t.v.fcells + [cell],
                sec := t.v.sec.(items := t.v.sec.items + [Field(|t.v.fcells|)],
                                keys := t.v.sec.keys + [cell.key], vals := t.v.sec.vals + [cell.val]));
    MainSnoc(t, w, w + {n, cell}, n, Field(|t.v.fcells| - 1));
    FieldsSnoc(t, w, w + {n, cell}, cell, prev);
  }

  lemma {:induction false} NotFound(t: Template, w: set<object>, k: Key, prev: FieldCell?)
    requires t.FieldsOk(w) && Searching(t, k, prev, |t.v.fcells|)
    ensures FirstMatch(t.v.sec.keys, k) == |t.v.fcells| == |t.v.sec.keys|
  {
    FirstMatchIs(t.v.sec.keys, k, |t.v.fcells|);
  }

  // ----- a node at the end of a section -----

  method LinkText(t: Template, tail: Link, text: string, ghost w: set<object>) returns (n: Node)
    requires t in w && t.MainOk(w) && tail == LinkTo(t, t.v.nodes, |t.v.nodes|)
    modifies t`head, t`v, t.v.nodes
    ensures fresh(n) && t.MainOk(w + {n})
    ensures t.v == old(t.v).(nodes := old(t.v.nodes) + [n], sec := AddText(old(t.v.sec), text))
  {
    n := new Node(text, Main(t, |t.v.nodes|));
    LinkMain(t, tail, n, Text(text), w);
  }

  /** A node that shows a cell the section has already. */
  method LinkShared(t: Template, tail: Link, n: Node, ghost k: nat, ghost w: set<object>)
    requires t in w && t.MainOk(w) && t.FieldsOk(w) && tail == LinkTo(t, t.v.nodes, |t.v.nodes|)
    requires n !in w && n.next == null && n.home == Main(t, |t.v.nodes|) && n.val == None && k < |t.v.fcells| && n.fval == t.v.fcells[k]
    modifies t`head, t`v, t.v.nodes
    ensures t.MainOk(w + {n}) && t.FieldsOk(w + {n})
    ensures t.v == old(t.v).(nodes := old(t.v.nodes) + [n], sec := old(t.v.sec).(items := old(t.v.sec.items) + [Field(k)]))
  {
    MainHomes(t, w);
    LinkMain(t, tail, n, Field(k), w);
    FieldsWiden(t, w, w + {n});
  }

  /** What was made for a field: a node, and a cell if none answered. */
  ghost predicate FieldMade(before: seq<FieldCell>, after: seq<FieldCell>, n: Node, more: set<object>) {
    if after == before then more == {n}
    else |after| == |before| + 1 && after == before + [after[|before|]] && more == {n, after[|before|]}
  }

  twostate lemma {:induction false} FieldBlocks(t: Template, new n: Node, new more: set<object>)
    requires t.v.nodes == old(t.v.nodes) + [n] && t.v.addedNodes == old(t.v.addedNodes) && t.v.scells == old(t.v.scells)
    requires FieldMade(old(t.v.fcells), t.v.fcells, n, more)
    ensures Owned(t) == old(Owned(t)) + more
  {
    hide Owned;
    var before, after := old(t.v.fcells), t.v.fcells;
    if after == before {
      OwnedMore(t, [n], []);
    } else {
      OwnedMore(t, [n], [after[|before|]]);
    }
  }

  method LinkField(t: Template, tail: Link, name: string, ghost w: set<object>) returns (n: Node, ghost more: set<object>)
    requires t in w && t.MainOk(w) && t.FieldsOk(w) && tail == LinkTo(t, t.v.nodes, |t.v.nodes|) && CleanName(name)
    modifies t`head, t`v, t`fields, t.v.nodes, t.v.fcells
    ensures fresh(more) && t.MainOk(w + more) && t.FieldsOk(w + more) && FieldMade(old(t.v.fcells), t.v.fcells, n, more)
    ensures t.v == old(t.v).(nodes := old(t.v.nodes) + [n], fcells := t.v.fcells, sec := AddField(old(t.v.sec), name))
  {
    hide Template.MainOk, Searching, LinkTo;
    var cell, prev, bucket := FindField(t, name, w);
    n := new Node("", Main(t, |t.v.nodes|));
    n.val := None;
    if cell == null {
      NotFound(t, w, KeyOf(name), prev);
      cell := new FieldCell(Key(name, bucket), t, |t.v.fcells|);
      n.fval := cell;
      more := {n, cell};
      LinkNew(t, tail, n, cell, prev, w);
    } else {
      n.fval := cell;
      more := {n};
      LinkShared(t, tail, n, FirstMatch(t.v.sec.keys, KeyOf(name)), w);
    }
  }

  method LinkTextFramed(t: Template, tail: Link, text: string, ghost w: set<object>) returns (n: Node)
    requires t in w && t.MainOk(w) && tail == LinkTo(t, t.v.nodes, |t.v.nodes|)
    modifies w
    ensures fresh(n) && t.MainOk(w + {n}) && Spares(w, {t}) && SameTies(t)
    ensures AddedSame(t, w) && FieldsSame(t, w) && SectionsExtend(t, w)
    ensures t.v == old(t.v).(nodes := old(t.v.nodes) + [n], sec := AddText(old(t.v.sec), text))
  {
    MainHomes(t, w);
    n := LinkText(t, tail, text, w);
  }

  method LinkFieldFramed(t: Template, tail: Link, name: string, ghost w: set<object>) returns (n: Node, ghost more: set<object>)
    requires t in w && t.MainOk(w) && t.FieldsOk(w) && tail == LinkTo(t, t.v.nodes, |t.v.nodes|) && CleanName(name)
    modifies w
    ensures fresh(more) && t.MainOk(w + more) && t.FieldsOk(w + more) && Spares(w, {t}) && SameTies(t) && FieldMade(old(t.v.fcells), t.v.fcells, n, more)
    ensures AddedSame(t, w) && SectionsExtend(t, w)
    ensures t.v == old(t.v).(nodes := old(t.v.nodes) + [n], fcells := t.v.fcells, sec := AddField(old(t.v.sec), name))
  {
    hide FieldMade, Template.MainOk, Template.FieldsOk, LinkTo, FirstMatch, KeyOf, CleanName;
    MainHomes(t, w);
    FieldHomes(t, w);
    n, more := LinkField(t, tail, name, w);
  }

  /** A text node at the end of section `p`. */
  method PushText(t: Template, tail: Link, text: string, ghost d: Dom, ghost p: Path)
    returns (next: Link, ghost d': Dom)
    requires Wf(d) && p in d.st && d.st[p] == t && tail == LinkTo(t, t.v.nodes, |t.v.nodes|)
    modifies d.world
    ensures Wf(d') && Grown(d, d') && fresh(d'.world - d.world) && Spares(d.world, {t}) && SameTies(t) && Unheld(d') == old(Unheld(d))
    ensures Abs(d') == old(Abs(d))[p := AddText(old(Abs(d)[p]), text)]
    ensures next == LinkTo(t, t.v.nodes, |t.v.nodes|)
  {
    hide Owned, Unheld, Wf, Abs, AddText, SecOk, Template.MainOk, Template.FieldsOk, Template.AddedOk, Template.SectionsOk;
    LocalParts(d, p);
    AddTextOk(t.v.sec, text);
    var n := LinkTextFramed(t, tail, text, d.world);
    d' := d.(world := d.world + {n});
    AddedStays(d, d', p);
    FieldsStay(d, d', p);
    SectionsReach(d, d', p);
    LocalPushed(d, d', p);
    GrowStep(d, d', p);
    GrowAbs(d, d', p);
    OwnedMore(t, [n], []);
    StepBlocks(d, d', p, {n});
    next := NextOf(n);
  }

  /** A field node at the end of section `p`, with the cell that answers to its name or a new one. */
  method PushField(t: Template, tail: Link, name: string, ghost d: Dom, ghost p: Path)
    returns (next: Link, ghost d': Dom)
    requires Wf(d) && p in d.st && d.st[p] == t && tail == LinkTo(t, t.v.nodes, |t.v.nodes|) && CleanName(name)
    modifies d.world
    ensures Wf(d') && Grown(d, d') && fresh(d'.world - d.world) && Spares(d.world, {t}) && SameTies(t) && Unheld(d') == old(Unheld(d))
    ensures Abs(d') == old(Abs(d))[p := AddField(old(Abs(d)[p]), name)]
    ensures next == LinkTo(t, t.v.nodes, |t.v.nodes|)
  {
    hide Owned, Unheld, FieldMade, Wf, Abs, AddField, SecOk, Template.MainOk, Template.FieldsOk, Template.AddedOk, Template.SectionsOk;
    LocalParts(d, p);
    AddFieldOk(t.v.sec, name);
    var n;
    ghost var more;
    n, more := LinkFieldFramed(t, tail, name, d.world);
    d' := d.(world := d.world + more);
    AddedStays(d, d', p);
    SectionsReach(d, d', p);
    LocalPushed(d, d', p);
    GrowStep(d, d', p);
    GrowAbs(d, d', p);
    FieldBlocks(t, n, more);
    StepBlocks(d, d', p, more);
    next := NextOf(n);
  }
}
