/** Steps on the chains of appended content. */
module TplChains {
  import opened TplDocument
  import opened TplHeap
  import opened TplFrames
  import opened TplAccount

  lemma {:induction false} FlatConcat(a: seq<string>, b: seq<string>)
    ensures Flat(a + b) == Flat(a) + Flat(b)
  {
    if b == [] {
      assert a + b == a;
    } else {
      var c := a + b;
      assert c[..|c| - 1] == a + b[..|b| - 1];
      FlatConcat(a, b[..|b| - 1]);
    }
  }

  twostate predicate SameButAdded(t: Template)
    reads t
  {
    && t.head == old(t.head) && t.first == old(t.first)
    && t.fields == old(t.fields) && t.sections == old(t.sections)
    && t.tpl == old(t.tpl) && t.parent == old(t.parent)
    && t.v == old(t.v).(addedNodes := t.v.addedNodes, addedParts := t.v.addedParts,
                        sec := old(t.v.sec).(added := t.v.sec.added))
  }

  /** Only appended content changed. */
  twostate predicate OnlyAdded(w: set<object>)
    reads w
  {
    && (forall t: Template {:trigger SameButAdded(t)} | t in w :: SameButAdded(t))
    && (forall n: Node {:trigger SameNode(n)} | n in w && old(n.home).Main? :: SameNode(n))
    && (forall c: FieldCell {:trigger SameField(c)} | c in w :: SameField(c))
    && (forall c: SectionCell {:trigger SameSection(c)} | c in w :: SameSection(c))
  }

  /** A step on the appended content of the sections in `ts`. */
  twostate lemma {:induction false} AddedStep(d: Dom, new d': Dom, new ts: set<Template>)
    requires old(Wf(d)) && Grown(d, d')
    requires OnlyAdded(d.world) && Spares(d.world, ts)
    requires forall p | p in d.st && d.st[p] in ts :: d.st[p].AddedOk(d'.world)
    ensures Wf(d')
  {
    forall p | p in d.st
      ensures Local(d', p) && SameButAdded(d.st[p])
    {
      assert old(Local(d, p));
      assert SameButAdded(d.st[p]);
      if d.st[p] !in ts {
        assert SameTemplate(d.st[p]);
        AddedStays(d, d', p);
      }
      MainStays(d, d', p);
      FieldsStay(d, d', p);
      SectionsStay(d, d', p);
    }
    forall p | p in d.st && p != d.root && p != []
      ensures Up(p) in d.st && p[|p| - 1] < |d.st[Up(p)].v.scells|
    {
      assert SameButAdded(d.st[Up(p)]);
    }
  }

  lemma {:induction false} FlatSnoc(parts: seq<string>, text: string)
    ensures Flat(parts + [text]) == Flat(parts) + text
  {
    assert (parts + [text])[..|parts|] == parts;
  }

  lemma {:induction false} AddedHomes(t: Template, w: set<object>)
    requires t.AddedOk(w)
    ensures forall n | n in t.v.addedNodes :: n in w && n.home.Added? && n.home.t == t
  {
    forall i | 0 <= i < |t.v.addedNodes|
      ensures t.v.addedNodes[i] in w && t.v.addedNodes[i].home == Added(t, i)
    {
      assert t.AddedNodeOk(w, i);
    }
  }

  lemma {:induction false} AddedDistinct(t: Template, w: set<object>)
    requires t.AddedOk(w)
    ensures forall i, j | 0 <= i < j < |t.v.addedNodes| :: t.v.addedNodes[i] != t.v.addedNodes[j]
  {
    forall i, j | 0 <= i < j < |t.v.addedNodes|
      ensures t.v.addedNodes[i] != t.v.addedNodes[j]
    {
      assert t.AddedNodeOk(w, i) && t.AddedNodeOk(w, j);
    }
  }

  twostate lemma {:induction false} AddedSnoc(t: Template, new w: set<object>, new n: Node, new text: string)
    requires old(allocated(w)) && old(t.AddedOk(w)) && n !in w
    requires n.home == Added(t, old(|t.v.addedNodes|)) && n.val == Some(text) && n.next == null
    requires t.v.addedNodes == old(t.v.addedNodes) + [n] && t.v.addedParts == old(t.v.addedParts) + [text]
    requires t.v.sec.added == old(t.v.sec.added) + text
    requires t.addedTail == NextOf(n)
    requires t.addedHead == NodeAt(t.v.addedNodes, 0)
    requires forall m | m in old(t.v.addedNodes) :: m.val == old(m.val) && m.home == old(m.home)
    requires forall i | 0 <= i < old(|t.v.addedNodes|) - 1 :: old(t.v.addedNodes)[i].next == old(t.v.addedNodes[i].next)
    requires old(t.v.addedNodes) != [] ==> old(t.v.addedNodes)[old(|t.v.addedNodes|) - 1].next == n
    ensures t.AddedOk(w + {n})
  {
    FlatSnoc(old(t.v.addedParts), text);
    forall i | 0 <= i < |t.v.addedNodes|
      ensures t.AddedNodeOk(w + {n}, i)
    {
      if i < |t.v.addedNodes| - 1 {
        assert old(t.AddedNodeOk(w, i));
      }
    }
  }

  /** Writes a node through the address kept in `added_tail`. */
  method StoreAdded(t: Template, n: Node?)
    requires t.addedTail == (if t.v.addedNodes == [] then AddedHeadOf(t) else NextOf(t.v.addedNodes[|t.v.addedNodes| - 1]))
    modifies t`addedHead, if t.v.addedNodes == [] then {} else {t.v.addedNodes[|t.v.addedNodes| - 1]}`next
    ensures if t.v.addedNodes == [] then t.addedHead == n
            else t.v.addedNodes[|t.v.addedNodes| - 1].next == n && t.addedHead == old(t.addedHead)
  {
    if t.addedTail.NextOf? {
      t.addedTail.n.next := n;
    } else {
      t.addedTail.t.addedHead := n;
    }
  }

  /** The chain step of PushAdded. */
  method LinkAdded(t: Template, text: string, ghost w: set<object>) returns (n: Node)
    requires t in w && t.AddedOk(w)
    modifies t`addedHead, t`addedTail, t`v, t.v.addedNodes
    ensures fresh(n) && t.AddedOk(w + {n})
    ensures t.v == old(t.v).(addedNodes := old(t.v.addedNodes) + [n], addedParts := old(t.v.addedParts) + [text],
                             sec := old(t.v.sec).(added := old(t.v.sec.added) + text))
  {
    AddedDistinct(t, w);
    AddedHomes(t, w);
    n := new Node(text, Added(t, |t.v.addedNodes|));
    StoreAdded(t, n);
    t.addedTail := NextOf(n);
    t.v := t.v.(addedNodes := t.v.addedNodes + [n], addedParts := t.v.addedParts + [text],
                sec := t.v.sec.(added := t.v.sec.added + text));
    AddedSnoc(t, w, n, text);
  }

  method PushFramed(t: Template, text: string, ghost w: set<object>) returns (n: Node)
    requires t in w && t.AddedOk(w)
    modifies w
    ensures fresh(n) && t.AddedOk(w + {n})
    ensures OnlyAdded(w) && Spares(w, {t})
    ensures t.v.sec.added == old(t.v.sec.added) + text && t.v.addedNodes == old(t.v.addedNodes) + [n]
  {
    AddedHomes(t, w);
    n := LinkAdded(t, text, w);
  }

  twostate lemma {:induction false} ShapeStays(d: Dom, new d': Dom)
    requires Grown(d, d') && OnlyAdded(d.world)
    requires forall p | p in d.st :: d.st[p] in d.world
    ensures Shape(d') == old(Shape(d))
  {
    forall p | p in d.st
      ensures Shape(d')[p] == old(Shape(d)[p])
    {
      assert SameButAdded(d.st[p]);
    }
  }

  /** The document after a step on appended content. */
  twostate lemma {:induction false} AbsAdded(d: Dom, new d': Dom, new ts: set<Template>, new changes: map<Path, string>)
    requires old(Wf(d)) && Wf(d') && Grown(d, d') && OnlyAdded(d.world) && Spares(d.world, ts)
    requires forall q | q in d.st && d.st[q] in ts :: q in changes
    requires forall q | q in changes :: q in d.st && d.st[q].v.sec.added == changes[q]
    ensures Readded(old(Abs(d)), Abs(d'), changes)
  {
    forall q | q in d.st
      ensures Abs(d')[q] == if q in changes then old(Abs(d))[q].(added := changes[q]) else old(Abs(d))[q]
    {
      assert SameButAdded(d.st[q]);
      assert d.st[q] !in ts ==> SameTemplate(d.st[q]);
    }
  }

  twostate lemma {:induction false} PushedBlocks(d: Dom, new d': Dom, new p: Path, new n: Node)
    requires old(Wf(d)) && p in d.st && Grown(d, d') && d'.world == d.world + {n} && fresh(n)
    requires OnlyAdded(d.world) && Spares(d.world, {d.st[p]}) && d.st[p].v.addedNodes == old(d.st[p].v.addedNodes) + [n]
    ensures Unheld(d') == old(Unheld(d))
  {
    var t := d.st[p];
    assert old(t.v.path) == p && SameButAdded(t);
    assert Owned(t) == old(Owned(t)) + {n};
    hide Local, Wf, Spares, OnlyAdded, Owned;
    StepBlocks(d, d', p, {n});
  }

  /** Appended nodes that move from one section to another. */
  twostate lemma {:induction false} SplicedBlocks(d: Dom, new p: Path, new q: Path)
    requires old(Wf(d)) && p in d.st && q in d.st && p != q
    requires OnlyAdded(d.world) && Spares(d.world, {d.st[p], d.st[q]})
    requires d.st[p].v.addedNodes == old(d.st[p].v.addedNodes) + old(d.st[q].v.addedNodes) && d.st[q].v.addedNodes == []
    ensures Unheld(d) == old(Unheld(d))
  {
    var t, c := d.st[p], d.st[q];
    assert old(t.v.path) == p && old(c.v.path) == q && SameButAdded(t) && SameButAdded(c);
    forall r | r in d.st && r != p && r != q
      ensures SameBlocks(d.st[r])
    {
      assert old(d.st[r].v.path) == r;
      OtherBlocks(d, {t, c}, r);
    }
    assert Owned(t) + Owned(c) == old(Owned(t)) + old(Owned(c));
    hide Local, Wf, Spares, OnlyAdded;
    UnheldMoves(d, p, q);
  }

  method PushAdded(t: Template, text: string, ghost d: Dom, ghost p: Path) returns (ghost d': Dom)
    requires Wf(d) && p in d.st && d.st[p] == t
    modifies d.world
    ensures Wf(d') && Grown(d, d') && fresh(d'.world - d.world)
    ensures OnlyAdded(d.world) && Spares(d.world, {t}) && Unheld(d') == old(Unheld(d))
    ensures t.v.sec.added == old(t.v.sec.added) + text
  {
    assert Local(d, p);
    var n := PushFramed(t, text, d.world);
    d' := d.(world := d.world + {n});
    AddedStep(d, d', {t});
    PushedBlocks(d, d', p, n);
  }

  ghost method Rehome(ns: seq<Node>, t: Template, base: nat)
    requires forall i, j | 0 <= i < j < |ns| :: ns[i] != ns[j]
    modifies ns
    ensures forall i | 0 <= i < |ns| :: ns[i].home == Added(t, base + i)
    ensures forall i | 0 <= i < |ns| :: ns[i].val == old(ns[i].val) && ns[i].fval == old(ns[i].fval) && ns[i].next == old(ns[i].next)
  {
    forall i | 0 <= i < |ns| {
      ns[i].home := Added(t, base + i);
    }
  }

  method DropAdded(c: Template)
    modifies c`addedHead, c`addedTail, c`v
    ensures c.addedHead == null && c.addedTail == AddedHeadOf(c)
    ensures c.v == old(c.v).(addedNodes := [], addedParts := [], sec := old(c.v.sec).(added := ""))
  {
    c.addedTail := AddedHeadOf(c);
    c.addedHead := null;
    c.v := c.v.(addedNodes := [], addedParts := [], sec := c.v.sec.(added := ""));
  }

  twostate lemma {:induction false} AddedSpliced(t: Template, new c: Template, new w: set<object>)
    requires old(allocated(w)) && old(allocated(c)) && old(t.AddedOk(w) && c.AddedOk(w))
    requires t.v.addedNodes == old(t.v.addedNodes + c.v.addedNodes) && t.v.addedParts == old(t.v.addedParts + c.v.addedParts)
    requires t.v.sec.added == old(t.v.sec.added + c.v.sec.added)
    requires old(c.v.addedNodes) != [] && t.addedTail == old(c.addedTail)
    requires t.addedHead == NodeAt(t.v.addedNodes, 0)
    requires forall m | m in old(t.v.addedNodes) :: m.val == old(m.val) && m.home == old(m.home)
    requires forall i | 0 <= i < old(|t.v.addedNodes|) - 1 :: old(t.v.addedNodes)[i].next == old(t.v.addedNodes[i].next)
    requires old(t.v.addedNodes) != [] ==> old(t.v.addedNodes)[old(|t.v.addedNodes|) - 1].next == old(c.v.addedNodes[0])
    requires forall i | 0 <= i < old(|c.v.addedNodes|) ::
               var m := old(c.v.addedNodes)[i];
               m.val == old(m.val) && m.next == old(m.next) && m.home == Added(t, old(|t.v.addedNodes|) + i)
    ensures t.AddedOk(w)
  {
    FlatConcat(old(t.v.addedParts), old(c.v.addedParts));
    var n := old(|t.v.addedNodes|);
    forall i | 0 <= i < |t.v.addedNodes|
      ensures t.AddedNodeOk(w, i)
    {
      if i < n {
        assert old(t.AddedNodeOk(w, i));
      } else {
        assert old(c.AddedNodeOk(w, i - n));
      }
    }
  }

  lemma {:induction false} AddedFacts(t: Template, w: set<object>)
    requires t.AddedOk(w)
    ensures t.addedHead == NodeAt(t.v.addedNodes, 0) && |t.v.addedParts| == |t.v.addedNodes|
    ensures t.addedTail == if t.v.addedNodes == [] then AddedHeadOf(t) else NextOf(t.v.addedNodes[|t.v.addedNodes| - 1])
  {
  }

  lemma {:induction false} NoneAdded(t: Template, w: set<object>)
    requires t.addedHead == null && t.addedTail == AddedHeadOf(t) && t.v.addedNodes == [] && t.v.addedParts == [] && t.v.sec.added == ""
    ensures t.AddedOk(w)
  {
  }

  /** Hangs the chain of `c` behind that of `t`. */
  method PasteAdded(t: Template, c: Template)
    requires t != c && c.addedHead == NodeAt(c.v.addedNodes, 0) && c.v.addedNodes != []
    requires t.addedHead == NodeAt(t.v.addedNodes, 0)
    requires t.addedTail == if t.v.addedNodes == [] then AddedHeadOf(t) else NextOf(t.v.addedNodes[|t.v.addedNodes| - 1])
    requires forall i, j | 0 <= i < j < |t.v.addedNodes| :: t.v.addedNodes[i] != t.v.addedNodes[j]
    requires forall n | n in c.v.addedNodes :: n !in t.v.addedNodes
    modifies t`addedHead, t`addedTail, t`v, t.v.addedNodes
    ensures t.v == old(t.v).(addedNodes := old(t.v.addedNodes) + c.v.addedNodes, addedParts := old(t.v.addedParts) + c.v.addedParts,
                             sec := old(t.v.sec).(added := old(t.v.sec.added) + c.v.sec.added))
    ensures t.addedTail == c.addedTail && t.addedHead == NodeAt(t.v.addedNodes, 0)
    ensures forall m | m in old(t.v.addedNodes) :: m.val == old(m.val) && m.home == old(m.home)
    ensures forall i | 0 <= i < |old(t.v.addedNodes)| - 1 :: old(t.v.addedNodes)[i].next == old(t.v.addedNodes[i].next)
    ensures old(t.v.addedNodes) != [] ==> old(t.v.addedNodes)[|old(t.v.addedNodes)| - 1].next == c.v.addedNodes[0]
    ensures forall m | m in c.v.addedNodes :: m.val == old(m.val) && m.home == old(m.home) && m.next == old(m.next)
  {
    ghost var ns, ms := t.v.addedNodes, c.v.addedNodes;
    StoreAdded(t, c.addedHead);
    t.addedTail := c.addedTail;
    t.v := t.v.(addedNodes := ns + ms, addedParts := t.v.addedParts + c.v.addedParts,
                sec := t.v.sec.(added := t.v.sec.added + c.v.sec.added));
  }

  /** The chain step of Splice. */
  method SpliceLocal(t: Template, c: Template, ghost w: set<object>)
    requires t in w && c in w && t != c && t.AddedOk(w) && c.AddedOk(w) && c.addedHead != null
    modifies t`addedHead, t`addedTail, t`v, t.v.addedNodes, c`addedHead, c`addedTail, c`v, c.v.addedNodes
    ensures t.AddedOk(w) && c.AddedOk(w)
    ensures t.v == old(t.v).(addedNodes := old(t.v.addedNodes + c.v.addedNodes), addedParts := old(t.v.addedParts + c.v.addedParts),
                             sec := old(t.v.sec).(added := old(t.v.sec.added + c.v.sec.added)))
    ensures c.v == old(c.v).(addedNodes := [], addedParts := [], sec := old(c.v.sec).(added := ""))
  {
    hide Template.AddedOk;
    AddedFacts(t, w);
    AddedFacts(c, w);
    AddedHomes(t, w);
    AddedHomes(c, w);
    AddedDistinct(t, w);
    AddedDistinct(c, w);
    ghost var ns, ms := t.v.addedNodes, c.v.addedNodes;
    PasteAdded(t, c);
    DropAdded(c);
    Rehome(ms, t, |ns|);
    AddedSpliced(t, c, w);
    NoneAdded(c, w);
  }

  method SpliceFramed(t: Template, c: Template, ghost w: set<object>)
    requires t in w && c in w && t != c && t.AddedOk(w) && c.AddedOk(w) && c.addedHead != null
    modifies w
    ensures t.AddedOk(w) && c.AddedOk(w) && OnlyAdded(w) && Spares(w, {t, c})
    ensures t.v.sec.added == old(t.v.sec.added) + old(c.v.sec.added)
    ensures c.v.sec.added == "" && t.v.addedNodes == old(t.v.addedNodes) + old(c.v.addedNodes) && c.v.addedNodes == []
  {
    AddedHomes(t, w);
    AddedHomes(c, w);
    SpliceLocal(t, c, w);
  }

  /** Cuts the appended chain of child `c` and pastes it at the end of the chain of `t`. */
  method Splice(t: Template, c: Template, ghost d: Dom, ghost p: Path, ghost q: Path)
    requires Wf(d) && p in d.st && d.st[p] == t && q in d.st && d.st[q] == c && t != c && c.addedHead != null
    modifies d.world
    ensures Wf(d) && OnlyAdded(d.world) && Spares(d.world, {t, c}) && Unheld(d) == old(Unheld(d))
    ensures t.v.sec.added == old(t.v.sec.added) + old(c.v.sec.added) && c.v.sec.added == ""
  {
    assert Local(d, p) && Local(d, q);
    SpliceFramed(t, c, d.world);
    AddedStep(d, d, {t, c});
    SplicedBlocks(d, p, q);
  }
}
