/** Replacing a section by a text. */
module TplSetSection {
  import opened TplNames
  import opened TplDocument
  import opened TplHeap
  import opened TplFrames
  import opened TplAccount
  import opened TplChains
  import opened TplSelection
  import opened TplBuild
  import opened TplGrowth
  import opened TplJoin
  import opened TplRelease

  /** The section at `c` becomes `sec`, and the sections below it go. */
  function Replaced(doc: Doc, c: Path, sec: Sec): Doc {
    map q | q in doc && !(c < q) :: if q == c then sec else doc[q]
  }

  /** A section that consists of the text, and has it appended once. */
  function SetSectionDoc(doc: Doc, c: Path, val: string): Doc {
    Replaced(doc, c, Sec([Text(val)], [], [], [], [], val))
  }

  // ----- cutting off a section's descendants -----

  lemma {:induction false} NotAbove(c: Path, q: Path)
    requires q != []
    ensures c < q <==> c <= Up(q)
  {
    if |c| < |q| {
      assert q[..|c|] == Up(q)[..|c|];
    }
  }

  ghost function Pruned(d: Dom, c: Path): Dom {
    Dom(d.root, map q | q in d.st && !(c < q) :: d.st[q], d.world)
  }

  lemma {:induction false} LocalNarrows(d: Dom, c: Path, q: Path)
    requires q in d.st && d.st[q] in d.world && !(c <= q) && Local(d, q)
    ensures Local(Pruned(d, c), q)
  {
    var t, d' := d.st[q], Pruned(d, c);
    assert q in d'.st && d'.st[q] == t;
    forall k | 0 <= k < |t.v.scells|
      ensures Child(q, k) in d'.st && t.v.scells[k].tpl == d'.st[Child(q, k)]
    {
      assert Child(q, k) in d.st;
      NotAbove(c, Child(q, k));
    }
  }

  lemma {:induction false} PrunedStays(d: Dom, c: Path)
    requires c in d.st
    ensures c in Pruned(d, c).st && Pruned(d, c).st[c] == d.st[c]
    ensures [] in d.st && c != [] ==> [] in Pruned(d, c).st && Pruned(d, c).st[[]] == d.st[[]]
  {
  }

  twostate lemma {:induction false} PruneLocal(d: Dom, new c: Path, new q: Path)
    requires old(Wf(d)) && c in d.st && q in d.st && !(c < q) && Spares(d.world, Records(d, c)) && d.st[c].Blank(c)
    ensures Local(Pruned(d, c), q) && d.st[q] in d.world && (q != c ==> SameTemplate(d.st[q]))
  {
    hide Spares, SameTemplate;
    assert old(d.st[q].v.path) == q && old(d.st[c].v.path) == c;
    if q == c {
      BlankLocal(Pruned(d, c), c);
    } else {
      NotRecord(d, c, q);
      assert old(Local(d, q));
      LocalKept(d, d, Records(d, c), q);
      LocalNarrows(d, c, q);
      SparedTemplate(d, Records(d, c), q);
    }
  }

  twostate lemma {:induction false} NotRecord(d: Dom, new c: Path, new q: Path)
    requires old(Wf(d)) && q in d.st && !(c <= q)
    ensures d.st[q] !in Records(d, c)
  {
    forall r | r in d.st && c <= r
      ensures d.st[r] != d.st[q]
    {
      assert old(d.st[r].v.path) == r && old(d.st[q].v.path) == q;
    }
  }

  twostate lemma {:induction false} SparedTemplate(d: Dom, new ts: set<Template>, new q: Path)
    requires q in d.st && d.st[q] in d.world && d.st[q] !in ts && Spares(d.world, ts)
    ensures SameTemplate(d.st[q])
  {
  }

  twostate lemma {:induction false} PrunePlace(d: Dom, new c: Path, new q: Path)
    requires old(Wf(d)) && c in d.st && q in d.st && !(c < q) && Spares(d.world, Records(d, c)) && d.st[c].Blank(c)
    ensures Local(Pruned(d, c), q) && d.st[q] in d.world && (q == d.root || |q| > |d.root|)
    ensures d.st[q].v.path == q && (q != c ==> d.st[q].v == old(d.st[q].v))
  {
    hide Spares, SameTemplate, Local;
    PruneLocal(d, c, q);
    assert old(d.st[q].v.path) == q;
    if q != c {
      Untied(d.st[q]);
    }
  }

  twostate lemma {:induction false} PruneAbs(d: Dom, new c: Path)
    requires old(Wf(d)) && c in d.st && Spares(d.world, Records(d, c)) && d.st[c].Blank(c) && Wf(Pruned(d, c))
    ensures Abs(Pruned(d, c)) == Replaced(old(Abs(d)), c, EMPTY)
  {
    hide Spares, SameTemplate, Local, Wf;
    forall q | q in d.st && !(c < q)
      ensures Abs(Pruned(d, c))[q] == Replaced(old(Abs(d)), c, EMPTY)[q]
    {
      PrunePlace(d, c, q);
    }
  }

  /** Once its record is blank again, a section stands alone. */
  twostate lemma {:induction false} PruneStep(d: Dom, new c: Path)
    requires old(Wf(d)) && c in d.st && |d.root| < |c| && Spares(d.world, Records(d, c)) && d.st[c].Blank(c)
    ensures Wf(Pruned(d, c))
  {
    hide Spares, SameTemplate, Local;
    var d' := Pruned(d, c);
    forall q | q in d'.st
      ensures Local(d', q) && d'.st[q] in d'.world && (q == d.root || |q| > |d.root|)
      ensures d'.st[q].v.path == q && (q != c ==> d'.st[q].v.scells == old(d.st[q].v.scells))
    {
      PrunePlace(d, c, q);
    }
    forall q | q in d'.st && q != d.root && q != []
      ensures Up(q) in d'.st && q[|q| - 1] < |d'.st[Up(q)].v.scells|
    {
      assert Up(q) in d.st;
      NotAbove(c, q);
      assert d'.st[Up(q)] == d.st[Up(q)];
    }
  }

  /** What hung at and below `c` hangs nowhere any more; everything else stays. */
  twostate lemma {:induction false} PruneBlocks(d: Dom, new c: Path)
    requires old(Wf(d)) && old(BelowAlone(d, c)) && c in d.st && Spares(d.world, Records(d, c)) && d.st[c].Blank(c)
    ensures Unheld(Pruned(d, c)) == old(Unheld(d)) + Below(old(Estate(d)), c)
  {
    var d', e := Pruned(d, c), Below(old(Estate(d)), c);
    assert Owned(d.st[c]) == {};
    forall o | o in d.world
      ensures Held(d', o) <==> old(Held(d, o)) && o !in e
    {
      PruneHolds(d, c, o);
    }
    hide Owned, Local, Wf, Spares, Estate, Below, Held;
    forall o: object
      ensures o in Unheld(d') <==> o in old(Unheld(d)) + e
    {
    }
  }

  twostate lemma {:induction false} PruneHolds(d: Dom, new c: Path, new o: object)
    requires old(Wf(d)) && old(BelowAlone(d, c)) && c in d.st && Spares(d.world, Records(d, c)) && Owned(d.st[c]) == {} && o in d.world
    ensures Held(Pruned(d, c), o) <==> old(Held(d, o)) && o !in Below(old(Estate(d)), c)
  {
    hide Owned, Local, Spares;
    var d', e := Pruned(d, c), old(Estate(d));
    forall q | q in d.st && !(c <= q)
      ensures d'.st[q] == d.st[q] && (o in Owned(d.st[q]) <==> o in old(Owned(d.st[q])))
    {
      assert old(d.st[q].v.path) == q;
      NotRecord(d, c, q);
      OtherBlocks(d, Records(d, c), q);
      HeldStill(d, q, o);
    }
    if Held(d', o) {
      var q :| q in d'.st && o in Owned(d'.st[q]);
      assert q != c && !(c <= q);
      assert d.st[q] == d'.st[q];
    }
    if old(Held(d, o)) && o !in Below(e, c) {
      var q :| q in d.st && o in old(Owned(d.st[q]));
      assert q in e && e[q] == old(Owned(d.st[q]));
      assert d'.st[q] == d.st[q];
    }
  }

  /** The old contents go, each block once; the record stays as a blank child of `cur`. */
  method Vacate(child: Template, cur: Template, ghost d: Dom, ghost c: Path, ghost freed: set<object>)
    returns (ghost d': Dom, ghost freed': set<object>)
    requires Wf(d) && c in d.st && d.st[c] == child && |d.root| < |c| && freed == Unheld(d)
    modifies d.world
    ensures d' == Pruned(d, c) && Wf(d') && Abs(d') == Replaced(old(Abs(d)), c, EMPTY)
    ensures child.Blank(c) && child.tpl == child && child.parent == cur
    ensures Spares(d.world, Records(d, c)) && freed <= freed' == Unheld(d')
  {
    hide Wf, Abs, Spares, Replaced, Unheld, Below, Estate, Template.Blank;
    d' := Pruned(d, c);
    RecordsKnown(d, c);
    BelowIsAlone(d, c);
    freed' := VacateRecord(child, cur, d, c, freed);
    SparesRecords(d, c);
    PruneStep(d, c);
    PruneAbs(d, c);
    PruneBlocks(d, c);
  }

  lemma {:induction false} RecordsKnown(d: Dom, c: Path)
    requires Wf(d)
    ensures forall t | t in Records(d, c) :: t in d.world
  {
  }

  method VacateRecord(child: Template, cur: Template, ghost d: Dom, ghost c: Path, ghost freed: set<object>)
    returns (ghost freed': set<object>)
    requires Wf(d) && c in d.st && d.st[c] == child && |d.root| < |c| && Below(Estate(d), c) !! freed
    modifies Records(d, c)
    ensures child.Blank(c) && child.tpl == child && child.parent == cur
    ensures freed' == freed + Below(old(Estate(d)), c)
  {
    hide Wf, Tree, Below, Estate, Local;
    Sound(d);
    freed' := Release(child, d, c, freed);
    Init(child, c);
    child.parent := cur;
  }

  // ----- the one text node -----

  /** Overwrites the text of a section that is a single text node. */
  method Overwrite(child: Template, val: string, ghost d: Dom, ghost c: Path)
    requires Wf(d) && c in d.st && d.st[c] == child && |child.v.sec.items| == 1 && child.v.sec.items[0].Text?
    modifies d.world
    ensures Wf(d) && Spares(d.world, {child}) && SameTies(child) && Unheld(d) == old(Unheld(d))
    ensures Abs(d) == old(Abs(d))[c := old(child.v.sec).(items := [Text(val)])]
  {
    assert Local(d, c);
    OverwriteFramed(child, val, d.world);
    AddedStays(d, d, c);
    FieldsStay(d, d, c);
    SectionsStay(d, d, c);
    OneText(old(child.v.sec.items), val);
    LocalPushed(d, d, c);
    GrowStep(d, d, c);
    GrowAbs(d, d, c);
    assert Owned(child) == old(Owned(child)) + {};
    StepBlocks(d, d, c, {});
  }

  lemma {:induction false} OneText(items: seq<Item>, val: string)
    requires |items| == 1 && items[0].Text?
    ensures Uses(items) == Uses([Text(val)])
  {
  }

  method OverwriteFramed(child: Template, val: string, ghost w: set<object>)
    requires child in w && child.MainOk(w) && |child.v.sec.items| == 1 && child.v.sec.items[0].Text?
    modifies w
    ensures child.MainOk(w) && Spares(w, {child}) && SameTies(child)
    ensures AddedSame(child, w) && FieldsSame(child, w) && SectionsSame(child, w)
    ensures child.v == old(child.v).(sec := old(child.v.sec).(items := [Text(val)]))
  {
    assert child.MainNodeOk(w, 0);
    child.head.val := Some(val);
    child.v := child.v.(sec := child.v.sec.(items := [Text(val)]));
    assert child.MainNodeOk(w, 0);
  }

  // ----- the one appended node -----

  ghost predicate Chained(ns: seq<Node>)
    reads ns
  {
    forall i {:trigger ns[i]} | 0 <= i < |ns| :: ns[i].next == NodeAt(ns, i + 1)
  }

  lemma {:induction false} AddedChained(c: Template, w: set<object>)
    requires c.AddedOk(w)
    ensures Chained(c.v.addedNodes) && (c.v.addedNodes != [] ==> Chained(c.v.addedNodes[1..]) && c.v.addedNodes[0] !in c.v.addedNodes[1..])
    ensures c.v.addedNodes != [] ==> c.AddedNodeOk(w, 0) && c.v.addedNodes[0].next == NodeAt(c.v.addedNodes[1..], 0)
  {
    var ns := c.v.addedNodes;
    forall i | 0 <= i < |ns|
      ensures ns[i].next == NodeAt(ns, i + 1)
    {
      assert c.AddedNodeOk(w, i);
    }
    AddedDistinct(c, w);
    if ns != [] {
      var rest := ns[1..];
      forall i | 0 <= i < |rest|
        ensures rest[i].next == NodeAt(rest, i + 1)
      {
        assert rest[i] == ns[i + 1];
      }
      assert c.AddedNodeOk(w, 0);
    }
  }

  /** Unlinks the nodes that follow `n` and gives them back, one by one. */
  method DropRest(n: Node, ghost rest: seq<Node>, ghost freed: set<object>) returns (ghost freed': set<object>)
    requires n !in rest && n.next == NodeAt(rest, 0) && Chained(rest) && Distinct(rest) && forall m | m in rest :: m !in freed
    modifies n`next
    ensures n.next == null && freed' == freed + set m | m in rest
  {
    freed' := freed;
    ghost var j: nat := 0;
    while n.next != null
      invariant j <= |rest| && n.next == NodeAt(rest, j) && Chained(rest)
      invariant freed' == freed + set m | m in rest[..j]
      decreases |rest| - j
    {
      TakeNext(rest, j);
      var deleted := n.next;
      n.next := deleted.next;
      freed' := Destroy(deleted, freed');
      j := j + 1;
    }
    assert rest[..j] == rest;
  }

  function Given(existing: Node?): set<object> {
    if existing == null then {} else {existing}
  }

  /** A node the caller brings along: loose, and with the text in it already. */
  ghost predicate Brought(existing: Node?, val: string, w: set<object>)
    reads Given(existing)
  {
    existing != null ==> existing !in w && existing.val == Some(val)
  }

  /** The appended nodes without the first. */
  lemma {:induction false} HeadOff(c: Template)
    requires forall i, j | 0 <= i < j < |c.v.addedNodes| :: c.v.addedNodes[i] != c.v.addedNodes[j]
    ensures (set m | m in c.v.addedNodes) == AddedSet(c) && Distinct(c.v.addedNodes)
    ensures c.v.addedNodes != [] ==> (set m | m in c.v.addedNodes[1..]) == AddedSet(c) - {c.v.addedNodes[0]} && Distinct(c.v.addedNodes[1..])
    ensures forall n: Node | n !in c.v.addedNodes :: AddedSet(c) - {n} == AddedSet(c)
  {
    var ns := c.v.addedNodes;
    if ns != [] {
      assert ns == [ns[0]] + ns[1..];
    }
  }

  /** Puts the text at the head of the appended chain: in the node brought along, or in the first node if it has
      the right length, or in a new one. `rest` is what still hangs behind it. */
  method PutFirst(c: Template, val: string, existing: Node?, ghost w: set<object>) returns (n: Node, ghost rest: seq<Node>)
    requires c in w && c.AddedOk(w) && Brought(existing, val, w)
    modifies c`addedHead, c.v.addedNodes, Given(existing)
    ensures if existing != null then n == existing else fresh(n) || n in old(c.v.addedNodes)
    ensures c.addedHead == n && n.val == Some(val) && n.home == Added(c, 0)
    ensures n.next == NodeAt(rest, 0) && n !in rest && Chained(rest) && Distinct(rest)
    ensures (set m | m in rest) == old(AddedSet(c)) - {n}
  {
    hide Template.AddedOk, AddedSet;
    AddedHomes(c, w);
    AddedChained(c, w);
    AddedFacts(c, w);
    AddedDistinct(c, w);
    HeadOff(c);
    rest := c.v.addedNodes;
    if existing != null {
      existing.next := c.addedHead;
      existing.home := Added(c, 0);
      c.addedHead := existing;
    } else {
      if c.addedHead != null && |c.addedHead.val.value| != |val| {
        var node := new Node("", Added(c, 0));
        node.next := c.addedHead;
        c.addedHead := node;
      } else if c.addedHead == null {
        c.addedHead := new Node("", Added(c, 0));
      } else {
        rest := rest[1..];
      }
      c.addedHead.val := Some(val);
    }
    n := c.addedHead;
  }

  /** The appended chain becomes a single node with the text; the nodes it loses are given back. */
  method ReplaceAdded(c: Template, val: string, existing: Node?, ghost w: set<object>, ghost freed: set<object>)
    returns (n: Node, ghost freed': set<object>)
    requires c in w && c.AddedOk(w) && Brought(existing, val, w) && AddedSet(c) !! freed
    modifies c`addedHead, c`addedTail, c`v, c.v.addedNodes, Given(existing)
    ensures if existing != null then n == existing else fresh(n) || n in old(c.v.addedNodes)
    ensures c.AddedOk(w + {n}) && freed' == freed + (old(AddedSet(c)) - {n})
    ensures c.v == old(c.v).(addedNodes := [n], addedParts := [val], sec := old(c.v.sec).(added := val))
  {
    ghost var rest;
    n, rest := PutFirst(c, val, existing, w);
    forall m | m in rest
      ensures m !in freed
    {
      var lost: set<object> := set x | x in rest;
      assert m in lost && lost == old(AddedSet(c)) - {n};
    }
    freed' := DropRest(n, rest, freed);
    c.addedTail := NextOf(c.addedHead);
    c.v := c.v.(addedNodes := [n], addedParts := [val], sec := c.v.sec.(added := val));
    assert c.AddedNodeOk(w + {n}, 0);
    assert Flat([val]) == Flat([]) + val;
  }

  method ReplaceAddedFramed(c: Template, val: string, existing: Node?, ghost w: set<object>, ghost freed: set<object>)
    returns (n: Node, ghost freed': set<object>)
    requires c in w && c.AddedOk(w) && Brought(existing, val, w) && AddedSet(c) !! freed
    modifies w, Given(existing)
    ensures (n in old(c.v.addedNodes) || n in Given(existing) || fresh(n)) && c.AddedOk(w + {n})
    ensures OnlyAdded(w) && Spares(w, {c}) && c.v.sec.added == val && c.v.addedNodes == [n]
    ensures freed' == freed + (old(AddedSet(c)) - {n})
  {
    AddedHomes(c, w);
    n, freed' := ReplaceAdded(c, val, existing, w, freed);
  }

  method SetAdded(child: Template, val: string, existing: Node?, ghost d: Dom, ghost c: Path, ghost freed: set<object>)
    returns (ghost d': Dom, ghost freed': set<object>)
    requires Wf(d) && c in d.st && d.st[c] == child && Brought(existing, val, d.world) && freed == Unheld(d)
    modifies d.world, Given(existing)
    ensures Wf(d') && Grown(d, d') && fresh(d'.world - d.world - Given(existing)) && Shape(d') == old(Shape(d))
    ensures Readded(old(Abs(d)), Abs(d'), map[c := val]) && freed <= freed' == Unheld(d')
  {
    hide Abs, Unheld, Readded, AddedAlone, Shape;
    LocalParts(d, c);
    AddedIsAlone(d, c);
    AddedHomes(child, d.world);
    var n;
    n, freed' := ReplaceAddedFramed(child, val, existing, d.world, freed);
    d' := d.(world := d.world + {n});
    AddedStep(d, d', {child});
    AbsAdded(d, d', {child}, map[c := val]);
    WorldHolds(d');
    ShapeStays(d, d');
    ReplacedBlocks(d, d', c, n);
  }

  twostate lemma {:induction false} ReplacedBlocks(d: Dom, new d': Dom, new c: Path, new n: Node)
    requires old(Wf(d)) && c in d.st && old(AddedAlone(d, c) && AddedSet(d.st[c]) <= d.world)
    requires Grown(d, d') && d'.world == d.world + {n} && (n in d.world ==> n in old(AddedSet(d.st[c])))
    requires OnlyAdded(d.world) && Spares(d.world, {d.st[c]}) && d.st[c].v.addedNodes == [n]
    ensures Unheld(d') == old(Unheld(d)) + (old(AddedSet(d.st[c])) - {n})
  {
    assert old(d.st[c].v.path) == c && SameButAdded(d.st[c]);
    forall r | r in d.st && r != c
      ensures SameBlocks(d.st[r])
    {
      assert old(d.st[r].v.path) == r;
      OtherBlocks(d, {d.st[c]}, r);
    }
    assert AddedSet(d.st[c]) == {n};
    hide Local, Wf, Spares, OnlyAdded, AddedAlone, AddedSet;
    var more := if n in d.world then {} else {n};
    AddedDrops(d, d', c, old(AddedSet(d.st[c])) - {n}, more);
  }

  // ----- the selection stays -----

  twostate lemma {:induction false} PrunedLinked(d: Dom, new sel: Path, new c: Path, new p: Path)
    requires old(Wf(d)) && old(LinkedAt(d.st, Shape(d), sel, p)) && p in Pruned(d, c).st
    requires sel in d.st && c in d.st && c != [] && Up(c) == sel && Spares(d.world, Records(d, c)) && d.st[c].Blank(c)
    requires d.st[c].tpl == d.st[c] && d.st[c].parent == d.st[sel] && Wf(Pruned(d, c))
    ensures LinkedAt(Pruned(d, c).st, Shape(Pruned(d, c)), sel, p)
  {
    hide Spares, SameTemplate, Local, Wf;
    WorldHolds(Pruned(d, c));
    if p != [] {
      NotAbove(c, p);
    }
    PruneLocal(d, c, p);
    if p != c {
      Untied(d.st[p]);
    }
  }

  twostate lemma {:induction false} SelectedPruned(d: Dom, new sel: Path, new c: Path)
    requires old(Selected(d, sel)) && c in d.st && c != [] && Up(c) == sel && Spares(d.world, Records(d, c)) && d.st[c].Blank(c)
    requires d.st[c].tpl == d.st[c] && d.st[c].parent == d.st[sel] && Wf(Pruned(d, c))
    ensures Selected(Pruned(d, c), sel)
  {
    var d' := Pruned(d, c);
    WorldHolds(d');
    assert forall p {:trigger d.st[p]} | p in d.st :: d.st[p] in d.world;
    hide Spares, Local, Wf, LinkedAt;
    forall p | p in d'.st
      ensures LinkedAt(d'.st, Shape(d'), sel, p)
    {
      assert old(LinkedAt(d.st, Shape(d), sel, p));
      PrunedLinked(d, sel, c, p);
    }
  }

  /** A step on one section that touches no selection pointer. */
  twostate lemma {:induction false} SelectedKept(d: Dom, new d': Dom, new sel: Path, new p: Path)
    requires old(Selected(d, sel)) && p in d.st && Grown(d, d') && Spares(d.world, {d.st[p]}) && SameTies(d.st[p]) && Wf(d')
    ensures Selected(d', sel)
  {
    WorldHolds(d');
    hide Spares, SameTemplate, Local, Wf;
    forall q | q in d'.st
      ensures LinkedAt(d'.st, Shape(d'), sel, q)
    {
      assert old(LinkedAt(d.st, Shape(d), sel, q));
      if q != p {
        OtherKept(d, d', p, q);
        Untied(d.st[q]);
      }
    }
  }

  // ----- tpl_set_section -----

  /** An empty text over a section that is one field and nothing else: the node's length fits, but it has no
      text to overwrite, and the C code writes through a null pointer. */
  predicate NullWrite(sec: Sec, val: string) {
    val == "" && |sec.items| == 1 && sec.items[0].Field? && sec.names == []
  }

  /** Whether the section is one node of the new length, to be overwritten; it then has a text to overwrite
      unless the write goes through a null pointer. */
  method SameLength(child: Template, val: string, ghost w: set<object>) returns (same: bool)
    requires child in w && child.MainOk(w) && child.SectionsOk(w) && |child.v.scells| == |child.v.sec.names|
    ensures same ==> |child.v.sec.items| == 1 && child.v.scells == []
    ensures same && !child.v.sec.items[0].Text? <==> NullWrite(child.v.sec, val)
  {
    assert child.v.nodes != [] ==> child.MainNodeOk(w, 0);
    if child.first != null || child.head == null || child.head.next != null {
      same := false;
    } else if child.head.val.Some? {
      same := |child.head.val.value| == |val|;
    } else {
      same := 0 == |val|;
    }
  }

  lemma {:induction false} OverwrittenDoc(doc: Doc, c: Path, val: string)
    requires c in doc && SecOk(doc[c]) && |doc[c].items| == 1 && doc[c].items[0].Text? && |doc[c].names| == 0
    requires forall q | q in doc :: !(c < q)
    ensures doc[c := doc[c].(items := [Text(val)])] == Replaced(doc, c, Sec([Text(val)], [], [], [], [], doc[c].added))
  {
    assert Uses(doc[c].items) == 0;
  }

  lemma {:induction false} RefilledDoc(doc: Doc, c: Path, val: string)
    requires c in doc
    ensures c in Replaced(doc, c, EMPTY) && Replaced(doc, c, EMPTY)[c] == EMPTY
    ensures Replaced(doc, c, EMPTY)[c := AddText(EMPTY, val)] == Replaced(doc, c, Sec([Text(val)], [], [], [], [], ""))
  {
    assert AddText(EMPTY, val).items == [Text(val)];
  }

  lemma {:induction false} SetDoc(doc: Doc, d1: Doc, d2: Doc, c: Path, val: string, added: string)
    requires c in doc && d1 == Replaced(doc, c, Sec([Text(val)], [], [], [], [], added)) && Readded(d1, d2, map[c := val])
    ensures d2 == SetSectionDoc(doc, c, val)
  {
  }

  lemma {:induction false} AloneThere(d: Dom, c: Path)
    requires Wf(d) && c in d.st && |d.root| <= |c| && d.st[c].v.scells == []
    ensures SecOk(Abs(d)[c]) && |Abs(d)[c].names| == 0
    ensures forall q | q in Abs(d) :: !(c < q)
    ensures forall q | q in d.st :: !(c < q)
    ensures Pruned(d, c) == d
  {
    assert Tree(d) && Local(d, c);
    forall q | q in d.st
      ensures !(c < q)
    {
      if c < q {
        ChildOf(d, c, q);
      }
    }
    assert Pruned(d, c).st == d.st;
  }

  /** The section's content becomes the one text. */
  method SetText(child: Template, cur: Template, val: string, ghost d: Dom, ghost sel: Path, ghost c: Path, ghost freed: set<object>)
    returns (ghost d': Dom, ghost freed': set<object>)
    requires Selected(d, sel) && c in d.st && d.st[c] == child && c != [] && Up(c) == sel && d.st[sel] == cur
    requires !NullWrite(Abs(d)[c], val) && freed == Unheld(d)
    modifies d.world
    ensures Selected(d', sel) && d'.st == Pruned(d, c).st && d.world <= d'.world && fresh(d'.world - d.world)
    ensures freed <= freed' == Unheld(d')
    ensures c in d'.st && Abs(d') == Replaced(old(Abs(d)), c, Sec([Text(val)], [], [], [], [], Abs(d')[c].added))
  {
    ghost var doc := Abs(d);
    assert Local(d, c);
    var same := SameLength(child, val, d.world);
    label seen:
    if same {
      d', freed' := d, freed;
      AloneThere(d, c);
      OverwrittenDoc(doc, c, val);
      Overwrite(child, val, d, c);
      SelectedKept@seen(d, d, sel, c);
    } else {
      d', freed' := Refill(child, cur, val, d, sel, c, freed);
    }
  }

  method Refill(child: Template, cur: Template, val: string, ghost d: Dom, ghost sel: Path, ghost c: Path, ghost freed: set<object>)
    returns (ghost d': Dom, ghost freed': set<object>)
    requires Selected(d, sel) && c in d.st && d.st[c] == child && c != [] && Up(c) == sel && d.st[sel] == cur && freed == Unheld(d)
    modifies d.world
    ensures Selected(d', sel) && d'.st == Pruned(d, c).st && d.world <= d'.world && fresh(d'.world - d.world)
    ensures freed <= freed' == Unheld(d')
    ensures Abs(d') == Replaced(old(Abs(d)), c, Sec([Text(val)], [], [], [], [], ""))
  {
    hide Wf, Spares, Local, Abs, LinkedAt, Replaced, Unheld;
    WorldHolds(d);
    AbsKeys(d);
    ghost var doc := Abs(d);
    ghost var d1;
    d1, freed' := Vacate(child, cur, d, c, freed);
    WorldHolds(d1);
    SelectedPruned(d, sel, c);
    RefilledDoc(doc, c, val);
    label blank:
    var tail;
    tail, d' := PushText(child, HeadOf(child), val, d1, c);
    SelectedKept@blank(d1, d', sel, c);
  }

  method SetFound(child: Template, cur: Template, val: string, existing: Node?, ghost d: Dom, ghost sel: Path, ghost c: Path,
                  ghost freed: set<object>)
    returns (ghost d': Dom, ghost freed': set<object>)
    requires Selected(d, sel) && c in d.st && d.st[c] == child && c != [] && Up(c) == sel && d.st[sel] == cur
    requires !NullWrite(Abs(d)[c], val) && Brought(existing, val, d.world) && freed == Unheld(d)
    modifies d.world, Given(existing)
    ensures Selected(d', sel) && d'.st == Pruned(d, c).st && d.world <= d'.world && fresh(d'.world - d.world - Given(existing))
    ensures Abs(d') == SetSectionDoc(old(Abs(d)), c, val) && freed <= freed' == Unheld(d')
  {
    hide Wf, Local, Abs, LinkedAt, Readded, NullWrite, Replaced, SetSectionDoc, Pruned, Unheld;
    WorldHolds(d);
    AbsKeys(d);
    ghost var doc := Abs(d);
    PrunedStays(d, c);
    d', freed' := SetText(child, cur, val, d, sel, c, freed);
    WorldHolds(d');
    AbsKeys(d');
    ghost var d1 := Abs(d');
    d', freed' := SetAdded(child, val, existing, d', c, freed');
    SetDoc(doc, d1, Abs(d'), c, val, d1[c].added);
  }

  /** The section that answers to `key` may be given the text. */
  predicate SetOk(doc: Doc, sel: Path, key: string, val: string) {
    && CleanName(key) && sel in doc
    && var found := SelectPath(doc, sel, KeyOf(key));
       found.Some? && found.value in doc ==> !NullWrite(doc[found.value], val)
  }

  /** tpl_set_section_ex */
  method SetSectionEx(tpl: Template, key: string, val: string, existing: Node?, ghost d: Dom, ghost sel: Path, ghost freed: set<object>)
    returns (code: int, ghost d': Dom, ghost freed': set<object>)
    requires Selected(d, sel) && d.st[[]] == tpl && SetOk(Abs(d), sel, key, val) && Brought(existing, val, d.world) && freed == Unheld(d)
    modifies d.world, Given(existing)
    ensures Selected(d', sel) && d'.st[[]] == tpl && d.world <= d'.world && fresh(d'.world - d.world - Given(existing)) && freed <= freed' == Unheld(d')
    ensures var found := SelectPath(old(Abs(d)), sel, KeyOf(key));
            && code == (if found.Some? then TPL_OK else TPL_SECTION_NOT_FOUND_ERROR)
            && Abs(d') == if found.Some? then SetSectionDoc(old(Abs(d)), found.value, val) else old(Abs(d))
    ensures code != TPL_OK ==> d' == d
  {
    hide Wf, Linked, SelectPath, Abs, NullWrite, SetSectionDoc, Unheld;
    ghost var found := SelectPath(Abs(d), sel, KeyOf(key));
    AbsKeys(d);
    var section := FindSelected(tpl, key, d, sel);
    d', code, freed' := d, TPL_SECTION_NOT_FOUND_ERROR, freed;
    if section != null {
      d', freed' := SetFound(section.tpl, tpl.tpl, val, existing, d, sel, found.value, freed);
      code := TPL_OK;
    }
  }

  /** tpl_set_section */
  method SetSection(tpl: Template, key: string, val: string, ghost d: Dom, ghost sel: Path, ghost freed: set<object>)
    returns (code: int, ghost d': Dom, ghost freed': set<object>)
    requires Selected(d, sel) && d.st[[]] == tpl && SetOk(Abs(d), sel, key, val)
    requires freed == Unheld(d)
    modifies d.world
    ensures Selected(d', sel) && d'.st[[]] == tpl && d.world <= d'.world && fresh(d'.world - d.world) && freed <= freed' == Unheld(d')
    ensures var found := SelectPath(old(Abs(d)), sel, KeyOf(key));
            && code == (if found.Some? then TPL_OK else TPL_SECTION_NOT_FOUND_ERROR)
            && Abs(d') == if found.Some? then SetSectionDoc(old(Abs(d)), found.value, val) else old(Abs(d))
  {
    hide Selected, Abs, SetOk, SelectPath, Replaced, Unheld;
    code, d', freed' := SetSectionEx(tpl, key, val, null, d, sel, freed);
  }

  /** What reading a file comes to. */
  datatype File = Missing | Short | Content(text: string)

  /** tpl_set_section_from_file: the content is read into a node, and the node goes into the appended chain. */
  method SetSectionFromFile(tpl: Template, key: string, file: File, ghost d: Dom, ghost sel: Path, ghost freed: set<object>)
    returns (code: int, ghost d': Dom, ghost freed': set<object>)
    requires Selected(d, sel) && d.st[[]] == tpl && (file.Content? ==> SetOk(Abs(d), sel, key, file.text))
    requires freed == Unheld(d)
    modifies d.world
    ensures Selected(d', sel) && d'.st[[]] == tpl && d.world <= d'.world && fresh(d'.world - d.world) && freed <= freed' == Unheld(d')
    ensures var found := SelectPath(old(Abs(d)), sel, KeyOf(key));
            && code == (match file
                        case Missing => TPL_OPEN_ERROR
                        case Short => TPL_READ_ERROR
                        case Content(_) => if found.Some? then TPL_OK else TPL_SECTION_NOT_FOUND_ERROR)
            && Abs(d') == if file.Content? && found.Some? then SetSectionDoc(old(Abs(d)), found.value, file.text) else old(Abs(d))
  {
    hide Selected, Abs, SetOk, SelectPath, Replaced, Unheld;
    d', freed' := d, freed;
    match file
    case Missing =>
      code := TPL_OPEN_ERROR;
    case Short =>
      var node := new Node("", Loose);
      code := TPL_READ_ERROR;
      d', freed' := DestroyBrought(node, d, sel, freed);
    case Content(text) =>
      var node := new Node(text, Loose);
      code, d', freed' := SetSectionEx(tpl, key, text, node, d, sel, freed);
      if code != TPL_OK {
        d', freed' := DestroyBrought(node, d', sel, freed');
      }
  }

  /** A node that found no place is given back. */
  method DestroyBrought(node: Node, ghost d: Dom, ghost sel: Path, ghost freed: set<object>) returns (ghost d': Dom, ghost freed': set<object>)
    requires Selected(d, sel) && node !in d.world && freed == Unheld(d)
    ensures d' == Dom(d.root, d.st, d.world + {node}) && Selected(d', sel) && Abs(d') == Abs(d) && freed <= freed' == Unheld(d')
  {
    hide Unheld;
    d' := Dom(d.root, d.st, d.world + {node});
    NotHeld(d, d', node);
    WidenedWf(d, d');
    assert Shape(d') == Shape(d);
    freed' := Destroy(node, freed);
  }

  lemma {:induction false} NotHeld(d: Dom, d': Dom, node: Node)
    requires Wf(d) && node !in d.world && d' == Dom(d.root, d.st, d.world + {node})
    ensures Unheld(d') == Unheld(d) + {node} && node !in Unheld(d)
  {
    forall q | q in d.st
      ensures node !in Owned(d.st[q])
    {
      OwnedBelongs(d, q);
    }
  }

  lemma {:induction false} WidenedWf(d: Dom, d': Dom)
    requires Wf(d) && d' == Dom(d.root, d.st, d'.world) && d.world <= d'.world
    ensures Wf(d') && Abs(d') == Abs(d)
  {
    forall q | q in d.st
      ensures Local(d', q)
    {
      assert d.st[q] in d.world && Local(d, q);
      LocalWidens(d, d', q);
    }
  }
}
