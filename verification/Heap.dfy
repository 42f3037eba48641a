/** The template engine's heap: nodes, field cells, section cells and template records, with the
    invariant that ties them to the document they stand for. */
module TplHeap {
  import opened TplNames
  import opened TplDocument

  const TPL_OK := 0
  const TPL_SECTION_NOT_FOUND_ERROR := -1
  const TPL_NO_SECTION_SELECTED_ERROR := -2
  const TPL_SYNTAX_ERROR := -3
  const TPL_READ_ERROR := -5
  const TPL_OPEN_ERROR := -7

  datatype Option<T> = None | Some(value: T) {
    function GetOr(default: T): T {
      if Some? then value else default
    }
  }

  /** The address of a node pointer: a template's `head` or `added_head`, or a node's `next`. */
  datatype Link = NoLink | HeadOf(t: Template) | AddedHeadOf(t: Template) | NextOf(n: Node)

  /** The one chain, and the place in it, that a node belongs to. */
  datatype Home = Loose | Main(t: Template, at: nat) | Added(t: Template, at: nat)

  class Node {
    var val: Option<string>
    var fval: FieldCell?
    var next: Node?
    ghost var home: Home

    constructor (text: string, ghost home: Home)
      ensures val == Some(text) && fval == null && next == null && this.home == home
    {
      val, fval, next, this.home := Some(text), null, null, home;
    }
  }

  class FieldCell {
    const key: Key
    var val: string
    var next: FieldCell?
    ghost const owner: Template
    ghost const at: nat

    constructor (key: Key, ghost owner: Template, ghost at: nat)
      ensures this.key == key && this.owner == owner && this.at == at && val == "" && next == null
    {
      this.key, this.owner, this.at := key, owner, at;
      val, next := "", null;
    }
  }

  class SectionCell {
    const key: Key
    const tpl: Template
    var preceding: Link
    var bnext: SectionCell?
    var next: SectionCell?
    ghost const owner: Template
    ghost const at: nat

    constructor (key: Key, tpl: Template, ghost owner: Template, ghost at: nat)
      ensures this.key == key && this.tpl == tpl && this.owner == owner && this.at == at
      ensures preceding == NoLink && bnext == null && next == null
    {
      this.key, this.tpl, this.owner, this.at := key, tpl, owner, at;
      preceding, bnext, next := NoLink, null, null;
    }
  }

  function NodeAt(ns: seq<Node>, i: nat): Node? { if i < |ns| then ns[i] else null }
  function FieldAt(cs: seq<FieldCell>, i: nat): FieldCell? { if i < |cs| then cs[i] else null }
  function SectionAt(cs: seq<SectionCell>, i: nat): SectionCell? { if i < |cs| then cs[i] else null }

  /** The address of the pointer to the i-th node of a template's main chain. */
  ghost function LinkTo(t: Template, ns: seq<Node>, i: nat): Link
  {
    if i == 0 then HeadOf(t) else if i <= |ns| then NextOf(ns[i - 1]) else NoLink
  }

  function Flat(parts: seq<string>): string {
    if parts == [] then "" else Flat(parts[..|parts| - 1]) + parts[|parts| - 1]
  }

  /** What the links of a template are meant to reach, and the section they stand for. */
  datatype View = View(
    path: Path,
    nodes: seq<Node>,
    addedNodes: seq<Node>,
    addedParts: seq<string>,
    fcells: seq<FieldCell>,
    scells: seq<SectionCell>,
    sec: Sec)

  class Template {
    var head: Node?
    var addedHead: Node?
    var addedTail: Link
    var first: SectionCell?
    var fields: seq<FieldCell?>
    var sections: seq<SectionCell?>
    var tpl: Template
    var parent: Template?

    ghost var v: View

    constructor (ghost path: Path)
      ensures Blank(path) && tpl == this && parent == null
    {
      head, addedHead, addedTail, first := null, null, NoLink, null;
      fields, sections := seq(HASH_TABLE_SIZE, _ => null), seq(HASH_TABLE_SIZE, _ => null);
      tpl, parent := this, null;
      v := View(path, [], [], [], [], [], EMPTY);
      new;
      addedTail := AddedHeadOf(this);
    }

    /** Freshly initialized. */
    ghost predicate Blank(path: Path)
      reads this
    {
      && head == null && addedHead == null && addedTail == AddedHeadOf(this) && first == null
      && |fields| == HASH_TABLE_SIZE && (forall h | 0 <= h < HASH_TABLE_SIZE :: fields[h] == null)
      && |sections| == HASH_TABLE_SIZE && (forall h | 0 <= h < HASH_TABLE_SIZE :: sections[h] == null)
      && v == View(path, [], [], [], [], [], EMPTY)
    }

    ghost predicate Shows(n: Node, it: Item)
      reads this, n
    {
      match it
      case Text(s) => n.val == Some(s)
      case Field(k) => n.val == None && k < |v.fcells| && n.fval == v.fcells[k]
    }

    // Each chain is described cell by cell; the quantifiers below are instantiated by hand.

    ghost predicate MainNodeOk(w: set<object>, i: nat)
      reads this, w
    {
      && i < |v.nodes| && i < |v.sec.items|
      && v.nodes[i] in w
      && v.nodes[i].home == Main(this, i)
      && v.nodes[i].next == NodeAt(v.nodes, i + 1)
      && Shows(v.nodes[i], v.sec.items[i])
    }

    ghost predicate MainOk(w: set<object>)
      reads this, w
    {
      && |v.nodes| == |v.sec.items|
      && head == NodeAt(v.nodes, 0)
      && forall i {:trigger MainNodeOk(w, i)} | 0 <= i < |v.nodes| :: MainNodeOk(w, i)
    }

    ghost predicate AddedNodeOk(w: set<object>, i: nat)
      reads this, w
    {
      && i < |v.addedNodes| && i < |v.addedParts|
      && v.addedNodes[i] in w
      && v.addedNodes[i].home == Added(this, i)
      && v.addedNodes[i].next == NodeAt(v.addedNodes, i + 1)
      && v.addedNodes[i].val == Some(v.addedParts[i])
    }

    ghost predicate AddedOk(w: set<object>)
      reads this, w
    {
      && |v.addedNodes| == |v.addedParts|
      && v.sec.added == Flat(v.addedParts)
      && addedHead == NodeAt(v.addedNodes, 0)
      && addedTail == (if v.addedNodes == [] then AddedHeadOf(this) else NextOf(v.addedNodes[|v.addedNodes| - 1]))
      && forall i {:trigger AddedNodeOk(w, i)} | 0 <= i < |v.addedNodes| :: AddedNodeOk(w, i)
    }

    ghost predicate FieldCellOk(w: set<object>, k: nat)
      reads this, w
    {
      && k < |v.fcells| && k < |v.sec.keys| && k < |v.sec.vals|
      && v.fcells[k] in w
      && v.fcells[k].owner == this && v.fcells[k].at == k
      && v.fcells[k].key == v.sec.keys[k] && v.fcells[k].key.bucket < HASH_TABLE_SIZE
      && v.fcells[k].val == v.sec.vals[k]
      && v.fcells[k].next == FieldAt(v.fcells, NextInBucket(v.sec.keys, v.sec.keys[k].bucket, k + 1))
    }

    ghost predicate FieldBucketOk(h: nat)
      reads this
    {
      h < |fields| && fields[h] == FieldAt(v.fcells, NextInBucket(v.sec.keys, h, 0))
    }

    ghost predicate FieldsOk(w: set<object>)
      reads this, w
    {
      && |v.fcells| == |v.sec.keys| == |v.sec.vals|
      && |fields| == HASH_TABLE_SIZE
      && (forall h {:trigger FieldBucketOk(h)} | 0 <= h < HASH_TABLE_SIZE :: FieldBucketOk(h))
      && forall k {:trigger FieldCellOk(w, k)} | 0 <= k < |v.fcells| :: FieldCellOk(w, k)
    }

    ghost predicate SectionCellOk(w: set<object>, k: nat)
      reads this, w
    {
      && k < |v.scells| && k < |v.sec.names| && k < |v.sec.anchors|
      && v.scells[k] in w
      && v.scells[k].owner == this && v.scells[k].at == k
      && v.scells[k].key == v.sec.names[k] && v.scells[k].key.bucket < HASH_TABLE_SIZE
      && v.scells[k].preceding == LinkTo(this, v.nodes, v.sec.anchors[k])
      && v.scells[k].next == SectionAt(v.scells, k + 1)
      && v.scells[k].bnext == SectionAt(v.scells, NextInBucket(v.sec.names, v.sec.names[k].bucket, k + 1))
    }

    ghost predicate SectionBucketOk(h: nat)
      reads this
    {
      h < |sections| && sections[h] == SectionAt(v.scells, NextInBucket(v.sec.names, h, 0))
    }

    ghost predicate SectionsOk(w: set<object>)
      reads this, w
    {
      && |v.scells| == |v.sec.names| == |v.sec.anchors|
      && |sections| == HASH_TABLE_SIZE
      && first == SectionAt(v.scells, 0)
      && (forall h {:trigger SectionBucketOk(h)} | 0 <= h < HASH_TABLE_SIZE :: SectionBucketOk(h))
      && forall k {:trigger SectionCellOk(w, k)} | 0 <= k < |v.scells| :: SectionCellOk(w, k)
    }
  }

  /** The records of a document, or of the part of it below `root`, by section path, and every
      object they may be made of. */
  datatype Dom = Dom(root: Path, st: map<Path, Template>, world: set<object>)

  ghost predicate Local(d: Dom, p: Path)
    requires p in d.st
    reads d.world
  {
    var t := d.st[p];
    && t in d.world
    && t.MainOk(d.world) && t.AddedOk(d.world) && t.FieldsOk(d.world) && t.SectionsOk(d.world)
    && SecOk(t.v.sec)
    && forall k {:trigger Child(p, k)} | 0 <= k < |t.v.scells| :: Child(p, k) in d.st && t.v.scells[k].tpl == d.st[Child(p, k)]
  }

  lemma {:induction false} BlankLocal(d: Dom, c: Path)
    requires c in d.st && d.st[c] in d.world && d.st[c].Blank(c)
    ensures Local(d, c)
  {
  }

  ghost predicate Wf(d: Dom)
    reads d.world
  {
    && (forall p {:trigger d.st[p]} | p in d.st :: d.st[p] in d.world && d.st[p].v.path == p && (p == d.root || |p| > |d.root|))
    && (forall p {:trigger Local(d, p)} | p in d.st :: Local(d, p))
    && d.root in d.st
    && (forall p {:trigger Up(p)} | p in d.st && p != d.root && p != [] :: Up(p) in d.st && p[|p| - 1] < |d.st[Up(p)].v.scells|)
  }

  lemma {:induction false} WorldHolds(d: Dom)
    requires Wf(d)
    ensures forall p {:trigger d.st[p]} | p in d.st :: d.st[p] in d.world
  {
  }

  ghost function Abs(d: Dom): Doc
    reads d.world
    requires Wf(d)
  {
    map p | p in d.st :: d.st[p].v.sec
  }

  /** What reading a section's own chains relies on. */
  ghost predicate Readable(t: Template, w: set<object>)
    reads t, w
  {
    t in w && t.MainOk(w) && t.FieldsOk(w) && t.SectionsOk(w) && SecOk(t.v.sec)
  }

  /** What the k-th section cell of a well-formed document leads to. */
  lemma {:induction false} ChildCell(d: Dom, p: Path, k: nat)
    requires Wf(d) && p in d.st && k < |d.st[p].v.scells|
    ensures Readable(d.st[p], d.world) && Child(p, k) in d.st && Child(p, k) in Abs(d)
    ensures d.st[p].v.scells[k] in d.world && d.st[p].v.scells[k].tpl == d.st[Child(p, k)]
    ensures d.st[Child(p, k)].addedHead == null ==> Abs(d)[Child(p, k)].added == ""
  {
    assert Local(d, p) && d.st[p].SectionCellOk(d.world, k) && Local(d, Child(p, k));
  }

  lemma {:induction false} FirstCell(d: Dom, p: Path)
    requires Wf(d) && p in d.st
    ensures d.st[p] in d.world && d.st[p].first == SectionAt(d.st[p].v.scells, 0)
  {
    assert Local(d, p);
  }

  lemma {:induction false} NextCell(d: Dom, p: Path, k: nat)
    requires Wf(d) && p in d.st && k < |d.st[p].v.scells|
    ensures d.st[p].v.scells[k].next == SectionAt(d.st[p].v.scells, k + 1)
  {
    assert Local(d, p) && d.st[p].SectionCellOk(d.world, k);
  }

  lemma {:induction false} LocalParts(d: Dom, p: Path)
    requires Wf(d) && p in d.st
    ensures Local(d, p) && Abs(d)[p] == d.st[p].v.sec && d.st[p].v.path == p
    ensures var t := d.st[p];
            && t in d.world && t.MainOk(d.world) && t.AddedOk(d.world) && t.FieldsOk(d.world) && t.SectionsOk(d.world) && SecOk(t.v.sec)
  {
  }

  lemma {:induction false} AbsKeys(d: Dom)
    requires Wf(d)
    ensures d.root in d.st && Abs(d).Keys == d.st.Keys
  {
  }

  /** What a step on contents leaves alone: the selection, the tree, and the cells. */
  datatype Bones = Bones(tpl: Template, parent: Template?, nodes: seq<Node>, fcells: seq<FieldCell>, scells: seq<SectionCell>)

  ghost function Shape(d: Dom): map<Path, Bones>
    reads d.world
    requires forall p | p in d.st :: d.st[p] in d.world
  {
    map p | p in d.st :: Bones(d.st[p].tpl, d.st[p].parent, d.st[p].v.nodes, d.st[p].v.fcells, d.st[p].v.scells)
  }

  lemma {:induction false} BonesAt(d: Dom, p: Path)
    requires (forall q | q in d.st :: d.st[q] in d.world) && p in d.st
    ensures Shape(d).Keys == d.st.Keys && Shape(d)[p].scells == d.st[p].v.scells
  {
  }

  /** The sections form a tree below the root. */
  ghost predicate Tree(d: Dom)
    reads d.world
  {
    && d.root in d.st
    && (forall p {:trigger d.st[p]} | p in d.st :: d.st[p] in d.world && d.st[p].v.path == p && (p == d.root || |p| > |d.root|))
    && (forall p {:trigger Up(p)} | p in d.st && p != d.root && p != [] :: Up(p) in d.st && p[|p| - 1] < |d.st[Up(p)].v.scells|)
  }

  /** Every prefix of a section's path, down to the root's, is a section's path. */
  lemma {:induction false} PrefixesIn(d: Dom, q: Path, n: nat)
    requires Tree(d) && q in d.st && |d.root| <= n <= |q|
    ensures q[..n] in d.st
    decreases |q| - n
  {
    if n == |q| {
      assert q[..n] == q;
    } else {
      assert d.st[q] in d.world;
      PrefixesIn(d, Up(q), n);
      assert Up(q)[..n] == q[..n];
    }
  }

  /** A section below `p` is at or below one of its children. */
  lemma {:induction false} ChildOf(d: Dom, p: Path, q: Path)
    requires Tree(d) && p in d.st && q in d.st && |d.root| <= |p| && p < q
    ensures q[|p|] < |d.st[p].v.scells| && Child(p, q[|p|]) in d.st && Child(p, q[|p|]) <= q
  {
    PrefixesIn(d, q, |p| + 1);
    var c := q[..|p| + 1];
    assert Up(c) == p && c == Child(p, q[|p|]);
  }

  /** Where the `tpl` pointer of section `p` leads while `sel` is selected: the root's to the selected
      section, those of the sections on the way to their successors, every other one back to itself. */
  function Target(sel: Path, p: Path): Path {
    if p == [] then sel else if p < sel then sel[..|p| + 1] else p
  }

  predicate LinkedAt(st: map<Path, Template>, bones: map<Path, Bones>, sel: Path, p: Path) {
    && p in bones && Target(sel, p) in st && bones[p].tpl == st[Target(sel, p)]
    && (p != [] ==> Up(p) in st && bones[p].parent == st[Up(p)])
  }

  ghost predicate Linked(st: map<Path, Template>, bones: map<Path, Bones>, sel: Path) {
    sel in st && forall p {:trigger LinkedAt(st, bones, sel, p)} | p in st :: LinkedAt(st, bones, sel, p)
  }

  /** A whole document with section `sel` selected. */
  ghost predicate Selected(d: Dom, sel: Path)
    reads d.world
  {
    Wf(d) && d.root == [] && Linked(d.st, Shape(d), sel)
  }
}
