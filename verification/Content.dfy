/** Reading a section's content off its chains. */
module TplContent {
  import opened TplDocument
  import opened TplHeap
  import opened TplChains

  /** The node pointer stored at an address. */
  function Load(l: Link): Node?
    reads if l.HeadOf? || l.AddedHeadOf? then {l.t} else {}
    reads if l.NextOf? then {l.n} else {}
  {
    match l
    case HeadOf(t) => t.head
    case AddedHeadOf(t) => t.addedHead
    case NextOf(n) => n.next
    case NoLink => null
  }

  lemma {:induction false} LoadPreceding(t: Template, w: set<object>, k: nat)
    requires t.MainOk(w) && t.SectionsOk(w) && SecOk(t.v.sec) && k < |t.v.scells|
    ensures t.v.scells[k] in w && t.v.sec.anchors[k] <= |t.v.nodes|
    ensures Load(t.v.scells[k].preceding) == NodeAt(t.v.nodes, t.v.sec.anchors[k])
  {
    assert t.SectionCellOk(w, k);
    var a := t.v.sec.anchors[k];
    if a > 0 {
      assert t.MainNodeOk(w, a - 1);
    }
  }

  lemma {:induction false} MainIndex(t: Template, w: set<object>, i: nat, j: nat)
    requires t.MainOk(w) && i <= |t.v.nodes| && j <= |t.v.nodes| && NodeAt(t.v.nodes, i) == NodeAt(t.v.nodes, j)
    ensures i == j
  {
    if i < |t.v.nodes| && j < |t.v.nodes| {
      assert t.MainNodeOk(w, i) && t.MainNodeOk(w, j);
    }
  }

  /** What M_NODE_TEXT selects. */
  method NodeText(n: Node, ghost t: Template, ghost w: set<object>, ghost i: nat) returns (text: string)
    requires t.MainOk(w) && t.FieldsOk(w) && i < |t.v.nodes| && n == t.v.nodes[i]
    ensures text == ItemText(t.v.sec.items, t.v.sec.vals, i)
    ensures n.next == NodeAt(t.v.nodes, i + 1)
  {
    assert t.MainNodeOk(w, i);
    if n.val.Some? {
      text := n.val.value;
    } else {
      assert t.FieldCellOk(w, t.v.sec.items[i].k);
      text := n.fval.val;
    }
  }

  /** The loop that adds up the lengths of the nodes from `from` up to `to`. */
  method RunLength(from: Node?, to: Node?, ghost t: Template, ghost w: set<object>, ghost i: nat, ghost a: nat)
    returns (len: nat)
    requires t.MainOk(w) && t.FieldsOk(w) && i <= a <= |t.v.nodes|
    requires from == NodeAt(t.v.nodes, i) && to == NodeAt(t.v.nodes, a)
    ensures len == |ItemsText(t.v.sec.items, t.v.sec.vals, i, a)|
  {
    len := 0;
    var n := from;
    ghost var j := i;
    while n != to
      invariant i <= j <= a && n == NodeAt(t.v.nodes, j)
      invariant len == |ItemsText(t.v.sec.items, t.v.sec.vals, i, j)|
      decreases a - j
    {
      var text := NodeText(n, t, w, j);
      len := len + |text|;
      n := n.next;
      j := j + 1;
    }
    MainIndex(t, w, j, a);
  }

  lemma {:induction false} RunStarts(items: seq<Item>, vals: seq<string>, i: nat, a: nat)
    requires i <= a <= |items|
    ensures ItemsText(items, vals, i, i) == ""
  {
  }

  lemma {:induction false} RunGrows(items: seq<Item>, vals: seq<string>, i: nat, j: nat, a: nat)
    requires i <= j < a <= |items|
    ensures ItemsText(items, vals, i, j + 1) == ItemsText(items, vals, i, j) + ItemText(items, vals, j)
    ensures |ItemsText(items, vals, j, a)| == |ItemText(items, vals, j)| + |ItemsText(items, vals, j + 1, a)|
  {
    ItemsTextSplit(items, vals, j, j + 1, a);
  }

  /** memcpy into a buffer. */
  method CopyText(buffer: array<char>, at: nat, text: string) returns (end: nat)
    requires at + |text| <= buffer.Length
    modifies buffer
    ensures end == at + |text|
    ensures buffer[..end] == old(buffer[..at]) + text
    ensures forall x | end <= x < buffer.Length :: buffer[x] == old(buffer[x])
  {
    for i := 0 to |text|
      invariant buffer[..at + i] == old(buffer[..at]) + text[..i]
      invariant forall x | at + i <= x < buffer.Length :: buffer[x] == old(buffer[x])
    {
      buffer[at + i] := text[i];
    }
    end := at + |text|;
  }

  /** The loop that copies the nodes from `from` up to `to` into the buffer. */
  method CopyRun(buffer: array<char>, at: nat, from: Node?, to: Node?,
                 ghost t: Template, ghost w: set<object>, ghost i: nat, ghost a: nat)
    returns (end: nat)
    requires t in w && buffer !in w && t.MainOk(w) && t.FieldsOk(w) && i <= a <= |t.v.nodes|
    requires from == NodeAt(t.v.nodes, i) && to == NodeAt(t.v.nodes, a)
    requires at + |ItemsText(t.v.sec.items, t.v.sec.vals, i, a)| <= buffer.Length
    modifies buffer
    ensures end == at + |ItemsText(t.v.sec.items, t.v.sec.vals, i, a)|
    ensures buffer[..end] == old(buffer[..at]) + ItemsText(t.v.sec.items, t.v.sec.vals, i, a)
    ensures forall x | end <= x < buffer.Length :: buffer[x] == old(buffer[x])
  {
    hide ItemsText;
    end := at;
    var n := from;
    ghost var j, items, vals := i, t.v.sec.items, t.v.sec.vals;
    RunStarts(items, vals, i, a);
    assert old(buffer[..at]) + "" == old(buffer[..at]);
    while n != to
      invariant i <= j <= a && n == NodeAt(t.v.nodes, j)
      invariant end == at + |ItemsText(t.v.sec.items, t.v.sec.vals, i, j)|
      invariant end + |ItemsText(t.v.sec.items, t.v.sec.vals, j, a)| == at + |ItemsText(t.v.sec.items, t.v.sec.vals, i, a)|
      invariant buffer[..end] == old(buffer[..at]) + ItemsText(t.v.sec.items, t.v.sec.vals, i, j)
      invariant forall x | end <= x < buffer.Length :: buffer[x] == old(buffer[x])
      decreases a - j
    {
      var text := NodeText(n, t, w, j);
      RunGrows(items, vals, i, j, a);
      Cat(old(buffer[..at]), ItemsText(items, vals, i, j), text);
      end := CopyText(buffer, end, text);
      n := n.next;
      j := j + 1;
    }
    MainIndex(t, w, j, a);
  }

  /** The loop that copies a child's appended chain. */
  method CopyAdded(buffer: array<char>, at: nat, from: Node?, ghost c: Template, ghost w: set<object>)
    returns (end: nat)
    requires c in w && buffer !in w && c.AddedOk(w) && from == c.addedHead
    requires at + |c.v.sec.added| <= buffer.Length
    modifies buffer
    ensures end == at + |c.v.sec.added|
    ensures buffer[..end] == old(buffer[..at]) + c.v.sec.added
    ensures forall x | end <= x < buffer.Length :: buffer[x] == old(buffer[x])
  {
    end := at;
    var n := from;
    ghost var j := 0;
    while n != null
      invariant 0 <= j <= |c.v.addedNodes| && n == NodeAt(c.v.addedNodes, j)
      invariant end == at + |Flat(c.v.addedParts[..j])| <= buffer.Length
      invariant buffer[..end] == old(buffer[..at]) + Flat(c.v.addedParts[..j])
      invariant forall x | end <= x < buffer.Length :: buffer[x] == old(buffer[x])
      decreases |c.v.addedNodes| - j
    {
      assert c.AddedNodeOk(w, j);
      FlatPrefix(c.v.addedParts, j);
      end := CopyText(buffer, end, n.val.value);
      n := n.next;
      j := j + 1;
    }
    assert c.v.addedParts[..j] == c.v.addedParts;
  }

  lemma {:induction false} FlatPrefix(parts: seq<string>, j: nat)
    requires j < |parts|
    ensures Flat(parts[..j + 1]) == Flat(parts[..j]) + parts[j]
    ensures |Flat(parts[..j + 1])| <= |Flat(parts)|
  {
    assert parts[..j + 1] == parts[..j] + [parts[j]];
    FlatSnoc(parts[..j], parts[j]);
    FlatConcat(parts[..j + 1], parts[j + 1..]);
    assert parts == parts[..j + 1] + parts[j + 1..];
  }

  /** One turn of the loop over the children: the text up to the child, then its appended content. */
  method CopyChild(buffer: array<char>, at: nat, n: Node?, s: SectionCell,
                   ghost t: Template, ghost w: set<object>, ghost i: nat, ghost k: nat)
    returns (end: nat, stop: Node?)
    requires Readable(t, w) && buffer !in w && s.tpl in w && s.tpl.AddedOk(w)
    requires k < |t.v.scells| && s == t.v.scells[k]
    requires i <= t.v.sec.anchors[k] && i <= |t.v.nodes| && n == NodeAt(t.v.nodes, i)
    requires t.v.sec.anchors[k] <= |t.v.nodes|
    requires at + |ItemsText(t.v.sec.items, t.v.sec.vals, i, t.v.sec.anchors[k])| + |s.tpl.v.sec.added| <= buffer.Length
    modifies buffer
    ensures stop == NodeAt(t.v.nodes, t.v.sec.anchors[k])
    ensures end == at + |ItemsText(t.v.sec.items, t.v.sec.vals, i, t.v.sec.anchors[k])| + |s.tpl.v.sec.added|
    ensures buffer[..end] == old(buffer[..at]) + ItemsText(t.v.sec.items, t.v.sec.vals, i, t.v.sec.anchors[k]) + s.tpl.v.sec.added
    ensures forall x | end <= x < buffer.Length :: buffer[x] == old(buffer[x])
  {
    LoadPreceding(t, w, k);
    stop := Load(s.preceding);
    end := CopyRun(buffer, at, n, stop, t, w, i, t.v.sec.anchors[k]);
    end := CopyAdded(buffer, end, s.tpl.addedHead, s.tpl, w);
  }

  /** The same turn seen on the document. */
  method CopyTurn(buffer: array<char>, at: nat, n: Node?, s: SectionCell,
                  ghost t: Template, ghost w: set<object>, ghost doc: Doc, ghost p: Path, ghost i: nat, ghost k: nat)
    returns (end: nat, stop: Node?)
    requires Readable(t, w) && buffer !in w && p in doc && doc[p] == t.v.sec && |Render(doc, p)| < buffer.Length
    requires k < |t.v.scells| && s == t.v.scells[k] && s.tpl in w && s.tpl.AddedOk(w) && s.tpl.v.sec.added == AddedAt(doc, Child(p, k))
    requires i <= t.v.sec.anchors[k] && i <= |t.v.nodes| && n == NodeAt(t.v.nodes, i)
    requires k > 0 ==> t.v.sec.anchors[k - 1] <= i
    requires at == |RenderTo(doc, p, i, k)| < buffer.Length && buffer[..at] == RenderTo(doc, p, i, k)
    modifies buffer
    ensures at <= end && t.v.sec.anchors[k] <= |t.v.nodes| && stop == NodeAt(t.v.nodes, t.v.sec.anchors[k])
    ensures end == |RenderTo(doc, p, t.v.sec.anchors[k], k + 1)| < buffer.Length
    ensures buffer[..end] == RenderTo(doc, p, t.v.sec.anchors[k], k + 1)
    ensures forall x | end <= x < buffer.Length :: buffer[x] == old(buffer[x])
  {
    hide RenderTo, ItemsText, AddedAt;
    WeaveChild(doc, p, i, k);
    end, stop := CopyChild(buffer, at, n, s, t, w, i, k);
  }

  /** `t` and the appended chains of its children show what section `p` of `doc` holds. */
  ghost predicate Shown(t: Template, w: set<object>, doc: Doc, p: Path)
    reads t, w
  {
    && Readable(t, w) && p in doc && doc[p] == t.v.sec
    && forall k {:trigger Child(p, k)} | 0 <= k < |t.v.scells| ::
         var s := t.v.scells[k];
         && s in w && s.next == SectionAt(t.v.scells, k + 1)
         && s.tpl in w && s.tpl.AddedOk(w) && s.tpl.v.sec.added == AddedAt(doc, Child(p, k))
  }

  lemma {:induction false} WfShown(d: Dom, p: Path)
    requires Wf(d) && p in d.st
    ensures Shown(d.st[p], d.world, Abs(d), p)
  {
    var t := d.st[p];
    assert Local(d, p);
    forall k | 0 <= k < |t.v.scells|
      ensures var s := t.v.scells[k]; s in d.world && s.next == SectionAt(t.v.scells, k + 1)
      ensures var c := t.v.scells[k].tpl; c in d.world && c.AddedOk(d.world) && c.v.sec.added == AddedAt(Abs(d), Child(p, k))
    {
      assert t.SectionCellOk(d.world, k) && Local(d, Child(p, k));
    }
  }

  /** The text after the last child, and the terminator. */
  method CopyRest(buffer: array<char>, at: nat, n: Node?,
                  ghost t: Template, ghost w: set<object>, ghost doc: Doc, ghost p: Path, ghost i: nat)
    requires Shown(t, w, doc, p) && buffer !in w && |Render(doc, p)| < buffer.Length
    requires i <= |t.v.nodes| && n == NodeAt(t.v.nodes, i)
    requires |t.v.scells| > 0 ==> t.v.sec.anchors[|t.v.scells| - 1] <= i
    requires at == |RenderTo(doc, p, i, |t.v.scells|)| && at < buffer.Length
    requires buffer[..at] == RenderTo(doc, p, i, |t.v.scells|)
    modifies buffer
    ensures at <= |Render(doc, p)|
    ensures buffer[..|Render(doc, p)| + 1] == Render(doc, p) + ['\0']
    ensures forall x | |Render(doc, p)| < x < buffer.Length :: buffer[x] == old(buffer[x])
  {
    hide RenderTo, ItemsText, AddedAt;
    RenderRun(doc, p, i, |t.v.nodes|, |t.v.scells|);
    var end := CopyRun(buffer, at, n, null, t, w, i, |t.v.nodes|);
    end := CopyText(buffer, end, ['\0']);
  }

  lemma {:induction false} RenderNothing(doc: Doc, p: Path)
    requires p in doc
    ensures RenderTo(doc, p, 0, 0) == ""
  {
  }

  /** tpl_get_content: the whole content and the terminator, nothing beyond. */
  method GetContent(t: Template, buffer: array<char>, ghost w: set<object>, ghost doc: Doc, ghost p: Path)
    requires Shown(t, w, doc, p) && buffer !in w
    requires |Render(doc, p)| < buffer.Length
    modifies buffer
    ensures buffer[..|Render(doc, p)| + 1] == Render(doc, p) + ['\0']
    ensures forall x | |Render(doc, p)| < x < buffer.Length :: buffer[x] == old(buffer[x])
  {
    hide RenderTo, RestFrom;
    var n := t.head;
    var s := t.first;
    var end := 0;
    ghost var i, k := 0, 0;
    RenderNothing(doc, p);
    RestCompletes(doc, p, 0, 0);
    while s != null
      invariant 0 <= k <= |t.v.scells| && s == SectionAt(t.v.scells, k)
      invariant 0 <= i <= |t.v.nodes| && n == NodeAt(t.v.nodes, i)
      invariant k > 0 ==> i == t.v.sec.anchors[k - 1]
      invariant k == 0 ==> i == 0
      invariant end == |RenderTo(doc, p, i, k)| < buffer.Length && buffer[..end] == RenderTo(doc, p, i, k)
      invariant forall x | end <= x < buffer.Length :: buffer[x] == old(buffer[x])
      decreases |t.v.scells| - k
    {
      ghost var a := t.v.sec.anchors[k];
      assert AddedAt(doc, Child(p, k)) == s.tpl.v.sec.added;
      end, n := CopyTurn(buffer, end, n, s, t, w, doc, p, i, k);
      s := s.next;
      i, k := a, k + 1;
    }
    CopyRest(buffer, end, n, t, w, doc, p, i);
  }

  /** The loop that adds up a child's appended chain. */
  method AddedRunLength(from: Node?, ghost c: Template, ghost w: set<object>) returns (len: nat)
    requires c in w && c.AddedOk(w) && from == c.addedHead
    ensures len == |c.v.sec.added|
  {
    len := 0;
    var n := from;
    ghost var j := 0;
    while n != null
      invariant 0 <= j <= |c.v.addedNodes| && n == NodeAt(c.v.addedNodes, j)
      invariant len == |Flat(c.v.addedParts[..j])|
      decreases |c.v.addedNodes| - j
    {
      assert c.AddedNodeOk(w, j);
      FlatPrefix(c.v.addedParts, j);
      len := len + |n.val.value|;
      n := n.next;
      j := j + 1;
    }
    assert c.v.addedParts[..j] == c.v.addedParts;
  }

  method ChildLength(s: SectionCell, ghost t: Template, ghost w: set<object>, ghost doc: Doc, ghost p: Path, ghost k: nat)
    returns (len: nat, next: SectionCell?)
    requires Shown(t, w, doc, p) && k < |t.v.scells| && s == t.v.scells[k]
    ensures len == |AddedAt(doc, Child(p, k))| && next == SectionAt(t.v.scells, k + 1)
  {
    assert AddedAt(doc, Child(p, k)) == s.tpl.v.sec.added;
    len := AddedRunLength(s.tpl.addedHead, s.tpl, w);
    next := s.next;
  }

  /** tpl_length: exactly what tpl_get_content writes before the terminator. */
  method Length(t: Template, ghost w: set<object>, ghost doc: Doc, ghost p: Path) returns (len: nat)
    requires Shown(t, w, doc, p)
    ensures len == |Render(doc, p)|
  {
    hide RenderTo, ItemsText, AddedAt;
    len := RunLength(t.head, null, t, w, 0, |t.v.nodes|);
    var s := t.first;
    ghost var k := 0;
    while s != null
      invariant 0 <= k <= |t.v.scells| && s == SectionAt(t.v.scells, k)
      invariant len == |ItemsText(t.v.sec.items, t.v.sec.vals, 0, |t.v.nodes|)| + AddedLength(doc, p, k)
      decreases |t.v.scells| - k
    {
      var more;
      more, s := ChildLength(s, t, w, doc, p, k);
      len := len + more;
      k := k + 1;
    }
    RenderLength(doc, p, |t.v.nodes|, |t.v.scells|);
  }
}
