/** The functional reference for a template: a finite map from section paths to sections. */
module TplDocument {
  import opened TplNames

  type Path = seq<nat>

  function Child(p: Path, k: nat): (c: Path)
    ensures |c| == |p| + 1 && Up(c) == p && c[|p|] == k
  {
    p + [k]
  }

  function Up(p: Path): Path
    requires p != []
  {
    p[..|p| - 1]
  }

  /** The sections of a set at or below `p`. */
  function Under(keys: set<Path>, p: Path): set<Path> {
    set q | q in keys && p <= q
  }

  lemma {:induction false} UnderShrinks(keys: set<Path>, p: Path, k: nat)
    requires p in keys
    ensures Under(keys, Child(p, k)) < Under(keys, p)
  {
    assert p in Under(keys, p) && p !in Under(keys, Child(p, k));
  }

  /** What stands at one position of a section: literal text, or the k-th field of its table. */
  datatype Item = Text(text: string) | Field(k: nat)

  /** One section: its items in order, its field table, its child sections (each standing before
      item `anchors[k]`), and the content appended to it so far. */
  datatype Sec = Sec(
    items: seq<Item>,
    keys: seq<Key>,
    vals: seq<string>,
    names: seq<Key>,
    anchors: seq<nat>,
    added: string)

  const EMPTY: Sec := Sec([], [], [], [], [], "")

  type Doc = map<Path, Sec>

  /** How many fields the items use, provided they number them by first use; -1 otherwise. */
  function Uses(items: seq<Item>): (n: int)
    ensures -1 <= n <= |items|
  {
    if items == [] then 0
    else
      var n := Uses(items[..|items| - 1]);
      match items[|items| - 1]
      case Text(_) => n
      case Field(k) => if k > n then -1 else if k == n then n + 1 else n
  }

  predicate AnchorsOk(anchors: seq<nat>, items: nat) {
    && (forall k | 0 <= k < |anchors| :: anchors[k] <= items)
    && (forall j, k | 0 <= j < k < |anchors| :: anchors[j] <= anchors[k])
  }

  predicate SecOk(s: Sec) {
    && |s.keys| == |s.vals| && |s.names| == |s.anchors|
    && Uses(s.items) == |s.keys|
    && AnchorsOk(s.anchors, |s.items|)
    && Free(s.keys) && Free(s.names) && Filed(s.keys) && Filed(s.names)
  }

  // ----- rendering -----

  function ItemText(items: seq<Item>, vals: seq<string>, i: nat): string
    requires i < |items|
  {
    match items[i]
    case Text(t) => t
    case Field(k) => if k < |vals| then vals[k] else ""
  }

  function ItemsText(items: seq<Item>, vals: seq<string>, i: nat, j: nat): string
    requires i <= j <= |items|
    decreases j - i
  {
    if i == j then "" else ItemsText(items, vals, i, j - 1) + ItemText(items, vals, j - 1)
  }

  function AddedAt(doc: Doc, p: Path): string {
    if p in doc then doc[p].added else ""
  }

  /** The text of the first `i` items woven with the appended content of the first `k` children. */
  function RenderTo(doc: Doc, p: Path, i: nat, k: nat): string
    requires p in doc
    requires i <= |doc[p].items| && k <= |doc[p].anchors|
    decreases i + k
  {
    var s := doc[p];
    if i > 0 && (k == 0 || s.anchors[k - 1] < i) then
      RenderTo(doc, p, i - 1, k) + ItemText(s.items, s.vals, i - 1)
    else if k > 0 then
      RenderTo(doc, p, i, k - 1) + AddedAt(doc, Child(p, k - 1))
    else ""
  }

  function Render(doc: Doc, p: Path): string
    requires p in doc
  {
    RenderTo(doc, p, |doc[p].items|, |doc[p].anchors|)
  }

  lemma {:induction false} RenderRun(doc: Doc, p: Path, i: nat, j: nat, k: nat)
    requires p in doc
    requires i <= j <= |doc[p].items| && k <= |doc[p].anchors|
    requires k > 0 ==> doc[p].anchors[k - 1] <= i
    ensures RenderTo(doc, p, j, k) == RenderTo(doc, p, i, k) + ItemsText(doc[p].items, doc[p].vals, i, j)
    decreases j - i
  {
    if i < j {
      RenderRun(doc, p, i, j - 1, k);
    }
  }

  /** Children without appended content leave no trace: the text around them is one run. */
  lemma {:induction false} RenderSkips(doc: Doc, p: Path, i: nat, a: nat, j: nat, k: nat)
    requires p in doc && AnchorsOk(doc[p].anchors, |doc[p].items|)
    requires i <= a <= |doc[p].items| && j <= k <= |doc[p].anchors|
    requires j > 0 ==> doc[p].anchors[j - 1] <= i
    requires k > j ==> i <= doc[p].anchors[j]
    requires k > 0 ==> doc[p].anchors[k - 1] <= a
    requires forall x | j <= x < k :: AddedAt(doc, Child(p, x)) == ""
    ensures RenderTo(doc, p, a, k) == RenderTo(doc, p, i, j) + ItemsText(doc[p].items, doc[p].vals, i, a)
    decreases k - j
  {
    if j == k {
      RenderRun(doc, p, i, a, k);
    } else {
      var m := doc[p].anchors[k - 1];
      var x, u, v := RenderTo(doc, p, i, j), ItemsText(doc[p].items, doc[p].vals, i, m), ItemsText(doc[p].items, doc[p].vals, m, a);
      calc {
        RenderTo(doc, p, a, k);
      ==  { RenderRun(doc, p, m, a, k); }
        RenderTo(doc, p, m, k) + v;
      ==  { EmptyEnd(RenderTo(doc, p, m, k - 1)); }
        RenderTo(doc, p, m, k - 1) + v;
      ==  { RenderSkips(doc, p, i, m, j, k - 1); }
        x + u + v;
      ==  { Cat(x, u, v); }
        x + (u + v);
      ==  { ItemsTextSplit(doc[p].items, doc[p].vals, i, m, a); }
        x + ItemsText(doc[p].items, doc[p].vals, i, a);
      }
    }
  }

  lemma {:induction false} Cat(x: string, y: string, z: string)
    ensures x + y + z == x + (y + z)
  {
  }

  lemma {:induction false} Assoc(x: string, y: string, u: string, v: string)
    ensures x + y + u + v == x + (y + u + v)
  {
  }

  lemma {:induction false} EmptyEnd(x: string)
    ensures x + "" == x
  {
  }

  lemma {:induction false} ItemsTextSplit(items: seq<Item>, vals: seq<string>, i: nat, m: nat, j: nat)
    requires i <= m <= j <= |items|
    ensures ItemsText(items, vals, i, j) == ItemsText(items, vals, i, m) + ItemsText(items, vals, m, j)
    decreases j - m
  {
    if m < j {
      ItemsTextSplit(items, vals, i, m, j - 1);
    }
  }

  /** What is left to write once `i` items and `k` children are done. */
  function RestFrom(doc: Doc, p: Path, i: nat, k: nat): string
    requires p in doc && AnchorsOk(doc[p].anchors, |doc[p].items|)
    requires i <= |doc[p].items| && k <= |doc[p].anchors|
    requires k < |doc[p].anchors| ==> i <= doc[p].anchors[k]
    decreases |doc[p].anchors| - k
  {
    var s := doc[p];
    if k == |s.anchors| then ItemsText(s.items, s.vals, i, |s.items|)
    else ItemsText(s.items, s.vals, i, s.anchors[k]) + AddedAt(doc, Child(p, k)) + RestFrom(doc, p, s.anchors[k], k + 1)
  }

  lemma {:induction false} RestCompletes(doc: Doc, p: Path, i: nat, k: nat)
    requires p in doc && AnchorsOk(doc[p].anchors, |doc[p].items|)
    requires i <= |doc[p].items| && k <= |doc[p].anchors|
    requires k < |doc[p].anchors| ==> i <= doc[p].anchors[k]
    requires k > 0 ==> doc[p].anchors[k - 1] <= i
    ensures RenderTo(doc, p, i, k) + RestFrom(doc, p, i, k) == Render(doc, p)
    decreases |doc[p].anchors| - k
  {
    var s := doc[p];
    if k == |s.anchors| {
      RenderRun(doc, p, i, |s.items|, k);
    } else {
      var a := s.anchors[k];
      var x, u, v := RenderTo(doc, p, i, k), ItemsText(s.items, s.vals, i, a), AddedAt(doc, Child(p, k));
      RenderRun(doc, p, i, a, k);
      RestCompletes(doc, p, a, k + 1);
      assert RenderTo(doc, p, a, k + 1) == x + u + v;
      Assoc(x, u, v, RestFrom(doc, p, a, k + 1));
    }
  }

  /** One child further along the weave. */
  lemma {:induction false} WeaveChild(doc: Doc, p: Path, i: nat, k: nat)
    requires p in doc && AnchorsOk(doc[p].anchors, |doc[p].items|)
    requires i <= |doc[p].items| && k < |doc[p].anchors|
    requires i <= doc[p].anchors[k]
    requires k > 0 ==> doc[p].anchors[k - 1] <= i
    ensures RenderTo(doc, p, doc[p].anchors[k], k + 1) ==
            RenderTo(doc, p, i, k) + ItemsText(doc[p].items, doc[p].vals, i, doc[p].anchors[k]) + AddedAt(doc, Child(p, k))
    ensures |RenderTo(doc, p, doc[p].anchors[k], k + 1)| <= |Render(doc, p)|
  {
    var a := doc[p].anchors[k];
    RenderRun(doc, p, i, a, k);
    RestCompletes(doc, p, a, k + 1);
  }

  function AddedLength(doc: Doc, p: Path, k: nat): nat {
    if k == 0 then 0 else AddedLength(doc, p, k - 1) + |AddedAt(doc, Child(p, k - 1))|
  }

  /** Counting items and children apart gives the length of the weave. */
  lemma {:induction false} RenderLength(doc: Doc, p: Path, i: nat, k: nat)
    requires p in doc && i <= |doc[p].items| && k <= |doc[p].anchors|
    ensures |RenderTo(doc, p, i, k)| == |ItemsText(doc[p].items, doc[p].vals, 0, i)| + AddedLength(doc, p, k)
    decreases i + k
  {
    var s := doc[p];
    if i > 0 && (k == 0 || s.anchors[k - 1] < i) {
      RenderLength(doc, p, i - 1, k);
    } else if k > 0 {
      RenderLength(doc, p, i, k - 1);
    }
  }

  // ----- operations -----

  /** `d2` is `d1` with other appended content at the given sections. */
  predicate Readded(d1: Doc, d2: Doc, changes: map<Path, string>) {
    && d2.Keys == d1.Keys
    && forall p {:trigger d2[p]} | p in d1 ::
         d2[p] == if p in changes then d1[p].(added := changes[p]) else d1[p]
  }

  lemma {:induction false} ReaddedTwice(d1: Doc, d2: Doc, d3: Doc, p: Path, q: Path, text: string)
    requires p in d1 && q in d1 && p != q
    requires Readded(d1, d2, map[p := d1[p].added + text])
    requires Readded(d2, d3, map[p := d2[p].added + d2[q].added, q := ""])
    ensures Readded(d1, d3, map[p := d1[p].added + text + d1[q].added, q := ""])
  {
  }

  predicate PartlyAt(doc: Doc, now: Doc, sel: Path, i: nat, j: nat, k: nat, p: Path)
    requires sel in doc && i <= |doc[sel].items| && j <= |doc[sel].anchors|
    requires p in doc && p in now
  {
    now[p] == if p == sel then doc[p].(added := doc[p].added + RenderTo(doc, sel, i, j))
              else if p != [] && Up(p) == sel && p[|p| - 1] < k then doc[p].(added := "")
              else doc[p]
  }

  /** The document while the content of `sel` is being appended: `i` items and `j` children are
      copied, `k` children are looked at and emptied. */
  predicate Partly(doc: Doc, now: Doc, sel: Path, i: nat, j: nat, k: nat)
    requires sel in doc && i <= |doc[sel].items| && j <= |doc[sel].anchors|
  {
    now.Keys == doc.Keys &&
    forall p {:trigger PartlyAt(doc, now, sel, i, j, k, p)} | p in doc :: PartlyAt(doc, now, sel, i, j, k, p)
  }

  /** The selected section gains what it renders; its children start afresh. */
  function AppendDoc(doc: Doc, sel: Path): Doc
    requires sel in doc
  {
    map p | p in doc ::
      if p == sel then doc[p].(added := doc[p].added + Render(doc, sel))
      else if p != [] && Up(p) == sel then doc[p].(added := "")
      else doc[p]
  }

  /** Standing before child `k`: everything up to item `i` and child `j` is copied, and the children
      since then held nothing. */
  predicate AppendReached(doc: Doc, sel: Path, i: nat, j: nat, k: nat) {
    && sel in doc && AnchorsOk(doc[sel].anchors, |doc[sel].items|)
    && j <= k <= |doc[sel].anchors| && i <= |doc[sel].items|
    && i == (if j == 0 then 0 else doc[sel].anchors[j - 1])
    && (forall x | j <= x < k :: AddedAt(doc, Child(sel, x)) == "")
  }

  /** A child without appended content is passed over. */
  lemma {:induction false} AppendSkips(doc: Doc, now: Doc, sel: Path, i: nat, j: nat, k: nat)
    requires AppendReached(doc, sel, i, j, k) && Partly(doc, now, sel, i, j, k)
    requires AddedAt(doc, Child(sel, k)) == ""
    ensures Partly(doc, now, sel, i, j, k + 1)
  {
    forall p | p in doc
      ensures PartlyAt(doc, now, sel, i, j, k + 1, p)
    {
      assert PartlyAt(doc, now, sel, i, j, k, p);
      if p != [] && Up(p) == sel && p[|p| - 1] == k {
        assert p == Child(sel, k);
      }
    }
  }

  /** A child with appended content: the text before it is pushed, then its chain is moved. */
  lemma {:induction false} AppendTakes(doc: Doc, sel: Path, i: nat, j: nat, k: nat, text: string, d1: Doc, d2: Doc)
    requires AppendReached(doc, sel, i, j, k) && k < |doc[sel].anchors| && Child(sel, k) in doc
    requires Partly(doc, d1, sel, i, j, k)
    requires text == ItemsText(doc[sel].items, doc[sel].vals, i, doc[sel].anchors[k])
    requires Readded(d1, d2, map[sel := d1[sel].added + text + d1[Child(sel, k)].added, Child(sel, k) := ""])
    ensures Partly(doc, d2, sel, doc[sel].anchors[k], k + 1, k + 1)
  {
    var a := doc[sel].anchors[k];
    var x, u, v := RenderTo(doc, sel, i, j), ItemsText(doc[sel].items, doc[sel].vals, i, a), AddedAt(doc, Child(sel, k));
    assert RenderTo(doc, sel, a, k + 1) == x + u + v by {
      assert i <= doc[sel].anchors[j] <= a;
      RenderSkips(doc, sel, i, a, j, k);
    }
    assert PartlyAt(doc, d1, sel, i, j, k, sel) && PartlyAt(doc, d1, sel, i, j, k, Child(sel, k));
    Assoc(doc[sel].added, x, u, v);
    forall p | p in doc
      ensures PartlyAt(doc, d2, sel, a, k + 1, k + 1, p)
    {
      assert PartlyAt(doc, d1, sel, i, j, k, p);
      assert d2[p] == d2[p];
      if p != [] && Up(p) == sel && p[|p| - 1] == k {
        assert p == Child(sel, k);
      }
    }
  }

  lemma {:induction false} PartlyHere(doc: Doc, now: Doc, sel: Path, i: nat, j: nat, k: nat)
    requires AppendReached(doc, sel, i, j, k) && Partly(doc, now, sel, i, j, k)
    ensures now.Keys == doc.Keys && now[sel] == doc[sel].(added := now[sel].added)
    ensures Child(sel, k) in doc ==> now[Child(sel, k)] == doc[Child(sel, k)]
    ensures k < |doc[sel].anchors| ==> i <= doc[sel].anchors[k]
  {
    assert PartlyAt(doc, now, sel, i, j, k, sel);
    if Child(sel, k) in doc {
      assert PartlyAt(doc, now, sel, i, j, k, Child(sel, k));
    }
    if k < |doc[sel].anchors| {
      assert i <= doc[sel].anchors[j] <= doc[sel].anchors[k];
    }
  }

  lemma {:induction false} AppendStarts(doc: Doc, sel: Path)
    requires sel in doc && AnchorsOk(doc[sel].anchors, |doc[sel].items|)
    ensures AppendReached(doc, sel, 0, 0, 0) && Partly(doc, doc, sel, 0, 0, 0)
  {
    EmptyEnd(doc[sel].added);
  }

  predicate ChildrenWithin(doc: Doc, sel: Path, n: nat) {
    forall p {:trigger Up(p)} | p in doc && p != [] && Up(p) == sel :: p[|p| - 1] < n
  }

  /** Past the last child, the rest of the items completes the content. */
  lemma {:induction false} AppendEnds(doc: Doc, sel: Path, i: nat, j: nat, text: string, d1: Doc, d2: Doc)
    requires sel in doc && AppendReached(doc, sel, i, j, |doc[sel].anchors|)
    requires ChildrenWithin(doc, sel, |doc[sel].anchors|)
    requires Partly(doc, d1, sel, i, j, |doc[sel].anchors|)
    requires text == ItemsText(doc[sel].items, doc[sel].vals, i, |doc[sel].items|)
    requires Readded(d1, d2, map[sel := d1[sel].added + text])
    ensures d2 == AppendDoc(doc, sel)
  {
    var n := |doc[sel].anchors|;
    assert d2[sel] == AppendDoc(doc, sel)[sel] by {
      assert PartlyAt(doc, d1, sel, i, j, n, sel);
      RenderSkips(doc, sel, i, |doc[sel].items|, j, n);
      Cat(doc[sel].added, RenderTo(doc, sel, i, j), text);
    }
    forall p | p in doc && p != sel
      ensures d2[p] == AppendDoc(doc, sel)[p]
    {
      assert PartlyAt(doc, d1, sel, i, j, n, p);
    }
  }

  // ----- fields -----

  /** The field that answers to `k`, if any, takes the value. */
  function SetFieldSec(s: Sec, k: Key, val: string): Sec {
    var r := FirstMatch(s.keys, k);
    if r < |s.vals| then s.(vals := s.vals[r := val]) else s
  }

  /** `d2` is `d1` with the field set in the sections `ps`. */
  predicate FieldSet(d1: Doc, d2: Doc, ps: set<Path>, k: Key, val: string) {
    && d2.Keys == d1.Keys
    && forall p {:trigger d2[p]} | p in d1 :: d2[p] == if p in ps then SetFieldSec(d1[p], k, val) else d1[p]
  }

  /** Setting twice is setting once. */
  lemma {:induction false} FieldSetTwice(d1: Doc, d2: Doc, d3: Doc, ps: set<Path>, qs: set<Path>, k: Key, val: string)
    requires FieldSet(d1, d2, ps, k, val) && FieldSet(d2, d3, qs, k, val)
    ensures FieldSet(d1, d3, ps + qs, k, val)
  {
    forall p | p in d1
      ensures d3[p] == if p in ps + qs then SetFieldSec(d1[p], k, val) else d1[p]
    {
      assert d2[p] == d2[p];
    }
  }

  // ----- reset -----

  function Blank(s: Sec): (r: Sec)
    ensures |r.vals| == |s.vals| && forall i | 0 <= i < |r.vals| :: r.vals[i] == ""
  {
    s.(vals := seq(|s.vals|, _ => ""))
  }

  function Bare(s: Sec): Sec {
    Blank(s).(added := "")
  }

  /** `d2` is `d1` with the fields of `p` and everything in its first `k` children cleared. */
  predicate ResetTo(d1: Doc, d2: Doc, p: Path, k: nat) {
    && d2.Keys == d1.Keys
    && forall q {:trigger d2[q]} | q in d1 ::
         d2[q] == if q == p then Blank(d1[q]) else if p < q && q[|p|] < k then Bare(d1[q]) else d1[q]
  }

  /** Fields are cleared at and below `p`, appended content below `p`. */
  function ResetDoc(doc: Doc, p: Path): Doc {
    map q | q in doc :: if q == p then Blank(doc[q]) else if p < q then Bare(doc[q]) else doc[q]
  }

  lemma {:induction false} BlankTwice(s: Sec)
    ensures Blank(s.(added := "")) == Bare(s) && Bare(s.(added := "")) == Bare(s)
  {
  }

  /** Clearing one child's added chain and resetting that child advances the reset of `p`. */
  lemma {:induction false} ResetAdvances(d1: Doc, d2: Doc, d3: Doc, d4: Doc, p: Path, k: nat)
    requires ResetTo(d1, d2, p, k) && Child(p, k) in d1
    requires Readded(d2, d3, map[Child(p, k) := ""]) && d4 == ResetDoc(d3, Child(p, k))
    ensures ResetTo(d1, d4, p, k + 1)
  {
    var c := Child(p, k);
    forall q | q in d1
      ensures d4[q] == if q == p then Blank(d1[q]) else if p < q && q[|p|] < k + 1 then Bare(d1[q]) else d1[q]
    {
      assert d2[q] == d2[q] && d3[q] == d3[q];
      BlankTwice(d1[q]);
      if p < q && q[|p|] == k {
        assert c <= q;
      }
    }
  }
}
