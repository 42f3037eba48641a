/** What every run keeps, and what single operations do to it. */
module TplRunLaws {
  import opened TplNames
  import opened TplDocument
  import opened TplHeap
  import opened TplSelection
  import opened TplSetting
  import opened TplSetSection
  import opened TplRun
  import opened TplBuild
  import opened TplUnbuild
  import G = TplGrammar
  import TplCanonical

  // ----- the selection is a stack -----

  /** A run that selects and deselects only above `base` levels. */
  predicate Above(s: State, ops: seq<Op>, base: nat)
    decreases |ops|
  {
    |s.sel| >= base && (ops == [] || Above(Step(s, ops[0]), ops[1..], base))
  }

  /** Such a run leaves the lower part of the selection as it was. */
  lemma {:induction false} StackKept(s: State, ops: seq<Op>, base: nat)
    requires Above(s, ops, base)
    ensures var r := RunFrom(s, ops); |r.sel| >= base && r.sel[..base] == s.sel[..base]
    decreases |ops|
  {
    if ops != [] {
      StackKept(Step(s, ops[0]), ops[1..], base);
      assert Step(s, ops[0]).sel[..base] == s.sel[..base];
    }
  }

  /** Deselecting after a successful selection brings the whole state back. */
  lemma {:induction false} SelectDeselect(s: State, key: string)
    requires s.sel in s.doc && SelectPath(s.doc, s.sel, KeyOf(key)).Some? && SelectPath(s.doc, s.sel, KeyOf(key)).value in s.doc
    ensures RunFrom(s, [Select(key), Deselect]) == s
  {
    var ops, c := [Select(key), Deselect], SelectPath(s.doc, s.sel, KeyOf(key)).value;
    assert ops[1..] == [Deselect] && ops[1..][1..] == [];
    assert Step(s, Select(key)) == s.(sel := c) && Up(c) == s.sel;
    assert Step(s.(sel := c), Deselect) == s;
    assert RunFrom(s, ops) == RunFrom(s.(sel := c), [Deselect]) == RunFrom(s, []);
  }

  /** Every `tpl` pointer of a document is determined by the path of the selected section: two heaps that agree
      on the records and on the path agree on the pointers. */
  twostate lemma {:induction false} PointersBack(d: Dom, new sel: Path)
    requires old(Selected(d, sel)) && Selected(d, sel)
    ensures forall p | p in d.st :: d.st[p].tpl == old(d.st[p].tpl)
  {
    forall p | p in d.st
      ensures d.st[p].tpl == old(d.st[p].tpl)
    {
      assert LinkedAt(d.st, Shape(d), sel, p) && old(LinkedAt(d.st, Shape(d), sel, p));
    }
  }

  /** Select and deselect on the heap: every pointer is back where it was. */
  method SelectAndBack(tpl: Template, key: string, ghost d: Dom, ghost sel: Path) returns (found: bool)
    requires Selected(d, sel) && d.st[[]] == tpl && CleanName(key)
    modifies d.world
    ensures Selected(d, sel) && Abs(d) == old(Abs(d))
    ensures forall p | p in d.st :: d.st[p].tpl == old(d.st[p].tpl)
    ensures found <==> SelectPath(old(Abs(d)), sel, KeyOf(key)).Some?
  {
    var code;
    ghost var sel';
    code, sel' := SelectSection(tpl, key, d, sel);
    found := code == TPL_OK;
    if found {
      code, sel' := DeselectSection(tpl, d, sel');
    }
    PointersBack(d, sel);
  }

  // ----- what the codes tell -----

  /** The code says what came of an operation, and one that failed has changed nothing. */
  lemma {:induction false} CodeTells(s: State, op: Op) returns (r: nat)
    requires s.sel in s.doc
    ensures op.Select? || op.SetSection? || op.SetSectionFromFile? ==> Finds(s.doc[s.sel].names, op.key, r)
    ensures var n := Step(s, op);
            match op
            case Select(_) =>
              if r < |s.doc[s.sel].names| then Code(s, op) == 0 && n == State(s.doc, s.sel + [r]) else Code(s, op) == -1 && n == s
            case Deselect =>
              if s.sel == [] then Code(s, op) == -2 && n == s else Code(s, op) == 0 && n == State(s.doc, s.sel[..|s.sel| - 1])
            case Append =>
              if s.sel == [] then Code(s, op) == -2 && n == s else Code(s, op) == 0 && n.sel == s.sel
            case SetSection(_, _) =>
              if r < |s.doc[s.sel].names| then Code(s, op) == 0 && n.sel == s.sel else Code(s, op) == -1 && n == s
            case SetSectionFromFile(_, Missing) => Code(s, op) == -7 && n == s
            case SetSectionFromFile(_, Short) => Code(s, op) == -5 && n == s
            case SetSectionFromFile(_, _) =>
              if r < |s.doc[s.sel].names| then Code(s, op) == 0 && n.sel == s.sel else Code(s, op) == -1 && n == s
            case _ => Code(s, op) == 0 && n.sel == s.sel
  {
    hide Hash, KeyOf, FirstMatch, Hit, RenderTo, SelectPath, Finds;
    r := 0;
    if op.Select? || op.SetSection? || op.SetSectionFromFile? {
      r := FirstMatch(s.doc[s.sel].names, KeyOf(op.key));
      FirstFinds(s.doc[s.sel].names, op.key, r);
      SelectFinds(s.doc, s.sel, op.key, r);
    }
  }

  // ----- setting a field everywhere -----

  /** Which sections tpl_set_field_global reaches. */
  lemma {:induction false} GlobalReach(keys: set<Path>, sel: Path, p: Path)
    requires sel in keys && (forall q, n: nat | q in keys && n <= |q| :: q[..n] in keys)
    ensures p in Hit(keys, sel, []) <==> p in keys && !(p < sel && |p| <= 1)
  {
    assert sel[..0] == [] && [] in keys;
    assert Target(sel, []) in Hit(keys, sel, []);
    if p in keys && !(p < sel && |p| <= 1) {
      if p < sel {
        var q := p[..|p| - 1];
        assert q in keys && Target(sel, q) == p;
      } else if p != sel {
        assert p != [] && Target(sel, p) == p;
      }
    }
    if p in Hit(keys, sel, []) {
      var q :| q in keys && p == Target(sel, q);
      assert q != [] && q < sel ==> p == sel[..|q| + 1];
    }
  }

  /** It reaches every section exactly when none is selected. */
  lemma {:induction false} GlobalEverywhere(keys: set<Path>, sel: Path)
    requires sel in keys && (forall q, n: nat | q in keys && n <= |q| :: q[..n] in keys)
    ensures Hit(keys, sel, []) == keys <==> sel == []
  {
    forall p
      ensures p in Hit(keys, sel, []) <==> p in keys && !(p < sel && |p| <= 1)
    {
      GlobalReach(keys, sel, p);
    }
    assert sel[..0] == [] && [] in keys;
  }

  // ----- appending -----

  lemma {:induction false} RenderToSame(d1: Doc, d2: Doc, p: Path, i: nat, k: nat)
    requires p in d1 && p in d2 && d1[p] == d2[p] && i <= |d1[p].items| && k <= |d1[p].anchors|
    requires forall x | 0 <= x < k :: AddedAt(d1, Child(p, x)) == AddedAt(d2, Child(p, x))
    ensures RenderTo(d1, p, i, k) == RenderTo(d2, p, i, k)
    decreases i + k
  {
    if i > 0 && (k == 0 || d1[p].anchors[k - 1] < i) {
      RenderToSame(d1, d2, p, i - 1, k);
    } else if k > 0 {
      RenderToSame(d1, d2, p, i, k - 1);
    }
  }

  lemma {:induction false} RestSame(d1: Doc, d2: Doc, p: Path, i: nat, k: nat)
    requires p in d1 && p in d2 && d1[p] == d2[p] && AnchorsOk(d1[p].anchors, |d1[p].items|)
    requires i <= |d1[p].items| && k <= |d1[p].anchors| && (k < |d1[p].anchors| ==> i <= d1[p].anchors[k])
    requires forall x | k <= x < |d1[p].anchors| :: AddedAt(d1, Child(p, x)) == AddedAt(d2, Child(p, x))
    ensures RestFrom(d1, p, i, k) == RestFrom(d2, p, i, k)
    decreases |d1[p].anchors| - k
  {
    if k < |d1[p].anchors| {
      RestSame(d1, d2, p, d1[p].anchors[k], k + 1);
    }
  }

  /** Appending changes the parent in nothing but what is appended to the one child. */
  lemma {:induction false} AppendBeside(doc: Doc, sel: Path, up: Path, k: nat)
    requires sel != [] && sel in doc && up in doc && Child(up, k) == sel
    ensures var next := AppendDoc(doc, sel);
            && up in next && next[up] == doc[up] && AddedAt(doc, sel) == doc[sel].added
            && AddedAt(next, sel) == doc[sel].added + Render(doc, sel)
            && forall x: nat | x != k :: AddedAt(doc, Child(up, x)) == AddedAt(next, Child(up, x))
  {
    hide RenderTo;
    var next := AppendDoc(doc, sel);
    assert Up(sel) == up;
    forall x: nat | x != k
      ensures AddedAt(doc, Child(up, x)) == AddedAt(next, Child(up, x))
    {
      assert Child(up, x)[|up|] == x;
    }
  }

  lemma {:induction false} RenderChild(doc: Doc, p: Path, k: nat)
    requires p in doc && AnchorsOk(doc[p].anchors, |doc[p].items|) && k < |doc[p].anchors|
    ensures var a := doc[p].anchors[k];
            a <= |doc[p].items| && RenderTo(doc, p, a, k + 1) == RenderTo(doc, p, a, k) + AddedAt(doc, Child(p, k))
  {
  }

  /** What appending shows in the parent: the section's content, right behind what was appended to it before,
      and nothing else. */
  lemma {:induction false} AppendShows(doc: Doc, sel: Path)
    requires sel != [] && sel in doc && Up(sel) in doc && AnchorsOk(doc[Up(sel)].anchors, |doc[Up(sel)].items|)
    requires sel[|sel| - 1] < |doc[Up(sel)].anchors|
    ensures var up, k := Up(sel), sel[|sel| - 1];
            var a := doc[up].anchors[k];
            var before, behind := RenderTo(doc, up, a, k + 1), RestFrom(doc, up, a, k + 1);
            && Render(doc, up) == before + behind
            && Render(AppendDoc(doc, sel), up) == before + Render(doc, sel) + behind
  {
    hide RenderTo, RestFrom, AppendDoc, AddedAt;
    var up, k := Up(sel), sel[|sel| - 1];
    var a, next := doc[up].anchors[k], AppendDoc(doc, sel);
    assert Child(up, k) == sel;
    AppendBeside(doc, sel, up, k);
    RenderChild(doc, up, k);
    RenderChild(next, up, k);
    RenderToSame(doc, next, up, a, k);
    RestSame(doc, next, up, a, k + 1);
    RestCompletes(doc, up, a, k + 1);
    RestCompletes(next, up, a, k + 1);
    Cat(RenderTo(doc, up, a, k), doc[sel].added, Render(doc, sel));
  }

  // ----- resetting -----

  /** The operation replaces a section at or above `p`. */
  predicate Replaces(s: State, op: Op, p: Path) {
    s.sel in s.doc && (op.SetSection? || (op.SetSectionFromFile? && op.file.Content?)) &&
    var found := SelectPath(s.doc, s.sel, KeyOf(op.key));
    found.Some? && found.value <= p
  }

  predicate Untouched(s: State, ops: seq<Op>, p: Path)
    decreases |ops|
  {
    ops == [] || (!Replaces(s, ops[0], p) && Untouched(Step(s, ops[0]), ops[1..], p))
  }

  lemma {:induction false} StepKeeps(s: State, op: Op, p: Path)
    requires p in s.doc && !Replaces(s, op, p)
    ensures p in Step(s, op).doc && Bare(Step(s, op).doc[p]) == Bare(s.doc[p])
  {
    if s.sel in s.doc {
      match op
      case SetField(key, val) =>
        BareField(s.doc[p], KeyOf(key), val);
      case SetFieldGlobal(key, val) =>
        BareField(s.doc[p], KeyOf(key), val);
      case _ =>
        BareAgain(s.doc[p]);
    }
  }

  lemma {:induction false} BareField(s: Sec, k: Key, val: string)
    ensures Bare(SetFieldSec(s, k, val)) == Bare(s)
  {
  }

  lemma {:induction false} BareAgain(s: Sec)
    ensures Bare(Bare(s)) == Bare(Blank(s)) == Bare(s)
    ensures forall x :: Bare(s.(added := x)) == Bare(s)
  {
  }

  lemma {:induction false} RunKeeps(s: State, ops: seq<Op>, p: Path)
    requires p in s.doc && Untouched(s, ops, p)
    ensures p in RunFrom(s, ops).doc && Bare(RunFrom(s, ops).doc[p]) == Bare(s.doc[p])
    decreases |ops|
  {
    if ops != [] {
      StepKeeps(s, ops[0], p);
      RunKeeps(Step(s, ops[0]), ops[1..], p);
    }
  }

  lemma {:induction false} RunSnoc(s: State, ops: seq<Op>, op: Op)
    ensures RunFrom(s, ops + [op]) == Step(RunFrom(s, ops), op)
    ensures RunOk(s, ops + [op]) ==> OpOk(RunFrom(s, ops), op)
    decreases |ops|
  {
    var all := ops + [op];
    if ops == [] {
      assert all[1..] == [];
    } else {
      assert all[0] == ops[0] && all[1..] == ops[1..] + [op];
      RunSnoc(Step(s, ops[0]), ops[1..], op);
    }
  }

  /** A section without values, whose children have nothing appended, renders its texts. */
  lemma {:induction false} BareRenders(doc: Doc, p: Path, s: Sec)
    requires p in doc && Bare(doc[p]) == Bare(s) && AnchorsOk(s.anchors, |s.items|)
    requires (forall x | 0 <= x < |doc[p].vals| :: doc[p].vals[x] == "") && (forall x | 0 <= x < |s.vals| :: s.vals[x] == "")
    requires forall x | 0 <= x < |s.anchors| :: AddedAt(doc, Child(p, x)) == ""
    ensures Render(doc, p) == ItemsText(s.items, s.vals, 0, |s.items|)
  {
    RenderSkips(doc, p, 0, |s.items|, 0, |s.anchors|);
    ItemsGrow(doc[p].items, s.items, doc[p].vals, s.vals, |s.items|);
  }

  /** A run that ends in a reset of the root leaves every section that was not replaced rendering what it
      rendered right after parsing, with its fields empty and nothing appended below it. */
  lemma {:induction false} ResetForgets(ps: seq<G.Piece>, ops: seq<Op>, p: Path)
    requires var s := State(Build([], ps), []); p in s.doc && Untouched(s, ops, p) && RunOk(s, ops + [Reset])
    ensures var first, last := Build([], ps), RunFrom(State(Build([], ps), []), ops + [Reset]).doc;
            && p in last && Render(last, p) == Render(first, p)
            && (forall x | 0 <= x < |last[p].vals| :: last[p].vals[x] == "")
            && (p != [] ==> last[p].added == "") && forall x: nat :: AddedAt(last, Child(p, x)) == ""
  {
    var s := State(Build([], ps), []);
    var mid, first := RunFrom(s, ops), s.doc;
    var last := RunFrom(s, ops + [Reset]).doc;
    RunKeeps(s, ops, p);
    RunSnoc(s, ops, Reset);
    assert last == ResetDoc(mid.doc, []);
    BareAgain(mid.doc[p]);
    BuildOrderly([], ps, p);
    BareRenders(last, p, first[p]);
    forall x: nat
      ensures AddedAt(first, Child(p, x)) == ""
    {
      if Child(p, x) in first {
        BuildOrderly([], ps, Child(p, x));
      }
    }
    BareRenders(first, p, first[p]);
  }

  // ----- the write through a null pointer -----

  /** A template on which giving a section the empty text would write through a null pointer: the section is one
      field and nothing else. */
  lemma {:induction false} NullWriteReached()
    ensures var ps := [G.Section("s", [G.Field("f")])];
            && G.Parse(G.Unparse(ps), 0, []) == G.Parsed(true, ps)
            && [0] in Build([], ps) && NullWrite(Build([], ps)[[0]], "") && !SetOk(Build([], ps), [], "s", "")
  {
    hide Build, G.Parse, G.Unparse, NullWrite;
    FieldAccepted();
    FieldBuilt();
  }

  lemma {:induction false} FieldAccepted()
    ensures var ps := [G.Section("s", [G.Field("f")])]; G.Parse(G.Unparse(ps), 0, []) == G.Parsed(true, ps)
  {
    var body := [G.Field("f")];
    var ps := [G.Section("s", body)];
    assert ps[1..] == [] && body[1..] == [];
    assert |G.Unparse(body)| == 4 && |G.SectionTag("s")| == 13;
    TplCanonical.RoundTrip(ps);
  }

  /** A section with one field, alone in a template. */
  lemma {:induction false} FieldAlone(name: string, field: string)
    ensures var doc := Build([], [G.Section(name, [G.Field(field)])]);
            && Child([], 0) in doc && doc[Child([], 0)] == AddField(EMPTY, field) && doc[[]].names == [KeyOf(name)]
  {
    hide Hash, FirstMatch, KeyOf;
    var body := [G.Field(field)];
    var c := Child([], 0);
    assert [] + [G.Section(name, body)] == [G.Section(name, body)] && body[..0] == [];
    BuiltSection([], [], name, body);
    NewChildAgrees([], [], name, body);
    assert c <= c;
    assert Build(c, [])[c] == EMPTY;
    assert Build(c, body)[c] == AddField(EMPTY, field);
  }

  lemma {:induction false} FieldBuilt()
    ensures var doc := Build([], [G.Section("s", [G.Field("f")])]);
            [0] in doc && NullWrite(doc[[0]], "") && SelectPath(doc, [], KeyOf("s")) == Some([0])
  {
    hide Hash, KeyOf, Build, G.Parse;
    FieldAlone("s", "f");
    assert Child([], 0) == [0];
  }

  // ----- the root -----

  /** Nothing is ever appended to the root, so a copy of a template is complete. */
  lemma {:induction false} RootPlain(s: State, ops: seq<Op>)
    requires [] in s.doc && s.doc[[]].added == ""
    ensures [] in RunFrom(s, ops).doc && RunFrom(s, ops).doc[[]].added == ""
    decreases |ops|
  {
    hide Step;
    if ops != [] {
      StepRootPlain(s, ops[0]);
      RootPlain(Step(s, ops[0]), ops[1..]);
    }
  }

  lemma {:induction false} StepRootPlain(s: State, op: Op)
    requires [] in s.doc && s.doc[[]].added == ""
    ensures [] in Step(s, op).doc && Step(s, op).doc[[]].added == ""
  {
    hide RenderTo, FirstMatch, Bare;
  }
}
