/** From the text to the template, its copies, its output and its end. */
module TplLifecycle {
  import opened TplDocument
  import opened TplHeap
  import opened TplAccount
  import opened TplContent
  import opened TplBuild
  import opened TplJoin
  import opened TplConstruct
  import opened TplCopy
  import opened TplRelease
  import opened TplRun
  import G = TplGrammar

  lemma {:induction false} SettledSelected(d: Dom, sel: Path)
    requires Wf(d) && d.root == [] && Settled(d, sel) && sel in d.st && d.st[[]].tpl == d.st[sel]
    ensures Selected(d, sel)
  {
    WorldHolds(d);
    hide Wf;
    forall p | p in d.st
      ensures LinkedAt(d.st, Shape(d), sel, p)
    {
      assert SettledAt(d, sel, p);
    }
  }

  /** tpl_from_string on a new template; `before` is the byte in front of the text. */
  method FromString(t: Template, before: char, text: string) returns (code: int, ghost d: Dom)
    requires t.Blank([]) && t.tpl == t && !Misread(text, before) && NamesClean(text, 0, [])
    modifies t
    ensures code == if G.Parse(text, 0, []).ok then 0 else -3
    ensures Wf(d) && d.root == [] && [] in d.st && d.st[[]] == t && fresh(d.world - {t})
    ensures Abs(d) == Build([], G.Parse(text, 0, []).pieces) && Unheld(d) == {}
    ensures code == TPL_OK ==> Selected(d, [])
  {
    code, d := Construct(t, before, text, []);
    if code == TPL_OK {
      SettledSelected(d, []);
    }
  }

  lemma {:induction false} BlankSelected(t: Template, d: Dom)
    requires t.Blank([]) && t.tpl == t && d == Dom([], map[[] := t], {t})
    ensures Selected(d, []) && Abs(d) == Build([], []) && Unheld(d) == {}
  {
    BlankLocal(d, []);
    SettledSelected(d, []);
  }

  /** tpl_load once the file is in memory: a text in error leaves the template as new. */
  method LoadText(t: Template, before: char, text: string) returns (code: int, ghost d: Dom)
    requires t.Blank([]) && t.tpl == t && !Misread(text, before) && NamesClean(text, 0, [])
    modifies t
    ensures code == if G.Parse(text, 0, []).ok then 0 else -3
    ensures d.root == [] && [] in d.st && d.st[[]] == t && fresh(d.world - {t}) && Selected(d, [])
    ensures Abs(d) == Build([], if code == TPL_OK then G.Parse(text, 0, []).pieces else [])
    ensures Unheld(d) == {} && (code != TPL_OK ==> t.Blank([]))
  {
    hide Local, G.Parse, Build;
    code, d := Construct(t, before, text, []);
    if code == TPL_OK {
      SettledSelected(d, []);
    } else {
      ghost var freed := Restart(t, d, {});
      d := Dom([], map[[] := t], {t});
      BlankSelected(t, d);
    }
  }

  lemma {:induction false} CloneStarts(clone: Template, d0: Dom, ds: Dom)
    requires clone.Blank([]) && d0 == Dom([], map[[] := clone], {clone}) && Wf(ds) && [] in ds.st
    ensures Copying(clone, d0, Abs(ds), [], 0, 0, "", HeadOf(clone), null)
  {
    BlankLocal(d0, []);
    assert Local(ds, []);
    CopyNothing(Abs(ds)[[]], "");
    assert EMPTY.(added := "") == EMPTY;
  }

  /** tpl_copy into a new template. */
  method CopyTemplate(clone: Template, src: Template, ghost ds: Dom, ghost sel: Path) returns (ghost d: Dom)
    requires Selected(ds, sel) && ds.st[[]] == src && clone.Blank([]) && clone !in ds.world
    modifies clone
    ensures Selected(d, sel) && d.st[[]] == clone && clone in d.world && fresh(d.world - {clone}) && d.world !! ds.world
    ensures Selected(ds, sel) && Abs(ds) == old(Abs(ds)) && Abs(d) == CopyDoc(Abs(ds), [], "") && Unheld(d) == {}
  {
    hide Wf, Abs, CopyDoc, Copying, LinkedAt, Shape, SettledAt, Template.Blank, Unheld;
    WorldHolds(ds);
    AbsKeys(ds);
    ghost var d0, doc := Dom([], map[[] := clone], {clone}), Abs(ds);
    CloneStarts(clone, d0, ds);
    d := Copy(clone, src, ds, d0, doc, [], "", sel);
    WorldHolds(d);
    SettledSelected(d, sel);
  }

  /** Nothing is ever appended to the root itself, and then a copy stands for the same document. */
  lemma {:induction false} CopyDocSame(doc: Doc)
    requires [] in doc
    ensures CopyDoc(doc, [], "") == doc <==> doc[[]].added == ""
  {
    var c := CopyDoc(doc, [], "");
    assert c[[]].added == "";
    if doc[[]].added == "" {
      assert doc[[]].(added := "") == doc[[]];
    }
  }

  /** tpl_length and tpl_get_content on a section of a document. */
  method Output(t: Template, ghost d: Dom, ghost p: Path) returns (text: array<char>, len: nat)
    requires Wf(d) && p in d.st && d.st[p] == t
    ensures fresh(text) && len == |Render(Abs(d), p)| && text[..] == Render(Abs(d), p) + ['\0']
    ensures Abs(d) == old(Abs(d))
  {
    hide Local, Wf, RenderTo;
    WfShown(d, p);
    ghost var doc := Abs(d);
    len := Length(t, d.world, doc, p);
    text := new char[len + 1];
    GetContent(t, text, d.world, doc, p);
    assert text[..] == text[..len + 1];
  }

  /** Two templates that stand for the same document, apart from each other. */
  method RunPair(src: Template, clone: Template, ops: seq<Op>, ghost ds: Dom, ghost d: Dom, ghost sel: Path)
    returns (codes: seq<int>, cloneCodes: seq<int>, ghost ds': Dom, ghost d': Dom, ghost sel': Path)
    requires Selected(ds, sel) && ds.st[[]] == src && Selected(d, sel) && d.st[[]] == clone && ds.world !! d.world
    requires Abs(ds) == Abs(d) && RunOk(StateOf(ds, sel), ops)
    modifies ds.world, d.world
    ensures codes == cloneCodes == Codes(old(StateOf(ds, sel)), ops)
    ensures Selected(ds', sel') && Selected(d', sel') && ds'.st[[]] == src && d'.st[[]] == clone && ds'.world !! d'.world
    ensures Abs(ds') == Abs(d') && StateOf(ds', sel') == RunFrom(old(StateOf(ds, sel)), ops)
  {
    hide Wf, Abs, RunOk, RunFrom, Codes, Linked, Shape, Unheld;
    ghost var sel2, freed;
    codes, ds', sel', freed := Run(src, ops, ds, sel, Unheld(ds));
    cloneCodes, d', sel2, freed := Run(clone, ops, d, sel, Unheld(d));
  }

  /** A copy and its source, taken through the same operations, end alike and never meet. */
  method RunBoth(src: Template, clone: Template, ops: seq<Op>, ghost ds: Dom, ghost sel: Path)
    returns (codes: seq<int>, cloneCodes: seq<int>, ghost ds': Dom, ghost d': Dom, ghost sel': Path)
    requires Selected(ds, sel) && ds.st[[]] == src && clone.Blank([]) && clone !in ds.world && Abs(ds)[[]].added == ""
    requires RunOk(StateOf(ds, sel), ops)
    modifies ds.world, clone
    ensures codes == cloneCodes == Codes(old(StateOf(ds, sel)), ops)
    ensures Selected(ds', sel') && Selected(d', sel') && ds'.st[[]] == src && d'.st[[]] == clone && ds'.world !! d'.world
    ensures Abs(ds') == Abs(d') && StateOf(ds', sel') == RunFrom(old(StateOf(ds, sel)), ops)
  {
    hide RunOk, RunFrom, Codes, Linked, CopyDoc, Local, Unheld;
    CopyDocSame(Abs(ds));
    ghost var d := CopyTemplate(clone, src, ds, sel);
    codes, cloneCodes, ds', d', sel' := RunPair(src, clone, ops, ds, d, sel);
  }

  /** The whole life of a template: built from a text, taken through any operations, and freed. `d` is what had
      been made by the end: every node and cell of it is given back, and so is the record; `Destroy` admits each
      block once only. */
  method WholeLife(before: char, text: string, ops: seq<Op>) returns (codes: seq<int>, ghost d: Dom, ghost freed: set<object>)
    requires !Misread(text, before) && NamesClean(text, 0, []) && G.Parse(text, 0, []).ok
    requires RunOk(State(Build([], G.Parse(text, 0, []).pieces), []), ops)
    ensures codes == Codes(State(Build([], G.Parse(text, 0, []).pieces), []), ops)
    ensures [] in d.st && fresh(d.world) && d.st[[]] in d.world && freed == Made(d) + {d.st[[]]}
  {
    hide Wf, Abs, RunOk, RunFrom, Codes, Linked, Shape, Unheld, Made, Build, G.Parse, Misread, NamesClean, Below, Estate;
    var t := new Template([]);
    var code;
    ghost var sel;
    code, d := FromString(t, before, text);
    codes, d, sel, freed := Run(t, ops, d, [], {});
    WorldHolds(d);
    AbsKeys(d);
    freed := Free(t, d, freed);
  }
}
