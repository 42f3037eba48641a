/** What a template shows after a run, told from its text and from the operations alone: no table, list or
    document is looked at except to find which section a name selects. */
module TplShown {
  import opened TplNames
  import opened TplDocument
  import opened TplHeap
  import opened TplSelection
  import opened TplSetting
  import opened TplRun
  import opened TplRunLaws
  import opened TplBuild
  import opened TplUnbuild
  import opened TplFilled
  import opened TplConstruct
  import opened TplLifecycle
  import opened TplAccount
  import G = TplGrammar

  /** The operation puts a text in the place of the section at `p`. */
  ghost predicate SetsAt(s: State, op: Op, p: Path) {
    && s.sel in s.doc && (op.SetSection? || (op.SetSectionFromFile? && op.file.Content?))
    && SelectPath(s.doc, s.sel, KeyOf(op.key)) == Some(p)
  }

  function TextOf(op: Op): string {
    match op
    case SetSection(_, val) => val
    case SetSectionFromFile(_, Content(text)) => text
    case _ => ""
  }

  ghost function First(ps: seq<G.Piece>): State {
    State(Build([], ps), [])
  }

  /** The text that was put in a section's place last, if any. */
  ghost function TextAfter(ps: seq<G.Piece>, ops: seq<Op>, p: Path): Option<string>
    decreases |ops|
  {
    if ops == [] then None
    else
      var init, op := ops[..|ops| - 1], ops[|ops| - 1];
      if SetsAt(RunFrom(First(ps), init), op, p) then Some(TextOf(op)) else TextAfter(ps, init, p)
  }

  /** What a section shows: the text put in its place, or its pieces, with the values its fields have, and with
      what is appended to its sections. */
  ghost function ShownAfter(ps: seq<G.Piece>, ops: seq<Op>, p: Path): string
    decreases |ops|, 1
  {
    match TextAfter(ps, ops, p)
    case Some(text) => text
    case None =>
      var body := PiecesAt(ps, p);
      Filled(body, name => ValueAfter(First(ps), ops, p, LevelNames(body), name), (k: nat) => AddedAfter(ps, ops, Child(p, k)))
  }

  /** What is appended to a section: what it showed at each append, since it was last emptied; and a text put in
      its place is appended once. */
  ghost function AddedAfter(ps: seq<G.Piece>, ops: seq<Op>, c: Path): string
    decreases |ops|, 0
  {
    if ops == [] || c == [] then ""
    else
      var init, op := ops[..|ops| - 1], ops[|ops| - 1];
      var s := RunFrom(First(ps), init);
      if op.Append? && s.sel == c then AddedAfter(ps, init, c) + ShownAfter(ps, init, c)
      else if op.Append? && s.sel == Up(c) && s.sel != [] then ""
      else if op.Reset? then ""
      else if SetsAt(s, op, c) then TextOf(op)
      else AddedAfter(ps, init, c)
  }

  // ----- the run keeps to it -----

  ghost predicate AllApart(ps: seq<G.Piece>) {
    forall p {:trigger PiecesAt(ps, p)} | p in Build([], ps) :: FieldsApart(PiecesAt(ps, p))
  }

  predicate IsText(s: Sec, text: string) {
    s.items == [Text(text)] && s.keys == [] && s.vals == [] && s.names == [] && s.anchors == []
  }

  /** A section of the run's document has what the history says appended to it, and either is the text put in its
      place or was never replaced. */
  ghost predicate Stands(ps: seq<G.Piece>, ops: seq<Op>, doc: Doc, c: Path)
    requires c in doc
  {
    && doc[c].added == AddedAfter(ps, ops, c)
    && match TextAfter(ps, ops, c)
       case Some(text) => IsText(doc[c], text)
       case None => c in First(ps).doc && Untouched(First(ps), ops, c)
  }

  ghost predicate AllStand(ps: seq<G.Piece>, ops: seq<Op>, doc: Doc) {
    forall c {:trigger doc[c]} | c in doc :: Stands(ps, ops, doc, c)
  }

  lemma {:induction false} TextShows(doc: Doc, p: Path, text: string)
    requires p in doc && IsText(doc[p], text)
    ensures Render(doc, p) == text
  {
    assert ItemText(doc[p].items, doc[p].vals, 0) == text;
    assert RenderTo(doc, p, 0, 0) == "";
  }

  /** Only the parts of sections that are there matter. */
  lemma {:induction false} PartsMatter(ps: seq<G.Piece>, value: string -> string, p1: nat -> string, p2: nat -> string)
    requires forall k: nat {:trigger p1(k)} | k < Sections(ps) :: p1(k) == p2(k)
    ensures Filled(ps, value, p1) == Filled(ps, value, p2)
  {
    if ps != [] {
      PartsMatter(ps[..|ps| - 1], value, p1, p2);
    }
  }

  /** The children of a section that was never replaced stay. */
  lemma {:induction false} ChildrenStay(s: State, ops: seq<Op>, p: Path, k: nat)
    requires p in s.doc && Child(p, k) in s.doc && Untouched(s, ops, p)
    ensures Child(p, k) in RunFrom(s, ops).doc
    decreases |ops|
  {
    hide Hit, FirstMatch, KeyOf, RenderTo;
    if ops != [] {
      StepKeeps(s, ops[0], p);
      ChildStays(s, ops[0], p, k);
      ChildrenStay(Step(s, ops[0]), ops[1..], p, k);
    }
  }

  lemma {:induction false} AboveChild(c: Path, p: Path, k: nat)
    ensures c < Child(p, k) ==> c <= p
  {
  }

  lemma {:induction false} ChildStays(s: State, op: Op, p: Path, k: nat)
    requires p in s.doc && Child(p, k) in s.doc && !Replaces(s, op, p)
    ensures Child(p, k) in Step(s, op).doc
  {
    hide Hit, FirstMatch, KeyOf, RenderTo;
    if s.sel in s.doc && (op.SetSection? || op.SetSectionFromFile?) {
      var found := SelectPath(s.doc, s.sel, KeyOf(op.key));
      if found.Some? {
        AboveChild(found.value, p, k);
      }
    }
  }

  /** A section shows what the history says. */
  lemma {:induction false} Shows(ps: seq<G.Piece>, ops: seq<Op>, p: Path)
    requires RunOk(First(ps), ops) && AllApart(ps)
    requires var r := RunFrom(First(ps), ops); p in r.doc && AllStand(ps, ops, r.doc)
    ensures Render(RunFrom(First(ps), ops).doc, p) == ShownAfter(ps, ops, p)
  {
    hide RunOk, RunFrom, Build, FieldsApart, PiecesAt, Filled, AddedAfter, ValueAfter, Untouched, RenderTo, AllApart;
    var r := RunFrom(First(ps), ops);
    assert Stands(ps, ops, r.doc, p);
    match TextAfter(ps, ops, p)
    case Some(text) =>
      TextShows(r.doc, p, text);
    case None =>
      var body := PiecesAt(ps, p);
      ApartAt(ps, p);
      RunShows(ps, ops, p);
      forall k: nat | k < Sections(body)
        ensures AddedAt(r.doc, Child(p, k)) == AddedAfter(ps, ops, Child(p, k))
      {
        ChildThere(ps, p, k);
        ChildrenStay(First(ps), ops, p, k);
        assert Stands(ps, ops, r.doc, Child(p, k));
      }
      PartsMatter(body, name => ValueAfter(First(ps), ops, p, LevelNames(body), name),
                  (k: nat) => AddedAt(r.doc, Child(p, k)), (k: nat) => AddedAfter(ps, ops, Child(p, k)));
  }

  lemma {:induction false} ApartAt(ps: seq<G.Piece>, p: Path)
    requires AllApart(ps) && p in Build([], ps)
    ensures FieldsApart(PiecesAt(ps, p))
  {
  }

  lemma {:induction false} ChildBuilt(q: Path, ps: seq<G.Piece>, p: Path, k: nat)
    requires q + p in Build(q, ps) && k < Sections(PiecesAt(ps, p))
    ensures Child(q + p, k) in Build(q, ps)
    decreases |p|
  {
    if p == [] {
      var c := Child(q, k);
      assert q + p == q && c <= c;
      RootBuilt(c, BodyOf(ps, k));
      BodyAgrees(q, ps, k);
    } else {
      var c := Child(q, p[0]);
      assert q + p == c + p[1..] && c <= q + p && c <= Child(q + p, k);
      BuildOrderly(q, ps, q + p);
      BuiltCounts(q, ps);
      hide Build;
      BodyAgrees(q, ps, p[0]);
      ChildBuilt(c, BodyOf(ps, p[0]), p[1..], k);
    }
  }

  lemma {:induction false} RootBuilt(p: Path, ps: seq<G.Piece>)
    ensures p in Build(p, ps)
  {
  }

  lemma {:induction false} ChildThere(ps: seq<G.Piece>, p: Path, k: nat)
    requires p in Build([], ps) && k < Sections(PiecesAt(ps, p))
    ensures Child(p, k) in Build([], ps)
  {
    assert [] + p == p;
    ChildBuilt([], ps, p, k);
  }

  // ----- one operation more -----

  lemma {:induction false} StepAdds(s: State, op: Op, c: Path)
    requires s.sel in s.doc && c in Step(s, op).doc && c != []
    ensures c in s.doc
    ensures Step(s, op).doc[c].added ==
            if op.Append? && s.sel == c then s.doc[c].added + Render(s.doc, c)
            else if op.Append? && s.sel == Up(c) && s.sel != [] then ""
            else if op.Reset? then ""
            else if SetsAt(s, op, c) then TextOf(op)
            else s.doc[c].added
  {
    hide Hit, FirstMatch, KeyOf, RenderTo;
  }

  lemma {:induction false} StepTexts(s: State, op: Op, c: Path)
    requires s.sel in s.doc && c in Step(s, op).doc
    ensures c in s.doc
    ensures SetsAt(s, op, c) ==> IsText(Step(s, op).doc[c], TextOf(op))
    ensures !SetsAt(s, op, c) ==> !Replaces(s, op, c) && forall text :: IsText(s.doc[c], text) ==> IsText(Step(s, op).doc[c], text)
  {
    hide Hit, FirstMatch, KeyOf, RenderTo;
  }

  lemma {:induction false} UntouchedOne(s: State, ops: seq<Op>, op: Op, p: Path)
    requires Untouched(s, ops, p) && !Replaces(RunFrom(s, ops), op, p)
    ensures Untouched(s, ops + [op], p)
    decreases |ops|
  {
    hide Step, Replaces;
    var all := ops + [op];
    if ops == [] {
      assert all[0] == op && all[1..] == [];
    } else {
      assert all[0] == ops[0] && all[1..] == ops[1..] + [op];
      UntouchedOne(Step(s, ops[0]), ops[1..], op, p);
    }
  }

  lemma {:induction false} TextSnoc(ps: seq<G.Piece>, init: seq<Op>, op: Op, p: Path)
    ensures TextAfter(ps, init + [op], p) == if SetsAt(RunFrom(First(ps), init), op, p) then Some(TextOf(op)) else TextAfter(ps, init, p)
  {
    assert (init + [op])[..|init|] == init;
  }

  lemma {:induction false} AddedSnoc(ps: seq<G.Piece>, init: seq<Op>, op: Op, c: Path)
    requires c != []
    ensures var s := RunFrom(First(ps), init);
            AddedAfter(ps, init + [op], c) ==
            if op.Append? && s.sel == c then AddedAfter(ps, init, c) + ShownAfter(ps, init, c)
            else if op.Append? && s.sel == Up(c) && s.sel != [] then ""
            else if op.Reset? then ""
            else if SetsAt(s, op, c) then TextOf(op)
            else AddedAfter(ps, init, c)
  {
    hide ShownAfter, SetsAt;
    assert (init + [op])[..|init|] == init;
  }

  lemma {:induction false} StepStands(ps: seq<G.Piece>, init: seq<Op>, op: Op, s: State, c: Path)
    requires RunOk(First(ps), init) && s == RunFrom(First(ps), init) && AllApart(ps)
    requires s.sel in s.doc && AllStand(ps, init, s.doc) && [] in s.doc && c in Step(s, op).doc
    ensures Stands(ps, init + [op], Step(s, op).doc, c)
  {
    hide RunOk, RunFrom, Build, Step, Untouched, Replaces, SetsAt, ShownAfter, AddedAfter, TextAfter, AllApart, RenderTo, IsText, AllStand;
    StepTexts(s, op, c);
    StandsAt(ps, init, s.doc, c);
    StandsAt(ps, init, s.doc, []);
    TextSnoc(ps, init, op, c);
    if c == [] {
      NothingAtRoot(ps, init);
      NothingAtRoot(ps, init + [op]);
      StepRootPlain(s, op);
    } else {
      StepAdds(s, op, c);
      AddedSnoc(ps, init, op, c);
      if op.Append? && s.sel == c {
        Shows(ps, init, c);
      }
    }
    if TextAfter(ps, init + [op], c).None? {
      UntouchedOne(First(ps), init, op, c);
    }
  }

  lemma {:induction false} NothingAtRoot(ps: seq<G.Piece>, ops: seq<Op>)
    ensures AddedAfter(ps, ops, []) == ""
  {
  }

  lemma {:induction false} StandsAt(ps: seq<G.Piece>, ops: seq<Op>, doc: Doc, c: Path)
    requires AllStand(ps, ops, doc) && c in doc
    ensures Stands(ps, ops, doc, c)
  {
  }

  lemma {:induction false} StandsFirst(ps: seq<G.Piece>)
    ensures AllStand(ps, [], First(ps).doc)
  {
    forall c | c in First(ps).doc
      ensures Stands(ps, [], First(ps).doc, c)
    {
      BuildOrderly([], ps, c);
    }
  }

  /** After any run, every section there is has appended to it what the history says. */
  lemma {:induction false} RunStands(ps: seq<G.Piece>, ops: seq<Op>)
    requires RunOk(First(ps), ops) && AllApart(ps)
    ensures var r := RunFrom(First(ps), ops); [] in r.doc && AllStand(ps, ops, r.doc)
    decreases |ops|
  {
    hide RunOk, RunFrom, Build, Step, Stands, AllApart, OpOk;
    if ops == [] {
      StandsFirst(ps);
      RunNothing(ps);
    } else {
      var init, op := ops[..|ops| - 1], ops[|ops| - 1];
      assert ops == init + [op];
      RunOkSnoc(First(ps), init, op);
      RunSnoc(First(ps), init, op);
      RunStands(ps, init);
      var s := RunFrom(First(ps), init);
      SelectedThere(s, op);
      RootStays(s, op);
      forall c | c in Step(s, op).doc
        ensures Stands(ps, ops, Step(s, op).doc, c)
      {
        StepStands(ps, init, op, s, c);
      }
    }
  }

  lemma {:induction false} RunNothing(ps: seq<G.Piece>)
    ensures RunFrom(First(ps), []) == First(ps) && [] in First(ps).doc
  {
  }

  lemma {:induction false} SelectedThere(s: State, op: Op)
    requires OpOk(s, op)
    ensures s.sel in s.doc
  {
  }

  lemma {:induction false} RootStays(s: State, op: Op)
    requires [] in s.doc
    ensures [] in Step(s, op).doc
  {
    hide Hit, FirstMatch, KeyOf, RenderTo;
  }

  /** After any run, every section there is shows what the history says. */
  lemma {:induction false} HistoryShows(ps: seq<G.Piece>, ops: seq<Op>, p: Path)
    requires RunOk(First(ps), ops) && AllApart(ps) && p in RunFrom(First(ps), ops).doc
    ensures Render(RunFrom(First(ps), ops).doc, p) == ShownAfter(ps, ops, p)
  {
    hide RunOk, RunFrom, Build, Stands, AllApart, ShownAfter, AllStand;
    RunStands(ps, ops);
    Shows(ps, ops, p);
  }

  // ----- pages -----

  /** The root is replaced by no operation. */
  lemma {:induction false} RootUntouched(s: State, ops: seq<Op>)
    ensures Untouched(s, ops, [])
    decreases |ops|
  {
    hide Step;
    if ops != [] {
      RootUntouched(Step(s, ops[0]), ops[1..]);
    }
  }

  /** A page made from a text: built, taken through any operations, and put out. */
  method Serve(before: char, text: string, ops: seq<Op>) returns (out: array<char>)
    requires !Misread(text, before) && NamesClean(text, 0, []) && G.Parse(text, 0, []).ok
    requires RunOk(First(G.Parse(text, 0, []).pieces), ops)
    ensures fresh(out)
    ensures var r := RunFrom(First(G.Parse(text, 0, []).pieces), ops); [] in r.doc && out[..] == Render(r.doc, []) + ['\0']
  {
    hide Wf, Abs, Build, G.Parse, Misread, NamesClean, RunOk, RunFrom, Codes, Linked, Shape, Unheld, RenderTo;
    var t := new Template([]);
    var code;
    ghost var d, sel, freed;
    code, d := FromString(t, before, text);
    var codes;
    codes, d, sel, freed := Run(t, ops, d, [], {});
    AbsKeys(d);
    var len;
    out, len := Output(t, d, []);
  }

  lemma {:induction false} RootShown(ps: seq<G.Piece>, ops: seq<Op>)
    ensures ShownAfter(ps, ops, []) ==
            Filled(ps, name => ValueAfter(First(ps), ops, [], LevelNames(ps), name), (k: nat) => AddedAfter(ps, ops, Child([], k)))
  {
    hide Filled, ValueAfter, AddedAfter, LevelNames;
    RootNoText(ps, ops);
    assert PiecesAt(ps, []) == ps;
  }

  lemma {:induction false} RootNoText(ps: seq<G.Piece>, ops: seq<Op>)
    ensures TextAfter(ps, ops, []) == None
    decreases |ops|
  {
    if ops != [] {
      RootNoText(ps, ops[..|ops| - 1]);
    }
  }

  /** The page is the text's pieces with every field replaced by the value set last, and every section by what it
      showed whenever it was appended. */
  method Page(before: char, text: string, ops: seq<Op>) returns (out: array<char>)
    requires !Misread(text, before) && NamesClean(text, 0, []) && G.Parse(text, 0, []).ok
    requires RunOk(First(G.Parse(text, 0, []).pieces), ops) && AllApart(G.Parse(text, 0, []).pieces)
    ensures fresh(out)
    ensures var ps := G.Parse(text, 0, []).pieces;
            out[..] == Filled(ps, name => ValueAfter(First(ps), ops, [], LevelNames(ps), name), (k: nat) => AddedAfter(ps, ops, Child([], k))) + ['\0']
  {
    hide Build, G.Parse, Misread, NamesClean, RunOk, RunFrom, AllApart, Filled, RenderTo, ValueAfter, AddedAfter;
    out := Serve(before, text, ops);
    ghost var ps := G.Parse(text, 0, []).pieces;
    HistoryShows(ps, ops, []);
    RootShown(ps, ops);
  }

  // ----- a page whose fields are set -----

  function SetAll(sets: seq<(string, string)>): seq<Op> {
    if sets == [] then [] else SetAll(sets[..|sets| - 1]) + [SetField(sets[|sets| - 1].0, sets[|sets| - 1].1)]
  }

  /** The value set last under a name. */
  function LastSet(sets: seq<(string, string)>, name: string): string {
    if sets == [] then ""
    else if sets[|sets| - 1].0 == name then sets[|sets| - 1].1
    else LastSet(sets[..|sets| - 1], name)
  }

  predicate Known(sets: seq<(string, string)>, names: seq<string>) {
    forall x | x in sets :: x.0 in names && CleanName(x.0)
  }

  lemma {:induction false} SettingRuns(ps: seq<G.Piece>, sets: seq<(string, string)>)
    requires Known(sets, LevelNames(ps)) && FieldsApart(ps)
    ensures var s, ops := First(ps), SetAll(sets);
            && RunOk(s, ops) && RunFrom(s, ops).sel == [] && [] in RunFrom(s, ops).doc
            && (forall k: nat {:trigger Child([], k)} :: AddedAt(RunFrom(s, ops).doc, Child([], k)) == "")
            && forall name {:trigger LastSet(sets, name)} :: ValueAfter(s, ops, [], LevelNames(ps), name) == LastSet(sets, name)
  {
    hide Build, FieldsApart, Sets, NamesApart, Unlike;
    var s, names := First(ps), LevelNames(ps);
    if sets == [] {
      BlankAdded(ps);
    } else {
      var init, x := sets[..|sets| - 1], sets[|sets| - 1];
      assert Known(init, names) && x in sets;
      SettingRuns(ps, init);
      ApartMeans(ps);
      NamesUnlike(ps);
      var ops, op := SetAll(init), SetField(x.0, x.1);
      OneMore(s, ops, op);
      RunSnoc(s, ops, op);
      forall name
        ensures ValueAfter(s, ops + [op], [], names, name) == LastSet(sets, name)
      {
        assert (ops + [op])[..|ops|] == ops;
        KnownSets(names, x.0, name);
      }
    }
  }

  lemma {:induction false} OneMore(s: State, ops: seq<Op>, op: Op)
    requires RunOk(s, ops) && OpOk(RunFrom(s, ops), op)
    ensures RunOk(s, ops + [op])
    decreases |ops|
  {
    hide Step, OpOk;
    var all := ops + [op];
    if ops == [] {
      assert all[0] == op && all[1..] == [];
    } else {
      assert all[0] == ops[0] && all[1..] == ops[1..] + [op];
      OneMore(Step(s, ops[0]), ops[1..], op);
    }
  }

  lemma {:induction false} BlankAdded(ps: seq<G.Piece>)
    ensures forall k: nat {:trigger Child([], k)} :: AddedAt(Build([], ps), Child([], k)) == ""
  {
    forall k: nat
      ensures AddedAt(Build([], ps), Child([], k)) == ""
    {
      if Child([], k) in Build([], ps) {
        BuildOrderly([], ps, Child([], k));
      }
    }
  }

  lemma {:induction false} FilledSame(ps: seq<G.Piece>, v1: string -> string, p1: nat -> string, v2: string -> string, p2: nat -> string)
    requires (forall name {:trigger v1(name)} :: v1(name) == v2(name)) && (forall k: nat {:trigger p1(k)} :: p1(k) == p2(k))
    ensures Filled(ps, v1, p1) == Filled(ps, v2, p2)
  {
    if ps != [] {
      FilledSame(ps[..|ps| - 1], v1, p1, v2, p2);
    }
  }

  /** Setting fields on a fresh template: the page is the text with each field replaced by the value set last under
      its name, and nothing for its sections. */
  method FillPage(before: char, text: string, sets: seq<(string, string)>) returns (out: array<char>)
    requires !Misread(text, before) && NamesClean(text, 0, [])
    requires G.Parse(text, 0, []).ok && FieldsApart(G.Parse(text, 0, []).pieces) && Known(sets, LevelNames(G.Parse(text, 0, []).pieces))
    ensures fresh(out)
    ensures out[..] == Filled(G.Parse(text, 0, []).pieces, name => LastSet(sets, name), (k: nat) => "") + ['\0']
  {
    hide Build, G.Parse, Misread, NamesClean, RunOk, RunFrom, FieldsApart, Filled, LastSet, Known, AddedAt, SetAll, Untouched, RenderTo;
    ghost var ps := G.Parse(text, 0, []).pieces;
    ghost var s, names := First(ps), LevelNames(ps);
    SettingRuns(ps, sets);
    out := Serve(before, text, SetAll(sets));
    RootUntouched(s, SetAll(sets));
    RunShows(ps, SetAll(sets), []);
    assert PiecesAt(ps, []) == ps;
    FilledSame(ps, name => ValueAfter(s, SetAll(sets), [], names, name), (k: nat) => AddedAt(RunFrom(s, SetAll(sets)).doc, Child([], k)),
               name => LastSet(sets, name), (k: nat) => "");
  }
}
