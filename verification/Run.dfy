/** Whole runs of template operations, against the functional reference. */
module TplRun {
  import opened TplNames
  import opened TplDocument
  import opened TplHeap
  import opened TplAccount
  import opened TplSelection
  import opened TplSetting
  import opened TplReset
  import opened TplAppend
  import opened TplSetSection

  /** The operations a caller may put together once a template is built. */
  datatype Op =
    | Select(key: string)
    | Deselect
    | SetField(key: string, val: string)
    | SetFieldGlobal(key: string, val: string)
    | SetSection(key: string, val: string)
    | SetSectionFromFile(key: string, file: File)
    | Append
    | Reset

  /** A document and the path of the selected section. */
  datatype State = State(doc: Doc, sel: Path)

  /** Setting a field from the root goes through every section's `tpl` pointer. */
  function GlobalDoc(doc: Doc, sel: Path, k: Key, val: string): Doc {
    map p | p in doc :: if p in Hit(doc.Keys, sel, []) then SetFieldSec(doc[p], k, val) else doc[p]
  }

  /** The section that answers to `key` becomes the text. */
  function SetNamed(doc: Doc, sel: Path, key: string, val: string): Doc
    requires sel in doc
  {
    var found := SelectPath(doc, sel, KeyOf(key));
    if found.Some? then SetSectionDoc(doc, found.value, val) else doc
  }

  /** What the operations need: names that can be hashed, and no write through a null pointer. */
  predicate OpOk(s: State, op: Op) {
    && s.sel in s.doc
    && match op
       case Select(key) => CleanName(key)
       case SetField(key, _) => CleanName(key)
       case SetFieldGlobal(key, _) => CleanName(key)
       case SetSection(key, val) => SetOk(s.doc, s.sel, key, val)
       case SetSectionFromFile(key, file) => file.Content? ==> SetOk(s.doc, s.sel, key, file.text)
       case _ => true
  }

  function Step(s: State, op: Op): State {
    if s.sel !in s.doc then s else
    match op
    case Select(key) => s.(sel := SelectPath(s.doc, s.sel, KeyOf(key)).GetOr(s.sel))
    case Deselect => if s.sel == [] then s else s.(sel := Up(s.sel))
    case SetField(key, val) => s.(doc := s.doc[s.sel := SetFieldSec(s.doc[s.sel], KeyOf(key), val)])
    case SetFieldGlobal(key, val) => s.(doc := GlobalDoc(s.doc, s.sel, KeyOf(key), val))
    case SetSection(key, val) => s.(doc := SetNamed(s.doc, s.sel, key, val))
    case SetSectionFromFile(key, file) => if file.Content? then s.(doc := SetNamed(s.doc, s.sel, key, file.text)) else s
    case Append => if s.sel == [] then s else s.(doc := AppendDoc(s.doc, s.sel))
    case Reset => s.(doc := ResetDoc(s.doc, []))
  }

  function Code(s: State, op: Op): int {
    if s.sel !in s.doc then TPL_OK else
    match op
    case Select(key) => if SelectPath(s.doc, s.sel, KeyOf(key)).Some? then TPL_OK else TPL_SECTION_NOT_FOUND_ERROR
    case SetSection(key, _) => if SelectPath(s.doc, s.sel, KeyOf(key)).Some? then TPL_OK else TPL_SECTION_NOT_FOUND_ERROR
    case SetSectionFromFile(_, Missing) => TPL_OPEN_ERROR
    case SetSectionFromFile(_, Short) => TPL_READ_ERROR
    case SetSectionFromFile(key, _) => if SelectPath(s.doc, s.sel, KeyOf(key)).Some? then TPL_OK else TPL_SECTION_NOT_FOUND_ERROR
    case Deselect => if s.sel == [] then TPL_NO_SECTION_SELECTED_ERROR else TPL_OK
    case Append => if s.sel == [] then TPL_NO_SECTION_SELECTED_ERROR else TPL_OK
    case _ => TPL_OK
  }

  ghost function StateOf(d: Dom, sel: Path): State
    reads d.world
    requires Wf(d)
  {
    State(Abs(d), sel)
  }

  lemma {:induction false} OneField(d1: Doc, d2: Doc, sel: Path, k: Key, val: string)
    requires sel in d1 && FieldSet(d1, d2, {sel}, k, val)
    ensures d2 == d1[sel := SetFieldSec(d1[sel], k, val)]
  {
  }

  lemma {:induction false} AllFields(d1: Doc, d2: Doc, sel: Path, k: Key, val: string)
    requires FieldSet(d1, d2, Hit(d1.Keys, sel, []), k, val)
    ensures d2 == GlobalDoc(d1, sel, k, val)
  {
  }

  /** One operation on the heap does what the reference says; `freed`, the blocks given back, stays what was made
      and hangs nowhere. */
  method Perform(tpl: Template, op: Op, ghost d: Dom, ghost sel: Path, ghost freed: set<object>)
    returns (code: int, ghost d': Dom, ghost sel': Path, ghost freed': set<object>)
    requires Selected(d, sel) && d.st[[]] == tpl && OpOk(StateOf(d, sel), op) && freed == Unheld(d)
    modifies d.world
    ensures Selected(d', sel') && [] in d'.st && d'.st[[]] == tpl && d.world <= d'.world && fresh(d'.world - d.world)
    ensures StateOf(d', sel') == Step(old(StateOf(d, sel)), op)
    ensures code == Code(old(StateOf(d, sel)), op) && freed <= freed' == Unheld(d')
  {
    hide Unheld;
    ghost var doc := Abs(d);
    code, d', sel', freed' := TPL_OK, d, sel, freed;
    match op
    case Select(key) =>
      code, sel' := SelectSection(tpl, key, d, sel);
    case Deselect =>
      code, sel' := DeselectSection(tpl, d, sel);
    case SetField(key, val) =>
      TplSetting.SetField(tpl, key, val, d, sel);
      OneField(doc, Abs(d), sel, KeyOf(key), val);
    case SetFieldGlobal(key, val) =>
      TplSetting.SetFieldGlobal(tpl, key, val, d, sel, []);
      AllFields(doc, Abs(d), sel, KeyOf(key), val);
    case SetSection(key, val) =>
      code, d', freed' := TplSetSection.SetSection(tpl, key, val, d, sel, freed);
    case SetSectionFromFile(key, file) =>
      code, d', freed' := TplSetSection.SetSectionFromFile(tpl, key, file, d, sel, freed);
    case Append =>
      code, d' := AppendSection(tpl, d, sel);
    case Reset =>
      freed' := TplReset.Reset(tpl, d, [], freed);
  }

  // ----- runs -----

  function RunFrom(s: State, ops: seq<Op>): State
    decreases |ops|
  {
    if ops == [] then s else RunFrom(Step(s, ops[0]), ops[1..])
  }

  function Codes(s: State, ops: seq<Op>): seq<int>
    decreases |ops|
  {
    if ops == [] then [] else [Code(s, ops[0])] + Codes(Step(s, ops[0]), ops[1..])
  }

  predicate RunOk(s: State, ops: seq<Op>)
    decreases |ops|
  {
    ops == [] || (OpOk(s, ops[0]) && RunOk(Step(s, ops[0]), ops[1..]))
  }

  lemma {:induction false} RunTail(s: State, ops: seq<Op>, i: nat)
    requires i < |ops| && RunOk(s, ops[i..])
    ensures OpOk(s, ops[i]) && RunOk(Step(s, ops[i]), ops[i + 1..])
    ensures RunFrom(s, ops[i..]) == RunFrom(Step(s, ops[i]), ops[i + 1..])
    ensures Codes(s, ops[i..]) == [Code(s, ops[i])] + Codes(Step(s, ops[i]), ops[i + 1..])
  {
    assert ops[i..][0] == ops[i] && ops[i..][1..] == ops[i + 1..];
  }

  /** Every run on the heap ends as the reference run does, with the same codes. */
  method Run(tpl: Template, ops: seq<Op>, ghost d: Dom, ghost sel: Path, ghost freed: set<object>)
    returns (codes: seq<int>, ghost d': Dom, ghost sel': Path, ghost freed': set<object>)
    requires Selected(d, sel) && d.st[[]] == tpl && RunOk(StateOf(d, sel), ops) && freed == Unheld(d)
    modifies d.world
    ensures Selected(d', sel') && d'.st[[]] == tpl && d.world <= d'.world && fresh(d'.world - d.world)
    ensures StateOf(d', sel') == RunFrom(old(StateOf(d, sel)), ops)
    ensures codes == Codes(old(StateOf(d, sel)), ops) && freed <= freed' == Unheld(d')
  {
    hide Wf, Abs, Step, Code, OpOk, RunOk, RunFrom, Codes, Linked, Shape, Unheld;
    AbsKeys(d);
    ghost var s0 := StateOf(d, sel);
    codes, d', sel', freed' := [], d, sel, freed;
    assert ops[0..] == ops;
    assert codes + Codes(s0, ops) == Codes(s0, ops);
    for i := 0 to |ops|
      invariant Selected(d', sel') && [] in d'.st && d'.st[[]] == tpl && d.world <= d'.world && fresh(d'.world - d.world)
      invariant freed <= freed' == Unheld(d')
      invariant RunOk(StateOf(d', sel'), ops[i..]) && RunFrom(StateOf(d', sel'), ops[i..]) == RunFrom(s0, ops)
      invariant codes + Codes(StateOf(d', sel'), ops[i..]) == Codes(s0, ops)
    {
      ghost var s := StateOf(d', sel');
      RunTail(s, ops, i);
      var code;
      code, d', sel', freed' := Perform(tpl, ops[i], d', sel', freed');
      SnocCons(codes, code, Codes(StateOf(d', sel'), ops[i + 1..]));
      codes := codes + [code];
    }
    RunEnds(StateOf(d', sel'), ops);
  }

  lemma {:induction false} SnocCons(a: seq<int>, x: int, b: seq<int>)
    ensures a + ([x] + b) == (a + [x]) + b
  {
  }

  lemma {:induction false} RunEnds(s: State, ops: seq<Op>)
    ensures RunFrom(s, ops[|ops|..]) == s && Codes(s, ops[|ops|..]) == []
  {
  }
}
