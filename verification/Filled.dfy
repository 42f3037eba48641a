/** What a template shows, told from its pieces and from what was set, without the tables and lists behind it. */
module TplFilled {
  import opened TplNames
  import opened TplDocument
  import opened TplSetting
  import opened TplSetSection
  import opened TplRun
  import opened TplRunLaws
  import opened TplBuild
  import opened TplUnbuild
  import G = TplGrammar

  function Sections(ps: seq<G.Piece>): nat {
    if ps == [] then 0 else Sections(ps[..|ps| - 1]) + if ps[|ps| - 1].Section? then 1 else 0
  }

  /** The pieces with every field replaced by its value and the k-th section by the k-th part. */
  function Filled(ps: seq<G.Piece>, value: string -> string, part: nat -> string): string {
    if ps == [] then ""
    else Filled(ps[..|ps| - 1], value, part) + match ps[|ps| - 1]
                                               case Text(text) => text
                                               case Field(name) => value(name)
                                               case Section(_, _) => part(Sections(ps[..|ps| - 1]))
  }

  // ----- a section that was built from pieces -----

  /** `s` has the items, fields and children that the pieces make, and maybe more behind them. */
  predicate Extends(s: Sec, b: Sec) {
    b.items <= s.items && b.anchors <= s.anchors && |b.keys| <= |s.vals|
  }

  /** The values the table of a section holds, under the names of its level. */
  predicate Holds(s: Sec, names: seq<string>, value: string -> string) {
    |names| <= |s.vals| && forall m {:trigger names[m]} | 0 <= m < |names| :: s.vals[m] == value(names[m])
  }

  lemma {:induction false} BuiltCounts(p: Path, ps: seq<G.Piece>)
    ensures |Build(p, ps)[p].anchors| == |Build(p, ps)[p].names| == Sections(ps)
  {
    BuildOrderly(p, ps, p);
    if ps != [] {
      BuiltCounts(p, ps[..|ps| - 1]);
    }
  }

  /** What one piece adds to its level. */
  lemma {:induction false} BuiltLast(p: Path, init: seq<G.Piece>, x: G.Piece)
    ensures Build(p, init + [x])[p] == match x
                                       case Text(text) => AddText(Build(p, init)[p], text)
                                       case Field(name) => AddField(Build(p, init)[p], name)
                                       case Section(name, _) => AddSection(Build(p, init)[p], name)
  {
    assert (init + [x])[..|init|] == init;
  }

  lemma {:induction false} ShowItem(doc: Doc, p: Path, n: nat, k: nat)
    requires p in doc && n < |doc[p].items| && k <= |doc[p].anchors| && (k > 0 ==> doc[p].anchors[k - 1] <= n)
    ensures RenderTo(doc, p, n + 1, k) == RenderTo(doc, p, n, k) + ItemText(doc[p].items, doc[p].vals, n)
  {
  }

  lemma {:induction false} ShowChild(doc: Doc, p: Path, n: nat, k: nat)
    requires p in doc && n <= |doc[p].items| && k < |doc[p].anchors| && doc[p].anchors[k] == n
    ensures RenderTo(doc, p, n, k + 1) == RenderTo(doc, p, n, k) + AddedAt(doc, Child(p, k))
  {
  }

  /** Where a field's value lies: at the place of its name. */
  lemma {:induction false} FieldPlace(p: Path, init: seq<G.Piece>, name: string)
    requires FieldsApart(init + [G.Field(name)])
    ensures var names, k := LevelNames(init + [G.Field(name)]), FirstMatch(Build(p, init)[p].keys, KeyOf(name));
            k < |names| && names[k] == name
  {
    hide Build, Hash, KeyOf, FirstMatch, NamesApart, Unlike;
    var ps := init + [G.Field(name)];
    assert ps[..|init|] == init;
    BuildKeys(p, init);
    ApartMeans(init);
    ApartMeans(ps);
    NamesUnlike(init);
    var names := LevelNames(init);
    var k := FirstMatch(KeysOf(names), KeyOf(name));
    if name in names {
      SeenFinds(names, name);
      assert KeysOf(names)[k].name == name;
    } else {
      NewFinds(names, name);
    }
  }

  lemma {:induction false} NamesGrow(init: seq<G.Piece>, x: G.Piece)
    ensures LevelNames(init) <= LevelNames(init + [x]) && (FieldsApart(init + [x]) ==> FieldsApart(init))
  {
    assert (init + [x])[..|init|] == init;
  }

  /** A section made of the pieces, with the values and with what is appended to its children, shows the filled
      text. */
  lemma {:induction false} FilledShows(doc: Doc, p: Path, ps: seq<G.Piece>, value: string -> string, part: nat -> string)
    requires p in doc && Extends(doc[p], Build(p, ps)[p]) && FieldsApart(ps) && Holds(doc[p], LevelNames(ps), value)
    requires forall k {:trigger part(k)} | 0 <= k < Sections(ps) :: part(k) == AddedAt(doc, Child(p, k))
    ensures var b := Build(p, ps)[p]; RenderTo(doc, p, |b.items|, |b.anchors|) == Filled(ps, value, part)
    decreases ps
  {
    hide Build, FieldsApart, RenderTo, FirstMatch, KeyOf, AddedAt, LevelNames;
    if ps == [] {
      NothingFilled(doc, p);
    } else {
      var init, x := ps[..|ps| - 1], ps[|ps| - 1];
      assert ps == init + [x];
      var s, b, n, k := doc[p], Build(p, init)[p], |Build(p, init)[p].items|, |Build(p, init)[p].anchors|;
      BuiltLast(p, init, x);
      BuiltCounts(p, init);
      BuildOrderly(p, init, p);
      NamesGrow(init, x);
      FilledShows(doc, p, init, value, part);
      match x
      case Text(text) =>
        ShowItem(doc, p, n, k);
        assert s.items[n] == Text(text);
      case Field(name) =>
        FieldPlace(p, init, name);
        ShowItem(doc, p, n, k);
        assert s.items[n] == Field(FirstMatch(b.keys, KeyOf(name)));
      case Section(_, _) =>
        assert s.anchors[k] == n;
        ShowChild(doc, p, n, k);
        assert part(k) == AddedAt(doc, Child(p, k));
    }
  }

  lemma {:induction false} NothingFilled(doc: Doc, p: Path)
    requires p in doc
    ensures var b := Build(p, [])[p]; |b.items| == |b.anchors| == 0 && RenderTo(doc, p, 0, 0) == ""
  {
  }

  // ----- the values a run leaves -----

  /** A key sets the first name of the level that has its hash and begins with it. */
  predicate Reaches(names: seq<string>, key: string, m: nat) {
    && m < |names| && Hash(names[m]) == Hash(key) && Begins(names[m], key)
    && forall i {:trigger names[i]} | 0 <= i < m :: !(Hash(names[i]) == Hash(key) && Begins(names[i], key))
  }

  ghost predicate Sets(names: seq<string>, key: string, name: string) {
    exists m: nat {:trigger Reaches(names, key, m)} :: Reaches(names, key, m) && names[m] == name
  }

  lemma {:induction false} ReachesOnce(names: seq<string>, key: string, i: nat, j: nat)
    requires Reaches(names, key, i) && Reaches(names, key, j)
    ensures i == j
  {
  }

  /** A name of the level sets itself and no other, if the names are apart. */
  lemma {:induction false} KnownSets(names: seq<string>, key: string, name: string)
    requires NamesApart(names) && Unlike(names) && key in names
    ensures Sets(names, key, name) <==> name == key
  {
    hide Hash;
    var m :| 0 <= m < |names| && names[m] == key;
    assert Begins(key, key);
    forall i | 0 <= i < m
      ensures !(Hash(names[i]) == Hash(key) && Begins(names[i], key))
    {
      assert !Clash(names[i], names[m]);
      BeginsOrClash(names[i], key);
    }
    assert Reaches(names, key, m);
    if i: nat :| Reaches(names, key, i) && names[i] == name {
      ReachesOnce(names, key, i, m);
    }
  }

  /** The value of a field of section `p` after a run: the last one that was set there under its name, or
      everywhere while `p` was among the sections reached, unless a reset came after it. */
  ghost function ValueAfter(s: State, ops: seq<Op>, p: Path, names: seq<string>, name: string): string
    decreases |ops|
  {
    if ops == [] then ""
    else
      var init, op := ops[..|ops| - 1], ops[|ops| - 1];
      var sel := RunFrom(s, init).sel;
      if op.SetField? && sel == p && Sets(names, op.key, name) then op.val
      else if op.SetFieldGlobal? && !(p < sel && |p| <= 1) && Sets(names, op.key, name) then op.val
      else if op.Reset? then ""
      else ValueAfter(s, init, p, names, name)
  }

  ghost predicate SameKeys(s: Sec, names: seq<string>) {
    s.keys == KeysOf(names) && |s.vals| == |names|
  }

  lemma {:induction false} SetHolds(s: Sec, names: seq<string>, key: string, val: string, m: nat)
    requires SameKeys(s, names) && Unlike(names) && m < |names|
    ensures |SetFieldSec(s, KeyOf(key), val).vals| == |names|
    ensures SetFieldSec(s, KeyOf(key), val).vals[m] == if Sets(names, key, names[m]) then val else s.vals[m]
  {
    hide Hash, KeyOf, Begins;
    var r := FirstMatch(s.keys, KeyOf(key));
    FirstFinds(s.keys, key, r);
    KeysFiled(names);
    if r < |names| {
      assert Reaches(names, key, r);
    }
    if i: nat :| Reaches(names, key, i) && names[i] == names[m] {
      assert s.keys[i] == s.keys[i];
      ReachesOnce(names, key, i, r);
    }
  }

  lemma {:induction false} KeysFiled(names: seq<string>)
    ensures forall i | 0 <= i < |names| :: KeysOf(names)[i].name == names[i] && KeysOf(names)[i].bucket == Hash(names[i])
  {
  }

  /** The paths of a document are closed under going up, and the selection is one of them. */
  predicate Closed(s: State) {
    s.sel in s.doc && forall q, n: nat {:trigger q[..n]} | q in s.doc && n <= |q| :: q[..n] in s.doc
  }

  lemma {:induction false} StepHolds(s: State, op: Op, p: Path, names: seq<string>, before: string -> string, m: nat)
    requires p in s.doc && Closed(s) && SameKeys(s.doc[p], names) && Unlike(names) && m < |names|
    requires !Replaces(s, op, p)
    requires s.doc[p].vals[m] == before(names[m])
    ensures p in Step(s, op).doc && SameKeys(Step(s, op).doc[p], names)
    ensures Step(s, op).doc[p].vals[m] ==
            if op.SetField? && s.sel == p && Sets(names, op.key, names[m]) then op.val
            else if op.SetFieldGlobal? && !(p < s.sel && |p| <= 1) && Sets(names, op.key, names[m]) then op.val
            else if op.Reset? then ""
            else before(names[m])
  {
    hide Hash, Sets, KeysOf, KeyOf, FirstMatch, Unlike, Hit, RenderTo;
    match op
    case SetField(key, val) =>
      SetHolds(s.doc[p], names, key, val, m);
    case SetFieldGlobal(key, val) =>
      SetHolds(s.doc[p], names, key, val, m);
      GlobalReach(s.doc.Keys, s.sel, p);
    case _ =>
  }

  lemma {:induction false} UntouchedSnoc(s: State, ops: seq<Op>, op: Op, p: Path)
    requires Untouched(s, ops + [op], p)
    ensures Untouched(s, ops, p) && !Replaces(RunFrom(s, ops), op, p)
    decreases |ops|
  {
    hide Step, Replaces;
    var all := ops + [op];
    if ops == [] {
      assert all[0] == op;
    } else {
      assert all[0] == ops[0] && all[1..] == ops[1..] + [op];
      UntouchedSnoc(Step(s, ops[0]), ops[1..], op, p);
    }
  }

  lemma {:induction false} RunOkSnoc(s: State, ops: seq<Op>, op: Op)
    requires RunOk(s, ops + [op])
    ensures RunOk(s, ops) && OpOk(RunFrom(s, ops), op)
    decreases |ops|
  {
    hide Step, OpOk;
    var all := ops + [op];
    if ops == [] {
      assert all[0] == op;
    } else {
      assert all[0] == ops[0] && all[1..] == ops[1..] + [op];
      RunOkSnoc(Step(s, ops[0]), ops[1..], op);
    }
  }

  predicate Rooted(doc: Doc) {
    forall q, n: nat {:trigger q[..n]} | q in doc && n <= |q| :: q[..n] in doc
  }

  lemma {:induction false} StillBelow(c: Path, q: Path, n: nat)
    requires n <= |q|
    ensures c < q[..n] ==> c < q
  {
  }

  lemma {:induction false} ReplacedRooted(doc: Doc, c: Path, sec: Sec)
    requires Rooted(doc)
    ensures Rooted(Replaced(doc, c, sec))
  {
    forall q, n: nat | q in Replaced(doc, c, sec) && n <= |q|
      ensures q[..n] in Replaced(doc, c, sec)
    {
      StillBelow(c, q, n);
    }
  }

  lemma {:induction false} StepRooted(s: State, op: Op)
    requires Rooted(s.doc)
    ensures Rooted(Step(s, op).doc)
  {
    hide FirstMatch, RenderTo, Hit, KeyOf, Replaced;
    forall c, sec
      ensures Rooted(Replaced(s.doc, c, sec))
    {
      ReplacedRooted(s.doc, c, sec);
    }
    var n := Step(s, op);
    if n.doc.Keys == s.doc.Keys {
      forall q, i: nat | q in n.doc && i <= |q|
        ensures q[..i] in n.doc
      {
        assert q in s.doc && q[..i] in s.doc;
      }
    }
  }

  lemma {:induction false} BuildRooted(p: Path, ps: seq<G.Piece>, q: Path, n: nat)
    requires q in Build(p, ps) && |p| <= n <= |q|
    ensures q[..n] in Build(p, ps)
    decreases ps
  {
    if ps == [] {
      assert q[..n] == p;
    } else {
      var init, x := ps[..|ps| - 1], ps[|ps| - 1];
      var doc := Build(p, init);
      if q in doc {
        BuildRooted(p, init, q, n);
      } else {
        var c := Child(p, |doc[p].names|);
        if n == |p| {
          assert q[..n] == p;
        } else {
          BuildRooted(c, x.body, q, n);
        }
      }
    }
  }

  /** After a run, every field of a section that was not replaced holds the value that was set last. */
  lemma {:induction false} RunHolds(s: State, ops: seq<Op>, p: Path, names: seq<string>, m: nat)
    requires RunOk(s, ops) && Untouched(s, ops, p) && Rooted(s.doc)
    requires p in s.doc && SameKeys(s.doc[p], names) && Unlike(names) && m < |names| && s.doc[p].vals[m] == ""
    ensures var r := RunFrom(s, ops);
            Rooted(r.doc) && p in r.doc && SameKeys(r.doc[p], names) && r.doc[p].vals[m] == ValueAfter(s, ops, p, names, names[m])
    decreases |ops|
  {
    hide Step, OpOk, Replaces, SameKeys, Unlike, Sets, Rooted;
    if ops != [] {
      var init, op := ops[..|ops| - 1], ops[|ops| - 1];
      assert ops == init + [op];
      UntouchedSnoc(s, init, op, p);
      RunOkSnoc(s, init, op);
      RunSnoc(s, init, op);
      RunHolds(s, init, p, names, m);
      var mid := RunFrom(s, init);
      SelectionThere(mid, op);
      StepRooted(mid, op);
      StepHolds(mid, op, p, names, name => ValueAfter(s, init, p, names, name), m);
    }
  }

  lemma {:induction false} SelectionThere(s: State, op: Op)
    requires OpOk(s, op) && Rooted(s.doc)
    ensures Closed(s)
  {
  }

  // ----- the pieces of a section -----

  function BodyOf(ps: seq<G.Piece>, k: nat): seq<G.Piece> {
    if ps == [] then []
    else if ps[|ps| - 1].Section? && Sections(ps[..|ps| - 1]) == k then ps[|ps| - 1].body
    else BodyOf(ps[..|ps| - 1], k)
  }

  /** The pieces of the section at `p`. */
  function PiecesAt(ps: seq<G.Piece>, p: Path): seq<G.Piece>
    decreases |p|
  {
    if p == [] then ps else PiecesAt(BodyOf(ps, p[0]), p[1..])
  }

  lemma {:induction false} BodyAgrees(q: Path, ps: seq<G.Piece>, k: nat)
    requires k < Sections(ps)
    ensures AgreeBelow(Build(Child(q, k), BodyOf(ps, k)), Build(q, ps), Child(q, k))
    decreases ps
  {
    var init, x := ps[..|ps| - 1], ps[|ps| - 1];
    assert ps == init + [x];
    BuiltCounts(q, init);
    if x.Section? && Sections(init) == k {
      NewChildAgrees(q, init, x.name, x.body);
    } else {
      BodyAgrees(q, init, k);
      if x.Section? {
        SiblingAgrees(q, init, x.name, x.body, k);
      }
    }
  }

  lemma {:induction false} BuildAt(q: Path, ps: seq<G.Piece>, p: Path)
    requires q + p in Build(q, ps)
    ensures Build(q, ps)[q + p] == Build(q + p, PiecesAt(ps, p))[q + p]
    decreases |p|
  {
    if p == [] {
      assert q + p == q;
    } else {
      var c := Child(q, p[0]);
      assert q + p == c + p[1..];
      BuildOrderly(q, ps, q + p);
      BuiltCounts(q, ps);
      hide Build;
      BodyAgrees(q, ps, p[0]);
      assert c <= q + p;
      BuildAt(c, BodyOf(ps, p[0]), p[1..]);
    }
  }

  // ----- what a run shows -----

  lemma {:induction false} FreshHolds(ps: seq<G.Piece>, p: Path)
    requires p in Build([], ps) && FieldsApart(PiecesAt(ps, p))
    ensures var body := PiecesAt(ps, p); var s := Build([], ps)[p];
            && s == Build(p, body)[p] && SameKeys(s, LevelNames(body)) && Unlike(LevelNames(body))
            && forall m | 0 <= m < |s.vals| :: s.vals[m] == ""
  {
    var body := PiecesAt(ps, p);
    assert [] + p == p;
    BuildAt([], ps, p);
    BuildOrderly(p, body, p);
    BuildKeys(p, body);
    ApartMeans(body);
    NamesUnlike(body);
  }

  lemma {:induction false} BareExtends(s: Sec, b: Sec)
    requires Bare(s) == Bare(b) && |b.keys| == |b.vals|
    ensures Extends(s, b) && |s.items| == |b.items| && |s.anchors| == |b.anchors|
  {
    assert |s.vals| == |Bare(s).vals| == |b.vals|;
    assert s.items == Bare(s).items && s.anchors == Bare(s).anchors;
  }

  /** After any run, a section that was not replaced shows its pieces filled: each field with the value set last,
      each child with what is appended to it. */
  lemma {:induction false} RunShows(ps: seq<G.Piece>, ops: seq<Op>, p: Path)
    requires var s := State(Build([], ps), []); RunOk(s, ops) && p in s.doc && Untouched(s, ops, p)
    requires FieldsApart(PiecesAt(ps, p))
    ensures var s, body := State(Build([], ps), []), PiecesAt(ps, p);
            var r := RunFrom(s, ops);
            && p in r.doc
            && Render(r.doc, p) == Filled(body, name => ValueAfter(s, ops, p, LevelNames(body), name), (k: nat) => AddedAt(r.doc, Child(p, k)))
  {
    hide Build, Bare, RunOk, RunFrom, Untouched, FieldsApart, PiecesAt, SameKeys, Unlike, Filled, Rooted, AddedAt, RenderTo;
    var s, body := State(Build([], ps), []), PiecesAt(ps, p);
    var names := LevelNames(body);
    var value := name => ValueAfter(s, ops, p, names, name);
    FreshHolds(ps, p);
    BuildIsRooted(ps);
    RunKeeps(s, ops, p);
    BuildOrderly(p, body, p);
    var r := RunFrom(s, ops);
    BareExtends(r.doc[p], s.doc[p]);
    KeysAreNames(s.doc[p], names);
    forall m | 0 <= m < |names|
      ensures SameKeys(r.doc[p], names) && r.doc[p].vals[m] == value(names[m])
    {
      RunHolds(s, ops, p, names, m);
    }
    FilledShows(r.doc, p, body, value, (k: nat) => AddedAt(r.doc, Child(p, k)));
  }

  lemma {:induction false} KeysAreNames(s: Sec, names: seq<string>)
    requires SameKeys(s, names)
    ensures |s.vals| == |s.keys| == |names|
  {
  }

  lemma {:induction false} BuildIsRooted(ps: seq<G.Piece>)
    ensures Rooted(Build([], ps))
  {
    forall q, n: nat | q in Build([], ps) && n <= |q|
      ensures q[..n] in Build([], ps)
    {
      BuildRooted([], ps, q, n);
    }
  }
}
