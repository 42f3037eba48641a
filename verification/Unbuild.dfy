/** Reading the pieces of a text back off the document they were built into. */
module TplUnbuild {
  import opened TplNames
  import opened TplDocument
  import opened TplBuild
  import G = TplGrammar
  import TplCanonical

  function ItemPiece(s: Sec, i: nat): G.Piece
    requires i < |s.items|
  {
    match s.items[i]
    case Text(text) => G.Text(text)
    case Field(k) => G.Field(if k < |s.keys| then s.keys[k].name else "")
  }

  /** The first `i` items woven with the first `k` children of a section. */
  function PiecesTo(doc: Doc, p: Path, i: nat, k: nat): seq<G.Piece>
    requires p in doc && i <= |doc[p].items| && k <= |doc[p].anchors|
    decreases Under(doc.Keys, p), i + k
  {
    var s := doc[p];
    if i > 0 && (k == 0 || s.anchors[k - 1] < i) then
      PiecesTo(doc, p, i - 1, k) + [ItemPiece(s, i - 1)]
    else if k > 0 then
      PiecesTo(doc, p, i, k - 1) + [ChildPiece(doc, p, k - 1)]
    else []
  }

  function ChildPiece(doc: Doc, p: Path, k: nat): G.Piece
    requires p in doc && k < |doc[p].anchors|
    decreases Under(doc.Keys, p), 0
  {
    var c := Child(p, k);
    UnderShrinks(doc.Keys, p, k);
    G.Section(if k < |doc[p].names| then doc[p].names[k].name else "",
              if c in doc then PiecesTo(doc, c, |doc[c].items|, |doc[c].anchors|) else [])
  }

  function Pieces(doc: Doc, p: Path): seq<G.Piece>
    requires p in doc
  {
    PiecesTo(doc, p, |doc[p].items|, |doc[p].anchors|)
  }

  // One step of the weave.

  lemma {:induction false} PiecesNone(doc: Doc, p: Path)
    requires p in doc
    ensures PiecesTo(doc, p, 0, 0) == []
  {
  }

  lemma {:induction false} PiecesItem(doc: Doc, p: Path, i: nat, k: nat)
    requires p in doc && 0 < i <= |doc[p].items| && k <= |doc[p].anchors| && (k == 0 || doc[p].anchors[k - 1] < i)
    ensures PiecesTo(doc, p, i, k) == PiecesTo(doc, p, i - 1, k) + [ItemPiece(doc[p], i - 1)]
  {
  }

  lemma {:induction false} PiecesChild(doc: Doc, p: Path, i: nat, k: nat)
    requires p in doc && i <= |doc[p].items| && 0 < k <= |doc[p].anchors| && (i == 0 || doc[p].anchors[k - 1] >= i)
    ensures PiecesTo(doc, p, i, k) == PiecesTo(doc, p, i, k - 1) + [ChildPiece(doc, p, k - 1)]
  {
  }

  // ----- what the pieces of a section depend on -----

  ghost predicate AgreeBelow(d1: Doc, d2: Doc, p: Path) {
    forall q | p <= q :: (q in d1 <==> q in d2) && (q in d1 ==> d1[q] == d2[q])
  }

  lemma {:induction false} BelowChild(d1: Doc, d2: Doc, p: Path, k: nat)
    requires AgreeBelow(d1, d2, p)
    ensures AgreeBelow(d1, d2, Child(p, k))
  {
    forall q | Child(p, k) <= q
      ensures (q in d1 <==> q in d2) && (q in d1 ==> d1[q] == d2[q])
    {
      assert p <= q;
    }
  }

  lemma {:induction false} AgreeAt(d1: Doc, d2: Doc, p: Path)
    requires AgreeBelow(d1, d2, p)
    ensures (p in d1 <==> p in d2) && (p in d1 ==> d1[p] == d2[p])
  {
    assert p <= p;
  }

  lemma {:induction false} PiecesAgree(d1: Doc, d2: Doc, p: Path, i: nat, k: nat)
    requires p in d1 && AgreeBelow(d1, d2, p) && i <= |d1[p].items| && k <= |d1[p].anchors|
    ensures p in d2 && d1[p] == d2[p] && PiecesTo(d1, p, i, k) == PiecesTo(d2, p, i, k)
    decreases Under(d1.Keys, p), i + k
  {
    hide AgreeBelow, PiecesTo;
    AgreeAt(d1, d2, p);
    if i > 0 && (k == 0 || d1[p].anchors[k - 1] < i) {
      PiecesAgree(d1, d2, p, i - 1, k);
      PiecesItem(d1, p, i, k);
      PiecesItem(d2, p, i, k);
    } else if k > 0 {
      PiecesAgree(d1, d2, p, i, k - 1);
      BelowChild(d1, d2, p, k - 1);
      ChildAgrees(d1, d2, p, k - 1);
      PiecesChild(d1, p, i, k);
      PiecesChild(d2, p, i, k);
    } else {
      PiecesNone(d1, p);
      PiecesNone(d2, p);
    }
  }

  lemma {:induction false} ChildAgrees(d1: Doc, d2: Doc, p: Path, k: nat)
    requires p in d1 && p in d2 && k < |d1[p].anchors| && k < |d2[p].anchors|
    requires AgreeBelow(d1, d2, Child(p, k)) && (k < |d1[p].names| <==> k < |d2[p].names|)
    requires k < |d1[p].names| ==> d1[p].names[k] == d2[p].names[k]
    ensures ChildPiece(d1, p, k) == ChildPiece(d2, p, k)
    decreases Under(d1.Keys, p), 0
  {
    hide AgreeBelow;
    var c := Child(p, k);
    AgreeAt(d1, d2, c);
    UnderShrinks(d1.Keys, p, k);
    if c in d1 {
      PiecesAgree(d1, d2, c, |d1[c].items|, |d1[c].anchors|);
    }
  }

  /** A section that only gained items, fields and children at its end shows the same pieces before. */
  ghost predicate GrewFrom(d1: Doc, d2: Doc, p: Path, k: nat) {
    && p in d1 && p in d2 && k <= |d1[p].anchors|
    && d1[p].items <= d2[p].items && d1[p].keys <= d2[p].keys && d1[p].names <= d2[p].names && d1[p].anchors <= d2[p].anchors
    && |d1[p].names| == |d1[p].anchors|
    && (forall x {:trigger Child(p, x)} | 0 <= x < k :: AgreeBelow(d1, d2, Child(p, x)))
  }

  predicate FieldsKnown(s: Sec) {
    forall i | 0 <= i < |s.items| && s.items[i].Field? :: s.items[i].k < |s.keys|
  }

  lemma {:induction false} PiecesGrow(d1: Doc, d2: Doc, p: Path, i: nat, k: nat)
    requires p in d1 && GrewFrom(d1, d2, p, k) && FieldsKnown(d1[p]) && i <= |d1[p].items|
    ensures PiecesTo(d1, p, i, k) == PiecesTo(d2, p, i, k)
    decreases i + k
  {
    hide AgreeBelow, PiecesTo;
    if i > 0 && (k == 0 || d1[p].anchors[k - 1] < i) {
      PiecesGrow(d1, d2, p, i - 1, k);
      PiecesItem(d1, p, i, k);
      PiecesItem(d2, p, i, k);
      assert ItemPiece(d1[p], i - 1) == ItemPiece(d2[p], i - 1);
    } else if k > 0 {
      PiecesGrow(d1, d2, p, i, k - 1);
      assert AgreeBelow(d1, d2, Child(p, k - 1));
      ChildAgrees(d1, d2, p, k - 1);
      PiecesChild(d1, p, i, k);
      PiecesChild(d2, p, i, k);
    } else {
      PiecesNone(d1, p);
      PiecesNone(d2, p);
    }
  }

  // ----- what is built -----

  /** The levels of a built document are in order, apart from names that may repeat. */
  predicate Orderly(s: Sec) {
    && AnchorsOk(s.anchors, |s.items|) && |s.names| == |s.anchors| && |s.keys| == |s.vals| && FieldsKnown(s)
    && s.added == "" && forall i | 0 <= i < |s.vals| :: s.vals[i] == ""
  }

  lemma {:induction false} BuildOrderly(p: Path, ps: seq<G.Piece>, q: Path)
    requires q in Build(p, ps)
    ensures Orderly(Build(p, ps)[q]) && (q != p ==> |q| > |p| && q[|p|] < |Build(p, ps)[p].names|)
    decreases ps
  {
    if ps != [] {
      var x, doc := ps[|ps| - 1], Build(p, ps[..|ps| - 1]);
      BuildOrderly(p, ps[..|ps| - 1], p);
      if q in doc {
        BuildOrderly(p, ps[..|ps| - 1], q);
      }
      if x.Section? {
        var c := Child(p, |doc[p].names|);
        if q in Build(c, x.body) {
          assert c <= q;
          BuildOrderly(c, x.body, q);
        }
      }
    }
  }

  /** The name a field node shows: that of the cell it shares. */
  function FieldName(keys: seq<Key>, name: string): (r: string)
    ensures |r| >= |name|
  {
    var k := FirstMatch(keys, KeyOf(name));
    if k < |keys| then keys[k].name else name
  }

  /** A section that gained one item shows one piece more. */
  lemma {:induction false} ItemShown(d1: Doc, d2: Doc, p: Path)
    requires p in d1 && GrewFrom(d1, d2, p, |d1[p].anchors|) && Orderly(d1[p]) && d2[p].anchors == d1[p].anchors
    requires |d2[p].items| == |d1[p].items| + 1
    ensures Pieces(d2, p) == Pieces(d1, p) + [ItemPiece(d2[p], |d1[p].items|)]
  {
    hide AgreeBelow, PiecesTo;
    PiecesGrow(d1, d2, p, |d1[p].items|, |d1[p].anchors|);
    PiecesItem(d2, p, |d2[p].items|, |d2[p].anchors|);
  }

  lemma {:induction false} ItemGrows(p: Path, ps: seq<G.Piece>, x: G.Piece)
    requires !x.Section?
    ensures var d1, d2 := Build(p, ps), Build(p, ps + [x]);
            && GrewFrom(d1, d2, p, |d1[p].anchors|) && Orderly(d1[p]) && d2[p].anchors == d1[p].anchors
            && d2[p] == if x.Text? then AddText(d1[p], x.text) else AddField(d1[p], x.name)
  {
    assert (ps + [x])[..|ps|] == ps;
    BuildOrderly(p, ps, p);
    hide FirstMatch, KeyOf, Answers;
  }

  lemma {:induction false} TextShown(p: Path, ps: seq<G.Piece>, text: string)
    ensures Pieces(Build(p, ps + [G.Text(text)]), p) == Pieces(Build(p, ps), p) + [G.Text(text)]
  {
    hide Build, Pieces, GrewFrom;
    ItemGrows(p, ps, G.Text(text));
    ItemShown(Build(p, ps), Build(p, ps + [G.Text(text)]), p);
  }

  lemma {:induction false} FieldShown(p: Path, ps: seq<G.Piece>, name: string)
    ensures Pieces(Build(p, ps + [G.Field(name)]), p) == Pieces(Build(p, ps), p) + [G.Field(FieldName(Build(p, ps)[p].keys, name))]
  {
    hide Build, Pieces, GrewFrom, FirstMatch, KeyOf;
    ItemGrows(p, ps, G.Field(name));
    ItemShown(Build(p, ps), Build(p, ps + [G.Field(name)]), p);
  }

  lemma {:induction false} SectionGrows(p: Path, ps: seq<G.Piece>, name: string, body: seq<G.Piece>)
    ensures var d1, d2 := Build(p, ps), Build(p, ps + [G.Section(name, body)]);
            && GrewFrom(d1, d2, p, |d1[p].names|) && Orderly(d1[p]) && d2[p] == AddSection(d1[p], name)
  {
    var d1, d2 := Build(p, ps), Build(p, ps + [G.Section(name, body)]);
    BuildOrderly(p, ps, p);
    BuiltSection(p, ps, name, body);
    hide Build;
    forall x | 0 <= x < |d1[p].names|
      ensures AgreeBelow(d1, d2, Child(p, x))
    {
      SiblingAgrees(p, ps, name, body, x);
    }
  }

  lemma {:induction false} SectionShown(p: Path, ps: seq<G.Piece>, name: string, body: seq<G.Piece>)
    ensures var c := Child(p, |Build(p, ps)[p].names|);
            Pieces(Build(p, ps + [G.Section(name, body)]), p) == Pieces(Build(p, ps), p) + [G.Section(name, Pieces(Build(c, body), c))]
  {
    hide Build, PiecesTo, AgreeBelow, GrewFrom;
    var d1, d2 := Build(p, ps), Build(p, ps + [G.Section(name, body)]);
    var n := |d1[p].names|;
    var c := Child(p, n);
    SectionGrows(p, ps, name, body);
    PiecesGrow(d1, d2, p, |d1[p].items|, n);
    NewChildAgrees(p, ps, name, body);
    var dc := Build(c, body);
    PiecesAgree(dc, d2, c, |dc[c].items|, |dc[c].anchors|);
    assert ChildPiece(d2, p, n) == G.Section(name, Pieces(dc, c));
    LastChild(d2, p, n);
  }

  lemma {:induction false} LastChild(doc: Doc, p: Path, n: nat)
    requires p in doc && |doc[p].anchors| == n + 1 && doc[p].anchors[n] == |doc[p].items|
    ensures Pieces(doc, p) == PiecesTo(doc, p, |doc[p].items|, n) + [ChildPiece(doc, p, n)]
  {
  }

  lemma {:induction false} BuiltSection(p: Path, ps: seq<G.Piece>, name: string, body: seq<G.Piece>)
    ensures Build(p, ps + [G.Section(name, body)])[p] == AddSection(Build(p, ps)[p], name)
  {
    assert (ps + [G.Section(name, body)])[..|ps|] == ps;
  }

  lemma {:induction false} SiblingAgrees(p: Path, ps: seq<G.Piece>, name: string, body: seq<G.Piece>, x: nat)
    requires x < |Build(p, ps)[p].names|
    ensures AgreeBelow(Build(p, ps), Build(p, ps + [G.Section(name, body)]), Child(p, x))
  {
    assert (ps + [G.Section(name, body)])[..|ps|] == ps;
    var d1, d2 := Build(p, ps), Build(p, ps + [G.Section(name, body)]);
    var c := Child(p, |d1[p].names|);
    forall q | Child(p, x) <= q
      ensures (q in d1 <==> q in d2) && (q in d1 ==> d1[q] == d2[q])
    {
      assert q[|p|] == x && c[|p|] != x;
      assert !(c <= q);
    }
  }

  lemma {:induction false} NewChildAgrees(p: Path, ps: seq<G.Piece>, name: string, body: seq<G.Piece>)
    ensures var c := Child(p, |Build(p, ps)[p].names|);
            AgreeBelow(Build(c, body), Build(p, ps + [G.Section(name, body)]), c)
  {
    assert (ps + [G.Section(name, body)])[..|ps|] == ps;
    var d1, d2 := Build(p, ps), Build(p, ps + [G.Section(name, body)]);
    var c := Child(p, |d1[p].names|);
    forall q | c <= q
      ensures (q in Build(c, body) <==> q in d2) && (q in d2 ==> Build(c, body)[q] == d2[q])
    {
      if q in d1 {
        BuildOrderly(p, ps, q);
      }
    }
  }

  // ----- when writing the document back gives the text -----

  /** The field table of a level, in order of first use. */
  function LevelKeys(ps: seq<G.Piece>): seq<Key> {
    if ps == [] then []
    else
      var keys := LevelKeys(ps[..|ps| - 1]);
      match ps[|ps| - 1]
      case Field(name) => if FirstMatch(keys, KeyOf(name)) < |keys| then keys else keys + [KeyOf(name)]
      case _ => keys
  }

  /** Every field is found under its own name: none begins a longer one filed before it in its bucket. */
  predicate SelfNamed(ps: seq<G.Piece>) {
    ps == [] ||
    (SelfNamed(ps[..|ps| - 1]) &&
     match ps[|ps| - 1]
     case Text(_) => true
     case Field(name) => FieldName(LevelKeys(ps[..|ps| - 1]), name) == name
     case Section(_, body) => SelfNamed(body))
  }

  lemma {:induction false} BuildKeys(p: Path, ps: seq<G.Piece>)
    ensures Build(p, ps)[p].keys == LevelKeys(ps)
  {
    if ps != [] {
      BuildKeys(p, ps[..|ps| - 1]);
    }
  }

  lemma {:induction false} UnparseSnoc(ps: seq<G.Piece>, x: G.Piece)
    ensures |G.Unparse(ps + [x])| == |G.Unparse(ps)| + |G.UnparsePiece(x)|
  {
    G.UnparseConcat(ps, [x]);
    G.UnparseOne(x);
  }

  lemma {:induction false} PieceSizes(name: string, body: seq<G.Piece>)
    ensures |G.UnparsePiece(G.Field(name))| == |name| + 3
    ensures |G.UnparsePiece(G.Section(name, body))| == 2 * |name| + 24 + |G.Unparse(body)|
  {
  }

  /** How the shown pieces compare with those the document was built from. */
  ghost predicate Shows(shown: seq<G.Piece>, ps: seq<G.Piece>) {
    && (SelfNamed(ps) ==> shown == ps)
    && |G.Unparse(shown)| >= |G.Unparse(ps)|
    && (!SelfNamed(ps) ==> |G.Unparse(shown)| > |G.Unparse(ps)|)
  }

  lemma {:induction false} ShowsSnoc(shown: seq<G.Piece>, y: G.Piece, ps: seq<G.Piece>, x: G.Piece)
    requires Shows(shown, ps)
    requires match x
             case Text(_) => y == x
             case Field(name) => y == G.Field(FieldName(LevelKeys(ps), name))
             case Section(name, body) => y.Section? && y.name == name && Shows(y.body, body)
    ensures Shows(shown + [y], ps + [x])
  {
    assert (ps + [x])[..|ps|] == ps;
    UnparseSnoc(shown, y);
    UnparseSnoc(ps, x);
    if x.Section? {
      PieceSizes(x.name, x.body);
      PieceSizes(y.name, y.body);
    } else if x.Field? {
      PieceSizes(x.name, []);
      PieceSizes(y.name, []);
      SameName(LevelKeys(ps), x.name);
    }
  }

  /** A field that shares another's cell shows a longer name, unless it is the same. */
  lemma {:induction false} SameName(keys: seq<Key>, name: string)
    ensures FieldName(keys, name) != name ==> |FieldName(keys, name)| > |name|
  {
    var k := FirstMatch(keys, KeyOf(name));
    if k < |keys| && |keys[k].name| == |name| {
      assert keys[k].name == keys[k].name[..|name|] == name;
    }
  }

  lemma {:induction false} BuiltShows(p: Path, ps: seq<G.Piece>)
    ensures Shows(Pieces(Build(p, ps), p), ps)
    decreases ps
  {
    hide Build, Pieces, SelfNamed, G.Unparse, LevelKeys;
    if ps == [] {
      NothingShown(p);
    } else {
      var init, x := ps[..|ps| - 1], ps[|ps| - 1];
      assert ps == init + [x];
      BuiltShows(p, init);
      var shown := Pieces(Build(p, init), p);
      match x
      case Text(text) =>
        TextShown(p, init, text);
        ShowsSnoc(shown, x, init, x);
      case Field(name) =>
        FieldShown(p, init, name);
        BuildKeys(p, init);
        ShowsSnoc(shown, G.Field(FieldName(LevelKeys(init), name)), init, x);
      case Section(name, body) =>
        var c := Child(p, |Build(p, init)[p].names|);
        SectionShown(p, init, name, body);
        BuiltShows(c, body);
        ShowsSnoc(shown, G.Section(name, Pieces(Build(c, body), c)), init, x);
    }
  }

  lemma {:induction false} NothingShown(p: Path)
    ensures Shows(Pieces(Build(p, []), p), [])
  {
  }

  // ----- the same condition on the names alone -----

  /** The field names of a level, each where it first appears. */
  function LevelNames(ps: seq<G.Piece>): seq<string> {
    if ps == [] then []
    else
      var names := LevelNames(ps[..|ps| - 1]);
      match ps[|ps| - 1]
      case Field(name) => if name in names then names else names + [name]
      case _ => names
  }

  /** A later name that would be found in the cell of an earlier one. */
  predicate Clash(earlier: string, later: string) {
    Hash(earlier) == Hash(later) && |later| < |earlier| && earlier[..|later|] == later
  }

  predicate NamesApart(names: seq<string>) {
    forall i, j {:trigger Clash(names[i], names[j])} | 0 <= i < j < |names| :: !Clash(names[i], names[j])
  }

  /** On no level is a field name the beginning of one that appears before it and has the same hash. */
  predicate FieldsApart(ps: seq<G.Piece>) {
    ps == [] ||
    (FieldsApart(ps[..|ps| - 1]) && NamesApart(LevelNames(ps)) && (ps[|ps| - 1].Section? ==> FieldsApart(ps[|ps| - 1].body)))
  }

  function KeysOf(names: seq<string>): (keys: seq<Key>)
    ensures |keys| == |names| && forall i | 0 <= i < |names| :: keys[i] == KeyOf(names[i])
  {
    if names == [] then [] else KeysOf(names[..|names| - 1]) + [KeyOf(names[|names| - 1])]
  }

  predicate Unlike(names: seq<string>) {
    forall i, j | 0 <= i < j < |names| :: names[i] != names[j]
  }

  lemma {:induction false} NamesUnlike(ps: seq<G.Piece>)
    ensures Unlike(LevelNames(ps))
  {
    if ps != [] {
      NamesUnlike(ps[..|ps| - 1]);
    }
  }

  lemma {:induction false} BeginsOrClash(earlier: string, later: string)
    ensures Hash(earlier) == Hash(later) && Begins(earlier, later) <==> Clash(earlier, later) || earlier == later
  {
    if |earlier| == |later| {
      assert earlier[..|later|] == earlier;
    }
  }

  /** A name that was seen finds its own cell. */
  lemma {:induction false} SeenFinds(names: seq<string>, name: string)
    requires NamesApart(names) && Unlike(names) && name in names
    ensures FieldName(KeysOf(names), name) == name && FirstMatch(KeysOf(names), KeyOf(name)) < |names|
  {
    hide Hash;
    var keys := KeysOf(names);
    var m :| 0 <= m < |names| && names[m] == name;
    var r := FirstMatch(keys, KeyOf(name));
    FirstFinds(keys, name, r);
    assert Begins(keys[m].name, name) && keys[m].bucket == Hash(name);
    BeginsOrClash(names[r], name);
  }

  /** A new name finds no cell if and only if it is the beginning of none. */
  lemma {:induction false} NewFinds(names: seq<string>, name: string)
    requires name !in names
    ensures FieldName(KeysOf(names), name) == name <==> forall i | 0 <= i < |names| :: !Clash(names[i], name)
    ensures FieldName(KeysOf(names), name) == name ==> FirstMatch(KeysOf(names), KeyOf(name)) == |names|
  {
    hide Hash;
    var keys := KeysOf(names);
    var r := FirstMatch(keys, KeyOf(name));
    FirstFinds(keys, name, r);
    forall i | 0 <= i < |names|
      ensures (keys[i].bucket == Hash(name) && Begins(keys[i].name, name)) <==> Clash(names[i], name)
    {
      BeginsOrClash(names[i], name);
    }
    if r < |names| {
      assert Clash(names[r], name);
    } else {
      assert forall i | 0 <= i < |names| :: keys[i] == keys[i] && !Clash(names[i], name);
    }
  }

  lemma {:induction false} ApartSnoc(names: seq<string>, name: string)
    ensures NamesApart(names + [name]) <==> NamesApart(names) && forall i | 0 <= i < |names| :: !Clash(names[i], name)
  {
    hide Clash;
    var all := names + [name];
    if NamesApart(all) {
      forall i, j | 0 <= i < j < |names|
        ensures !Clash(names[i], names[j])
      {
        assert !Clash(all[i], all[j]);
      }
      forall i | 0 <= i < |names|
        ensures !Clash(names[i], name)
      {
        assert !Clash(all[i], all[|names|]);
      }
    }
  }

  lemma {:induction false} KeysSnoc(names: seq<string>, name: string)
    ensures KeysOf(names + [name]) == KeysOf(names) + [KeyOf(name)]
  {
    assert (names + [name])[..|names|] == names;
  }

  /** Every field is found under its own name if and only if the names are apart. */
  lemma {:induction false} ApartMeans(ps: seq<G.Piece>)
    ensures SelfNamed(ps) <==> FieldsApart(ps)
    ensures SelfNamed(ps) ==> LevelKeys(ps) == KeysOf(LevelNames(ps)) && NamesApart(LevelNames(ps))
    decreases ps
  {
    hide NamesApart, Clash, KeysOf, FieldName, FirstMatch, KeyOf, Hash, Unlike;
    if ps == [] {
      NothingApart();
    } else {
      var init, x := ps[..|ps| - 1], ps[|ps| - 1];
      var names := LevelNames(init);
      ApartMeans(init);
      NamesUnlike(init);
      match x
      case Field(name) =>
        if name in names {
          if NamesApart(names) {
            SeenFinds(names, name);
          }
        } else {
          NewFinds(names, name);
          ApartSnoc(names, name);
          KeysSnoc(names, name);
        }
      case Section(_, body) =>
        ApartMeans(body);
      case _ =>
    }
  }

  lemma {:induction false} NothingApart()
    ensures LevelKeys([]) == KeysOf(LevelNames([])) && NamesApart(LevelNames([]))
  {
  }

  /** Writing back the template built from an accepted text gives the text, unless a field shares the cell
      of a longer name. */
  lemma {:induction false} LosslessTemplate(s: string, p: Path)
    requires G.Parse(s, 0, []).ok
    ensures var ps := G.Parse(s, 0, []).pieces;
            G.Unparse(Pieces(Build(p, ps), p)) == s <==> FieldsApart(ps)
  {
    hide Build, Pieces, SelfNamed, FieldsApart, G.Unparse, G.Parse;
    var ps := G.Parse(s, 0, []).pieces;
    G.Lossless(s, 0, []);
    G.WholeText(s);
    BuiltShows(p, ps);
    ApartMeans(ps);
  }

  /** "aC" and "a" are filed in one bucket, so a field `a` behind a field `aC` shares its cell. */
  lemma {:induction false} SharedCell()
    ensures var ps := [G.Field("aC"), G.Field("a")];
            G.Parse(G.Unparse(ps), 0, []) == G.Parsed(true, ps) && !FieldsApart(ps)
  {
    var ps := [G.Field("aC"), G.Field("a")];
    assert ps[1..] == [G.Field("a")] && ps[1..][1..] == [];
    TplCanonical.RoundTrip(ps);
    assert ps[..1] == [G.Field("aC")] && ps[..1][..0] == [];
    BucketsMeet();
    assert LevelKeys(ps[..1]) == [KeyOf("aC")];
    assert !SelfNamed(ps);
    ApartMeans(ps);
  }

  lemma {:induction false} RoundOfC()
    ensures HashRound(97, 'C') == 3171
  {
    hide Xor;
    assert 97 * 32 + Widened('C') == 3171;
    assert 3171 % 0x1_0000_0000 == 3171 && 3171 / 0x1000_0000 == 0;
  }

  lemma {:induction false} HashOfShort(a: char, b: char)
    ensures Hash([a]) == Widened(a) % HASH_TABLE_SIZE
    ensures b != '\0' ==> Hash([a, b]) == HashRound(Widened(a), b) % HASH_TABLE_SIZE
  {
    hide HashRound, Widened;
    if b != '\0' {
      assert HashRest([a, b], 1, Widened(a)) == HashRest([a, b], 2, HashRound(Widened(a), b));
    }
  }

  lemma {:induction false} BucketsMeet()
    ensures Answers(KeyOf("aC"), KeyOf("a"))
  {
    hide HashRound, HashRest, Hash;
    RoundOfC();
    HashOfShort('a', 'C');
    assert "aC" == ['a', 'C'] && "a" == ['a'];
    assert "a" <= "aC";
  }

  // ----- right after parsing -----

  /** The texts of a level, without its fields and sections. */
  function PlainText(ps: seq<G.Piece>): string {
    if ps == [] then ""
    else PlainText(ps[..|ps| - 1]) + match ps[|ps| - 1]
                                     case Text(text) => text
                                     case _ => ""
  }

  lemma {:induction false} ItemsGrow(a: seq<Item>, b: seq<Item>, u: seq<string>, v: seq<string>, n: nat)
    requires n <= |a| && a <= b && (forall x | 0 <= x < |u| :: u[x] == "") && (forall x | 0 <= x < |v| :: v[x] == "")
    ensures ItemsText(a, u, 0, n) == ItemsText(b, v, 0, n)
  {
    if n > 0 {
      ItemsGrow(a, b, u, v, n - 1);
      assert a[n - 1] == b[n - 1];
    }
  }

  lemma {:induction false} BuiltLevel(p: Path, init: seq<G.Piece>, x: G.Piece)
    ensures var s, s' := Build(p, init)[p], Build(p, init + [x])[p];
            && s.items <= s'.items && (x.Section? ==> s'.items == s.items)
            && (!x.Section? ==> |s'.items| == |s.items| + 1)
            && (x.Text? ==> s'.items[|s.items|] == Text(x.text)) && (x.Field? ==> s'.items[|s.items|].Field?)
  {
    assert (init + [x])[..|init|] == init;
  }

  lemma {:induction false} LastItem(items: seq<Item>, vals: seq<string>, n: nat)
    requires n < |items|
    ensures ItemsText(items, vals, 0, n + 1) == ItemsText(items, vals, 0, n) + ItemText(items, vals, n)
  {
  }

  lemma {:induction false} BuiltItems(p: Path, ps: seq<G.Piece>)
    ensures var s := Build(p, ps)[p]; ItemsText(s.items, s.vals, 0, |s.items|) == PlainText(ps)
  {
    hide Build, ItemsText;
    if ps == [] {
      NothingBuilt(p);
    } else {
      var init, x := ps[..|ps| - 1], ps[|ps| - 1];
      var s, s' := Build(p, init)[p], Build(p, ps)[p];
      assert ps == init + [x];
      BuiltLevel(p, init, x);
      BuiltItems(p, init);
      BuildOrderly(p, init, p);
      BuildOrderly(p, ps, p);
      ItemsGrow(s.items, s'.items, s.vals, s'.vals, |s.items|);
      if !x.Section? {
        LastItem(s'.items, s'.vals, |s.items|);
      }
      EmptyEnd(PlainText(init));
    }
  }

  lemma {:induction false} NothingBuilt(p: Path)
    ensures var s := Build(p, [])[p]; ItemsText(s.items, s.vals, 0, |s.items|) == ""
  {
  }

  /** A freshly built template renders its texts: the fields are empty and nothing is appended. */
  lemma {:induction false} RenderBuilt(p: Path, ps: seq<G.Piece>)
    ensures Render(Build(p, ps), p) == PlainText(ps)
  {
    var doc := Build(p, ps);
    var s := doc[p];
    BuildOrderly(p, ps, p);
    forall x | 0 <= x < |s.anchors|
      ensures AddedAt(doc, Child(p, x)) == ""
    {
      if Child(p, x) in doc {
        BuildOrderly(p, ps, Child(p, x));
      }
    }
    RenderSkips(doc, p, 0, |s.items|, 0, |s.anchors|);
    BuiltItems(p, ps);
  }
}
