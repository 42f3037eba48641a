/** The document that the pieces of a template text make up. */
module TplBuild {
  import opened TplNames
  import opened TplDocument
  import G = TplGrammar

  function AddText(s: Sec, text: string): Sec {
    s.(items := s.items + [Text(text)])
  }

  /** A field of the same name, or the one that answers to it, is shared. */
  function AddField(s: Sec, name: string): Sec {
    var k := FirstMatch(s.keys, KeyOf(name));
    if k < |s.keys| then s.(items := s.items + [Field(k)])
    else s.(items := s.items + [Field(k)], keys := s.keys + [KeyOf(name)], vals := s.vals + [""])
  }

  function AddSection(s: Sec, name: string): Sec {
    s.(names := s.names + [KeyOf(name)], anchors := s.anchors + [|s.items|])
  }

  function Build(p: Path, ps: seq<G.Piece>): (doc: Doc)
    ensures p in doc && forall q | q in doc :: p <= q
    decreases ps
  {
    if ps == [] then map[p := EMPTY]
    else
      var doc := Build(p, ps[..|ps| - 1]);
      match ps[|ps| - 1]
      case Text(text) => doc[p := AddText(doc[p], text)]
      case Field(name) => doc[p := AddField(doc[p], name)]
      case Section(name, body) => doc[p := AddSection(doc[p], name)] + Build(Child(p, |doc[p].names|), body)
  }

  // Adding a piece keeps a section in order.

  lemma {:induction false} UsesSnoc(items: seq<Item>, it: Item)
    ensures Uses(items + [it]) == match it
                                  case Text(_) => Uses(items)
                                  case Field(k) => if k > Uses(items) then -1 else if k == Uses(items) then k + 1 else Uses(items)
  {
    assert (items + [it])[..|items|] == items;
  }

  lemma {:induction false} FreeSnoc(keys: seq<Key>, k: Key)
    requires Free(keys) && FirstMatch(keys, k) == |keys|
    ensures Free(keys + [k])
  {
    var ks := keys + [k];
    forall i, j | 0 <= i < j < |ks|
      ensures !Answers(ks[i], ks[j])
    {
      assert ks[i] == keys[i];
    }
  }

  lemma {:induction false} AddTextOk(s: Sec, text: string)
    requires SecOk(s)
    ensures SecOk(AddText(s, text))
  {
    UsesSnoc(s.items, Text(text));
  }

  lemma {:induction false} AddFieldOk(s: Sec, name: string)
    requires SecOk(s) && CleanName(name)
    ensures SecOk(AddField(s, name))
  {
    var k := FirstMatch(s.keys, KeyOf(name));
    UsesSnoc(s.items, Field(k));
    if k == |s.keys| {
      FreeSnoc(s.keys, KeyOf(name));
    }
  }

  lemma {:induction false} AddSectionOk(s: Sec, name: string)
    requires SecOk(s) && CleanName(name) && FirstMatch(s.names, KeyOf(name)) == |s.names|
    ensures SecOk(AddSection(s, name))
  {
    FreeSnoc(s.names, KeyOf(name));
  }
}
