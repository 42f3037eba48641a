/** Setting a field in the selected section, and throughout the document. */
module TplSetting {
  import opened TplNames
  import opened TplDocument
  import opened TplHeap
  import opened TplAccount
  import opened TplFields

  /** tpl_set_field */
  method SetField(tpl: Template, key: string, val: string, ghost d: Dom, ghost sel: Path)
    requires Selected(d, sel) && d.st[[]] == tpl && CleanName(key)
    modifies d.world
    ensures Selected(d, sel) && Shape(d) == old(Shape(d)) && Unheld(d) == old(Unheld(d))
    ensures FieldSet(old(Abs(d)), Abs(d), {sel}, KeyOf(key), val)
  {
    assert LinkedAt(d.st, Shape(d), sel, []);
    SetFieldIn(tpl.tpl, key, val, d, sel);
  }

  /** The sections reached from those at or below `p` through their `tpl` pointers. */
  function Hit(keys: set<Path>, sel: Path, p: Path): set<Path> {
    set q | q in keys && p <= q :: Target(sel, q)
  }

  /** The part of them reached from `p` itself and through its first `k` children. */
  function HitUpTo(keys: set<Path>, sel: Path, p: Path, k: nat): set<Path> {
    {Target(sel, p)} + set q | q in keys && p < q && q[|p|] < k :: Target(sel, q)
  }

  lemma {:induction false} HitStarts(keys: set<Path>, sel: Path, p: Path)
    ensures HitUpTo(keys, sel, p, 0) == {Target(sel, p)}
  {
  }

  lemma {:induction false} HitGrows(keys: set<Path>, sel: Path, p: Path, k: nat)
    ensures HitUpTo(keys, sel, p, k + 1) == HitUpTo(keys, sel, p, k) + Hit(keys, sel, Child(p, k))
  {
    forall q | q in keys && p < q && q[|p|] == k
      ensures Child(p, k) <= q
    {
    }
    forall q | q in keys && Child(p, k) <= q
      ensures p < q && q[|p|] == k
    {
    }
  }

  lemma {:induction false} HitAll(d: Dom, sel: Path, p: Path)
    requires Wf(d) && d.root == [] && p in d.st
    ensures Hit(d.st.Keys, sel, p) == HitUpTo(d.st.Keys, sel, p, |d.st[p].v.scells|)
  {
    var n := |d.st[p].v.scells|;
    var l, r := Hit(d.st.Keys, sel, p), HitUpTo(d.st.Keys, sel, p, n);
    forall x | x in l
      ensures x in r
    {
      var q :| q in d.st && p <= q && x == Target(sel, q);
      if q != p {
        ChildOf(d, p, q);
      }
    }
    assert forall x | x in r :: x in l;
  }

  /** Setting the field where the section's own `tpl` pointer leads. */
  method SetFieldHere(t: Template, key: string, val: string, ghost d: Dom, ghost sel: Path, ghost p: Path)
    returns (first: SectionCell?)
    requires Selected(d, sel) && p in d.st && d.st[p] == t && CleanName(key)
    modifies d.world
    ensures Wf(d) && Shape(d) == old(Shape(d)) && Unheld(d) == old(Unheld(d)) && first == SectionAt(old(t.v.scells), 0)
    ensures FieldSet(old(Abs(d)), Abs(d), HitUpTo(d.st.Keys, sel, p, 0), KeyOf(key), val)
  {
    FirstCell(d, p);
    assert LinkedAt(d.st, Shape(d), sel, p);
    first := t.first;
    SetFieldIn(t.tpl, key, val, d, Target(sel, p));
    HitStarts(d.st.Keys, sel, p);
  }

  /** tpl_set_field_global, called on the section `p`. */
  method SetFieldGlobal(t: Template, key: string, val: string, ghost d: Dom, ghost sel: Path, ghost p: Path)
    requires Selected(d, sel) && p in d.st && d.st[p] == t && CleanName(key)
    modifies d.world
    ensures Selected(d, sel) && Shape(d) == old(Shape(d)) && Unheld(d) == old(Unheld(d))
    ensures FieldSet(old(Abs(d)), Abs(d), Hit(d.st.Keys, sel, p), KeyOf(key), val)
    decreases Under(d.st.Keys, p), 1
  {
    hide FieldSet, HitUpTo, Hit, Wf, Abs, Shape, LinkedAt, Unheld;
    WorldHolds(d);
    ghost var doc, b, unheld := Abs(d), Shape(d), Unheld(d);
    BonesAt(d, p);
    var section := SetFieldHere(t, key, val, d, sel, p);
    ghost var k: nat, cells := 0, b[p].scells;
    while section != null
      invariant Wf(d) && Shape(d) == b && Unheld(d) == unheld
      invariant k <= |cells| && section == SectionAt(cells, k)
      invariant FieldSet(doc, Abs(d), HitUpTo(d.st.Keys, sel, p, k), KeyOf(key), val)
      decreases |cells| - k
    {
      WorldHolds(d);
      BonesAt(d, p);
      section := SetFieldBelow(section, key, val, d, sel, p, k, doc);
      k := k + 1;
    }
    WorldHolds(d);
    BonesAt(d, p);
    HitAll(d, sel, p);
  }

  /** One turn of its loop over the children. */
  method SetFieldBelow(section: SectionCell, key: string, val: string, ghost d: Dom, ghost sel: Path, ghost p: Path, ghost k: nat, ghost doc: Doc)
    returns (next: SectionCell?)
    requires Selected(d, sel) && p in d.st && CleanName(key)
    requires k < |d.st[p].v.scells| && section == d.st[p].v.scells[k]
    requires FieldSet(doc, Abs(d), HitUpTo(d.st.Keys, sel, p, k), KeyOf(key), val)
    modifies d.world
    ensures Wf(d) && Shape(d) == old(Shape(d)) && Unheld(d) == old(Unheld(d))
    ensures next == SectionAt(old(d.st[p].v.scells), k + 1)
    ensures FieldSet(doc, Abs(d), HitUpTo(d.st.Keys, sel, p, k + 1), KeyOf(key), val)
    decreases Under(d.st.Keys, p), 0
  {
    ghost var b, mid := Shape(d)[p], Abs(d);
    ghost var hit, more := HitUpTo(d.st.Keys, sel, p, k), Hit(d.st.Keys, sel, Child(p, k));
    ChildCell(d, p, k);
    UnderShrinks(d.st.Keys, p, k);
    SetFieldGlobal(section.tpl, key, val, d, sel, Child(p, k));
    FieldSetTwice(doc, mid, Abs(d), hit, more, KeyOf(key), val);
    HitGrows(d.st.Keys, sel, p, k);
    assert Shape(d)[p] == b;
    NextCell(d, p, k);
    next := section.next;
  }
}
