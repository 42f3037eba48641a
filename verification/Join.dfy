/** A child section made blank, built on its own, and joined with the rest. */
module TplJoin {
  import opened TplDocument
  import opened TplHeap
  import opened TplFrames
  import opened TplAccount
  import opened TplGrowth
  import opened TplSections

  // ----- pointers of sections at rest -----

  /** Section `q` knows its parent, and its `tpl` pointer leads where selecting `sel` takes it. */
  ghost predicate SettledAt(d: Dom, sel: Path, q: Path)
    reads d.st.Values
  {
    q in d.st && (q != d.root ==>
      && q != [] && Target(sel, q) in d.st && d.st[q].tpl == d.st[Target(sel, q)]
      && Up(q) in d.st && d.st[q].parent == d.st[Up(q)])
  }

  /** So it is with all sections below the root. */
  ghost predicate Settled(d: Dom, sel: Path)
    reads d.st.Values
  {
    forall q {:trigger SettledAt(d, sel, q)} | q in d.st :: SettledAt(d, sel, q)
  }

  /** With all but one. */
  ghost predicate SettledBut(d: Dom, sel: Path, c: Path)
    reads d.st.Values
  {
    forall q {:trigger SettledAt(d, sel, q)} | q in d.st && q != c :: SettledAt(d, sel, q)
  }

  twostate lemma {:induction false} SettledKept(d: Dom, new d': Dom, new p: Path, new sel: Path)
    requires old(Wf(d)) && p in d.st && Grown(d, d') && Spares(d.world, {d.st[p]})
    requires d.st[p].tpl == old(d.st[p].tpl) && d.st[p].parent == old(d.st[p].parent)
    requires old(Settled(d, sel))
    ensures Settled(d', sel)
  {
    hide Local, Spares, SameTemplate, Wf;
    forall q | q in d'.st
      ensures SettledAt(d', sel, q)
    {
      assert old(SettledAt(d, sel, q));
      if q != p {
        OtherKept(d, d', p, q);
        Untied(d.st[q]);
      }
    }
  }

  twostate lemma {:induction false} SettledGrafted(d: Dom, new d': Dom, new p: Path, new c: Path, new child: Template, new sel: Path)
    requires old(Wf(d)) && p in d.st && Grafted(d, d', c, child) && Spares(d.world, {d.st[p]})
    requires d.st[p].tpl == old(d.st[p].tpl) && d.st[p].parent == old(d.st[p].parent) && old(Settled(d, sel))
    ensures SettledBut(d', sel, c)
  {
    hide Local, Spares, SameTemplate, Wf;
    forall q | q in d'.st && q != c
      ensures SettledAt(d', sel, q)
    {
      assert old(SettledAt(d, sel, q));
      if q != p {
        OtherKept(d, d', p, q);
        Untied(d.st[q]);
      }
    }
  }

  // ----- a new last child -----

  function LastOrNull(cells: seq<SectionCell>): SectionCell? {
    if |cells| == 0 then null else cells[|cells| - 1]
  }

  /** `cell` is the last child of `p`, made for the piece `Section(name, [])` and still blank. */
  ghost predicate Awaiting(d: Dom, p: Path, cell: SectionCell, c: Path)
    reads d.world
  {
    && c in d.st && p in d.st && d.st[p] in d.world && |d.st[p].v.scells| > 0 && c == Child(p, |d.st[p].v.scells| - 1)
    && cell == d.st[p].v.scells[|d.st[p].v.scells| - 1] && cell.tpl == d.st[c] && cell.tpl in d.world && cell.tpl.Blank(c)
    && cell.tpl.tpl == cell.tpl && cell.tpl.parent == d.st[p]
  }

  // ----- joining -----

  lemma {:induction false} NoneBelow(d: Dom, c: Path)
    requires Wf(d) && c in d.st && d.st[c].v.scells == []
    ensures forall q {:trigger d.st[q]} | q in d.st :: !(c < q)
  {
    assert Tree(d) && d.st[c] in d.world;
    forall q | q in d.st
      ensures !(c < q)
    {
      if c < q {
        ChildOf(d, c, q);
      }
    }
  }

  lemma {:induction false} Appose(d: Dom, dc: Dom, c: Path)
    requires Wf(dc) && dc.root == c && c in d.st && c != d.root && c != [] && |d.root| < |c| && dc.st[c] == d.st[c]
    requires forall q {:trigger d.st[q]} | q in d.st :: !(c < q)
    ensures Apposed(d, dc, c)
  {
    assert Tree(dc);
    forall q | q in dc.st
      ensures c <= q
    {
      RootedBelow(dc, q);
    }
  }

  function Joined(d: Dom, dc: Dom): Dom {
    Dom(d.root, d.st + dc.st, d.world + dc.world)
  }

  lemma {:induction false} JoinedParts(d: Dom, dc: Dom)
    ensures Joined(d, dc).root == d.root && Joined(d, dc).world == d.world + dc.world
  {
  }

  lemma {:induction false} RootedBelow(d: Dom, q: Path)
    requires Tree(d) && q in d.st
    ensures d.root <= q
  {
    assert d.st[q] in d.world;
    PrefixesIn(d, q, |d.root|);
    assert d.st[q[..|d.root|]] in d.world;
  }

  /** Well-formedness of a section does not mind more sections and objects. */
  lemma {:induction false} LocalWidens(d: Dom, d': Dom, p: Path)
    requires p in d.st && d.st[p] in d.world && Local(d, p) && d.world <= d'.world
    requires forall q {:trigger d.st[q]} | q in d.st :: q in d'.st && d'.st[q] == d.st[q]
    ensures Local(d', p)
  {
    var t, w, w' := d.st[p], d.world, d'.world;
    forall i | 0 <= i < |t.v.nodes| ensures t.MainNodeOk(w', i) {
      assert t.MainNodeOk(w, i);
    }
    forall i | 0 <= i < |t.v.addedNodes| ensures t.AddedNodeOk(w', i) {
      assert t.AddedNodeOk(w, i);
    }
    forall i | 0 <= i < |t.v.fcells| ensures t.FieldCellOk(w', i) {
      assert t.FieldCellOk(w, i);
    }
    forall i | 0 <= i < |t.v.scells| ensures t.SectionCellOk(w', i) {
      assert t.SectionCellOk(w, i);
    }
    assert p in d'.st && d'.st[p] == t;
    forall k | 0 <= k < |t.v.scells| ensures Child(p, k) in d'.st && t.v.scells[k].tpl == d'.st[Child(p, k)] {
      assert t.v.scells[k].tpl == d.st[Child(p, k)];
    }
  }

  /** Nothing in `d` lies below `c`, and everything in `dc` lies at or below it. */
  ghost predicate Apposed(d: Dom, dc: Dom, c: Path) {
    && c in d.st && c != d.root && c != [] && |d.root| < |c| && dc.root == c && c in dc.st && dc.st[c] == d.st[c]
    && (forall q {:trigger d.st[q]} | q in d.st :: !(c < q))
    && (forall q {:trigger dc.st[q]} | q in dc.st :: c <= q)
  }

  lemma {:induction false} JoinAgrees(d: Dom, dc: Dom, c: Path)
    requires Apposed(d, dc, c)
    ensures var d' := Joined(d, dc);
            && (forall q {:trigger d.st[q]} | q in d.st :: q in d'.st && d'.st[q] == d.st[q])
            && (forall q {:trigger dc.st[q]} | q in dc.st :: q in d'.st && d'.st[q] == dc.st[q])
  {
    var d' := Joined(d, dc);
    forall q | q in d.st
      ensures q in d'.st && d'.st[q] == d.st[q]
    {
      if q in dc.st {
        assert dc.st[q] == dc.st[q] && d.st[q] == d.st[q];
        assert c <= q && !(c < q);
        assert q[..|c|] == c && q[..|q|] == q;
      }
    }
  }

  twostate lemma {:induction false} JoinLocal(d: Dom, new dc: Dom, new c: Path, new q: Path)
    requires old(Wf(d)) && Wf(dc) && Apposed(d, dc, c) && Spares(d.world, {d.st[c]}) && q in Joined(d, dc).st
    ensures var d' := Joined(d, dc); Local(d', q) && d'.st[q] in d'.world && d'.st[q].v.path == q
    ensures q !in dc.st ==> d.st[q].v == old(d.st[q].v)
  {
    hide Spares, SameTemplate;
    var d' := Joined(d, dc);
    JoinAgrees(d, dc, c);
    if q in dc.st {
      assert dc.st[q] in dc.world && Local(dc, q);
      LocalWidens(dc, d', q);
    } else {
      assert old(d.st[q].v.path) == q;
      OtherKept(d, d', c, q);
      Untied(d.st[q]);
    }
  }

  /** A section built apart is as good as one built in place. */
  twostate lemma {:induction false} JoinStep(d: Dom, new dc: Dom, new c: Path)
    requires old(Wf(d)) && Wf(dc) && Apposed(d, dc, c) && Spares(d.world, {d.st[c]})
    ensures Wf(Joined(d, dc))
  {
    hide Spares, Local;
    var d' := Joined(d, dc);
    JoinAgrees(d, dc, c);
    forall q | q in d'.st
      ensures Local(d', q) && d'.st[q] in d'.world && d'.st[q].v.path == q && (q == d.root || |q| > |d.root|)
    {
      JoinLocal(d, dc, c, q);
      if q in dc.st {
        assert dc.st[q] in dc.world;
      } else {
        assert old(d.st[q].v.path) == q;
      }
    }
    forall q | q in d'.st && q != d.root && q != []
      ensures Up(q) in d'.st && q[|q| - 1] < |d'.st[Up(q)].v.scells|
    {
      JoinUp(d, dc, c, q);
    }
  }

  twostate lemma {:induction false} JoinUp(d: Dom, new dc: Dom, new c: Path, new q: Path)
    requires old(Wf(d)) && Wf(dc) && Apposed(d, dc, c) && Spares(d.world, {d.st[c]})
    requires q in Joined(d, dc).st && q != d.root && q != []
    ensures var d' := Joined(d, dc); Up(q) in d'.st && q[|q| - 1] < |d'.st[Up(q)].v.scells|
  {
    hide Spares, Local;
    JoinAgrees(d, dc, c);
    if q in dc.st && q != c {
      assert Up(q) in dc.st;
      assert dc.st[Up(q)] == dc.st[Up(q)];
    } else {
      assert Up(q) in d.st;
      assert d.st[q] == d.st[q];
      assert !(c <= Up(q));
      if Up(q) in dc.st {
        assert dc.st[Up(q)] == dc.st[Up(q)];
      }
      JoinLocal(d, dc, c, Up(q));
    }
  }

  twostate lemma {:induction false} JoinAbs(d: Dom, new dc: Dom, new c: Path)
    requires old(Wf(d)) && Wf(dc) && Apposed(d, dc, c) && Spares(d.world, {d.st[c]}) && Wf(Joined(d, dc))
    ensures Abs(Joined(d, dc)) == old(Abs(d)) + Abs(dc)
  {
    hide Spares, Local, Wf, Target, Apposed;
    var d' := Joined(d, dc);
    JoinAgrees(d, dc, c);
    forall q | q in d'.st
      ensures Abs(d')[q] == (old(Abs(d)) + Abs(dc))[q]
    {
      JoinLocal(d, dc, c, q);
      if q in dc.st {
        assert dc.st[q] == dc.st[q];
      }
    }
  }

  twostate lemma {:induction false} JoinSettled(d: Dom, new dc: Dom, new c: Path, new sel: Path)
    requires old(Wf(d)) && Wf(dc) && Apposed(d, dc, c) && Spares(d.world, {d.st[c]})
    requires old(SettledBut(d, sel, c)) && Settled(dc, sel) && Target(sel, c) in dc.st && d.st[c].tpl == dc.st[Target(sel, c)]
    requires Up(c) in d.st && d.st[c].parent == d.st[Up(c)]
    ensures Settled(Joined(d, dc), sel)
  {
    hide Spares, Local, Wf;
    var d' := Joined(d, dc);
    JoinAgrees(d, dc, c);
    assert dc.st[Target(sel, c)] == dc.st[Target(sel, c)] && d.st[Up(c)] == d.st[Up(c)];
    forall q | q in d'.st
      ensures SettledAt(d', sel, q)
    {
      if q == c {
      } else if q in dc.st {
        assert SettledAt(dc, sel, q) && dc.st[q] == dc.st[q];
      } else {
        assert old(SettledAt(d, sel, q)) && d.st[q] == d.st[q];
        OtherKept(d, d', c, q);
        Untied(d.st[q]);
      }
    }
  }

  /** Nothing is lost by joining: what hung in either part hangs in the whole. */
  twostate lemma {:induction false} JoinedBlocks(d: Dom, new dc: Dom, new c: Path)
    requires old(Wf(d)) && Apposed(d, dc, c) && Spares(d.world, {d.st[c]})
    requires old(Unheld(d)) == {} && Unheld(dc) == {} && old(Owned(d.st[c])) <= dc.world
    ensures Unheld(Joined(d, dc)) == {}
  {
    hide Owned, Local, Spares;
    var d' := Joined(d, dc);
    JoinAgrees(d, dc, c);
    forall o | o in d'.world && !(o is Template)
      ensures Held(d', o)
    {
      if o in dc.world {
        assert o !in Unheld(dc);
        var q :| q in dc.st && o in Owned(dc.st[q]);
        assert d'.st[q] == dc.st[q];
      } else {
        HeldBefore(d, c, o);
        var q :| q in d.st && q != c && o in Owned(d.st[q]);
        assert d'.st[q] == d.st[q];
      }
    }
  }

  twostate lemma {:induction false} HeldBefore(d: Dom, new c: Path, new o: object)
    requires old(Wf(d)) && c in d.st && Spares(d.world, {d.st[c]})
    requires o in d.world && !(o is Template) && old(Unheld(d)) == {} && o !in old(Owned(d.st[c]))
    ensures exists q {:trigger d.st[q]} :: q in d.st && q != c && o in Owned(d.st[q])
  {
    hide Owned, Local, Spares;
    assert o !in old(Unheld(d));
    var q :| q in d.st && o in old(Owned(d.st[q]));
    assert old(d.st[q].v.path) == q && old(d.st[c].v.path) == c;
    OtherBlocks(d, {d.st[c]}, q);
    HeldStill(d, q, o);
  }

  /** All of that for a section that was still blank when it was built apart. */
  twostate lemma {:induction false} Rejoined(d: Dom, new dc: Dom, new c: Path, new sel: Path)
    requires old(Wf(d)) && c in d.st && c != d.root && c != [] && |d.root| < |c| && old(SettledBut(d, sel, c) && d.st[c].Blank(c))
    requires old(Unheld(d)) == {} && Unheld(dc) == {}
    requires forall q {:trigger d.st[q]} | q in d.st :: !(c < q)
    requires forall o: object | o in d.world && o != d.st[c] :: unchanged(o)
    requires Wf(dc) && dc.root == c && c in dc.st && dc.st[c] == d.st[c] && Settled(dc, sel)
    requires Target(sel, c) in dc.st && d.st[c].tpl == dc.st[Target(sel, c)] && Up(c) in d.st && d.st[c].parent == d.st[Up(c)]
    ensures Wf(Joined(d, dc)) && Abs(Joined(d, dc)) == old(Abs(d)) + Abs(dc) && Settled(Joined(d, dc), sel) && Unheld(Joined(d, dc)) == {}
    ensures forall q {:trigger d.st[q]} | q in d.st :: q in Joined(d, dc).st && Joined(d, dc).st[q] == d.st[q]
  {
    hide Wf, Abs, Settled, SettledBut, Spares, Joined, Apposed, Target, Unheld;
    SparesOne(d, d.st[c]);
    Appose(d, dc, c);
    JoinAgrees(d, dc, c);
    JoinStep(d, dc, c);
    JoinAbs(d, dc, c);
    JoinSettled(d, dc, c, sel);
    assert old(Owned(d.st[c])) == {};
    JoinedBlocks(d, dc, c);
  }

  /** And for one that is blank again. */
  twostate lemma {:induction false} Reblanked(d: Dom, new c: Path)
    requires old(Wf(d)) && c in d.st && old(d.st[c].Blank(c)) && d.st[c].Blank(c)
    requires forall o: object | o in d.world && o != d.st[c] :: unchanged(o)
    ensures Wf(d) && Abs(d) == old(Abs(d)) && Unheld(d) == old(Unheld(d))
  {
    hide Spares, Local;
    assert old(d.st[c].v.path) == c;
    SparesOne(d, d.st[c]);
    BlankLocal(d, c);
    GrowStep(d, d, c);
    GrowAbs(d, d, c);
    assert old(Abs(d))[c := EMPTY] == old(Abs(d));
    assert Owned(d.st[c]) == {} && old(Owned(d.st[c])) == {};
    StepBlocks(d, d, c, {});
  }

  lemma {:induction false} BlankAlone(t: Template, c: Path)
    requires t.Blank(c)
    ensures Wf(Dom(c, map[c := t], {t})) && Unheld(Dom(c, map[c := t], {t})) == {}
  {
    BlankLocal(Dom(c, map[c := t], {t}), c);
  }
}
