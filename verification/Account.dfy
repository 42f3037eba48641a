/** Which blocks hang in a document, and which were made but hang in it no more. */
module TplAccount {
  import opened TplDocument
  import opened TplHeap
  import opened TplFrames

  ghost function Chain(t: Template): set<object>
    reads t
  {
    (set n | n in t.v.nodes) + (set n | n in t.v.addedNodes) + (set c | c in t.v.fcells)
  }

  /** A record's nodes and cells. A child's record lies in the same block as its section cell. */
  ghost function Owned(t: Template): set<object>
    reads t
  {
    Chain(t) + (set c | c in t.v.scells)
  }

  /** Some section owns the block. */
  ghost predicate Held(d: Dom, o: object)
    reads d.st.Values
  {
    exists q {:trigger d.st[q]} :: q in d.st && o in Owned(d.st[q])
  }

  /** The blocks made so far that no section owns: those that must have been given back. */
  ghost function Unheld(d: Dom): set<object>
    reads d.st.Values
  {
    set o | o in d.world && !(o is Template) && !Held(d, o)
  }

  ghost predicate Belongs(o: object, t: Template)
    reads o
  {
    || (o is Node && (o as Node).home != Loose && (o as Node).home.t == t)
    || (o is FieldCell && (o as FieldCell).owner == t)
    || (o is SectionCell && (o as SectionCell).owner == t)
  }

  lemma {:induction false} OwnedBelongs(d: Dom, p: Path)
    requires p in d.st && Local(d, p)
    ensures forall o | o in Owned(d.st[p]) :: o in d.world && Belongs(o, d.st[p])
  {
    var t, w := d.st[p], d.world;
    forall o | o in Owned(t)
      ensures o in w && Belongs(o, t)
    {
      if i: nat :| i < |t.v.nodes| && o == t.v.nodes[i] {
        assert t.MainNodeOk(w, i);
      } else if i: nat :| i < |t.v.addedNodes| && o == t.v.addedNodes[i] {
        assert t.AddedNodeOk(w, i);
      } else if i: nat :| i < |t.v.fcells| && o == t.v.fcells[i] {
        assert t.FieldCellOk(w, i);
      } else {
        var i: nat :| i < |t.v.scells| && o == t.v.scells[i];
        assert t.SectionCellOk(w, i);
      }
    }
  }

  /** Gives one block back; doing so twice is ruled out. */
  method Destroy(o: object, ghost freed: set<object>) returns (ghost freed': set<object>)
    requires o !in freed
    ensures freed' == freed + {o}
  {
    freed' := freed + {o};
  }

  ghost predicate Distinct<T>(s: seq<T>) {
    forall i, j | 0 <= i < j < |s| :: s[i] != s[j]
  }

  lemma {:induction false} TakeNext<T>(s: seq<T>, j: nat)
    requires j < |s| && Distinct(s)
    ensures s[..j + 1] == s[..j] + [s[j]] && s[j] !in s[..j]
  {
  }

  lemma {:induction false} ChainsApart(t: Template, w: set<object>)
    requires t.MainOk(w) && t.AddedOk(w)
    ensures forall n | n in t.v.addedNodes :: n !in t.v.nodes
  {
    forall i, j | 0 <= i < |t.v.nodes| && 0 <= j < |t.v.addedNodes|
      ensures t.v.nodes[i] != t.v.addedNodes[j]
    {
      assert t.MainNodeOk(w, i) && t.AddedNodeOk(w, j);
    }
  }

  /** No two sections own the same block. */
  lemma {:induction false} OwnedApart(d: Dom, q: Path, r: Path)
    requires Wf(d) && q in d.st && r in d.st && q != r
    ensures Owned(d.st[q]) !! Owned(d.st[r])
  {
    OwnedBelongs(d, q);
    OwnedBelongs(d, r);
    assert d.st[q].v.path == q && d.st[r].v.path == r;
  }

  ghost function AddedSet(t: Template): set<object>
    reads t
  {
    set n | n in t.v.addedNodes
  }

  ghost function RestSet(t: Template): set<object>
    reads t
  {
    (set n | n in t.v.nodes) + (set c | c in t.v.fcells) + (set c | c in t.v.scells)
  }

  /** The appended nodes of section `q` hang nowhere else. */
  ghost predicate AddedAlone(d: Dom, q: Path)
    requires q in d.st
    reads d.st.Values
  {
    AddedSet(d.st[q]) !! RestSet(d.st[q]) && forall r {:trigger d.st[r]} | r in d.st && r != q :: AddedSet(d.st[q]) !! Owned(d.st[r])
  }

  lemma {:induction false} AddedIsAlone(d: Dom, q: Path)
    requires Wf(d) && q in d.st
    ensures AddedAlone(d, q) && AddedSet(d.st[q]) !! Unheld(d) && AddedSet(d.st[q]) <= d.world
  {
    var t := d.st[q];
    assert Local(d, q);
    ChainsApart(t, d.world);
    OwnedBelongs(d, q);
    assert AddedSet(t) <= Owned(t);
    forall r | r in d.st && r != q
      ensures AddedSet(t) !! Owned(d.st[r])
    {
      OwnedApart(d, q, r);
    }
    forall o | o in AddedSet(t)
      ensures Held(d, o)
    {
      assert d.st[q] == t;
    }
  }

  twostate predicate SameBlocks(t: Template)
    reads t
  {
    t.v.nodes == old(t.v.nodes) && t.v.addedNodes == old(t.v.addedNodes) && t.v.fcells == old(t.v.fcells) && t.v.scells == old(t.v.scells)
  }

  twostate lemma {:induction false} HeldStill(d: Dom, new q: Path, new o: object)
    requires q in d.st && SameBlocks(d.st[q])
    ensures o in Owned(d.st[q]) <==> o in old(Owned(d.st[q]))
  {
  }

  /** A step that moves no block. */
  twostate lemma {:induction false} UnheldSame(d: Dom)
    requires forall q {:trigger d.st[q]} | q in d.st :: SameBlocks(d.st[q])
    ensures Unheld(d) == old(Unheld(d))
  {
    hide Owned;
    forall o | o in d.world
      ensures Held(d, o) <==> old(Held(d, o))
    {
      forall q | q in d.st
        ensures o in Owned(d.st[q]) <==> o in old(Owned(d.st[q]))
      {
        HeldStill(d, q, o);
      }
    }
  }

  /** A step that makes blocks and hangs them all in section `p`. */
  twostate lemma {:induction false} UnheldGrows(d: Dom, new d': Dom, new p: Path, new more: set<object>)
    requires p in d.st && Grown(d, d') && d'.world == d.world + more && fresh(more)
    requires forall q {:trigger d.st[q]} | q in d.st && q != p :: SameBlocks(d.st[q])
    requires Owned(d.st[p]) == old(Owned(d.st[p])) + more
    ensures Unheld(d') == old(Unheld(d))
  {
    hide Owned;
    forall o | o in d'.world
      ensures Held(d', o) <==> o in more || old(Held(d, o))
    {
      forall q | q in d.st && q != p
        ensures o in Owned(d.st[q]) <==> o in old(Owned(d.st[q]))
      {
        HeldStill(d, q, o);
      }
      assert o in Owned(d'.st[p]) <==> o in more || o in old(Owned(d.st[p]));
    }
  }

  /** A step that takes blocks out of section `q` and hangs them in section `p`. */
  twostate lemma {:induction false} UnheldMoves(d: Dom, new p: Path, new q: Path)
    requires p in d.st && q in d.st
    requires forall r {:trigger d.st[r]} | r in d.st && r != p && r != q :: SameBlocks(d.st[r])
    requires Owned(d.st[p]) + Owned(d.st[q]) == old(Owned(d.st[p])) + old(Owned(d.st[q]))
    ensures Unheld(d) == old(Unheld(d))
  {
    hide Owned;
    forall o | o in d.world
      ensures Held(d, o) <==> old(Held(d, o))
    {
      forall r | r in d.st && r != p && r != q
        ensures o in Owned(d.st[r]) <==> o in old(Owned(d.st[r]))
      {
        HeldStill(d, r, o);
      }
      assert o in Owned(d.st[p]) + Owned(d.st[q]) <==> o in old(Owned(d.st[p])) + old(Owned(d.st[q]));
      assert d.st[p] == d.st[p] && d.st[q] == d.st[q];
    }
  }

  /** A step that takes blocks out of section `p` for good. */
  twostate lemma {:induction false} UnheldDrops(d: Dom, new d': Dom, new p: Path, new lost: set<object>, new more: set<object>)
    requires p in d.st && Grown(d, d') && d'.world == d.world + more && (forall o | o in more :: o !in d.world)
    requires forall q {:trigger d.st[q]} | q in d.st && q != p :: SameBlocks(d.st[q]) && lost !! old(Owned(d.st[q]))
    requires lost <= old(Owned(d.st[p])) && Owned(d.st[p]) == old(Owned(d.st[p])) - lost + more
    requires lost <= d.world && forall o | o in lost :: !(o is Template)
    ensures Unheld(d') == old(Unheld(d)) + lost
  {
    hide Owned;
    forall o | o in d'.world
      ensures Held(d', o) <==> o in more || (o !in lost && old(Held(d, o)))
    {
      forall q | q in d.st && q != p
        ensures (o in Owned(d.st[q]) <==> o in old(Owned(d.st[q]))) && (o in lost ==> o !in old(Owned(d.st[q])))
      {
        HeldStill(d, q, o);
      }
      assert o in Owned(d'.st[p]) <==> o in more || (o !in lost && o in old(Owned(d.st[p])));
    }
    forall o: object
      ensures o in Unheld(d') <==> o in old(Unheld(d)) + lost
    {
      if o in lost {
        assert o in d'.world && o !in more;
      }
    }
  }

  /** A step that replaces the appended nodes of section `q` by others, dropping some of them. */
  twostate lemma {:induction false} AddedDrops(d: Dom, new d': Dom, new q: Path, new lost: set<object>, new more: set<object>)
    requires q in d.st && Grown(d, d') && d'.world == d.world + more && (forall o | o in more :: o !in d.world)
    requires old(AddedAlone(d, q)) && old(AddedSet(d.st[q]) <= d.world)
    requires forall r {:trigger d.st[r]} | r in d.st && r != q :: SameBlocks(d.st[r])
    requires RestSet(d.st[q]) == old(RestSet(d.st[q])) && lost <= old(AddedSet(d.st[q]))
    requires AddedSet(d.st[q]) == old(AddedSet(d.st[q])) - lost + more
    ensures Unheld(d') == old(Unheld(d)) + lost
  {
    var t := d.st[q];
    assert Owned(t) == RestSet(t) + AddedSet(t);
    assert old(Owned(t)) == old(RestSet(t)) + old(AddedSet(t));
    hide Owned, RestSet;
    UnheldDrops(d, d', q, lost, more);
  }

  /** A section other than those in `ts` keeps its blocks. */
  twostate lemma {:induction false} OtherBlocks(d: Dom, new ts: set<Template>, new q: Path)
    requires q in d.st && d.st[q] in d.world && d.st[q] !in ts && Spares(d.world, ts)
    ensures SameBlocks(d.st[q])
  {
    assert SameTemplate(d.st[q]);
  }

  /** A step on one section that hangs all new blocks in it. */
  twostate lemma {:induction false} StepBlocks(d: Dom, new d': Dom, new p: Path, new more: set<object>)
    requires old(Wf(d)) && p in d.st && Grown(d, d') && d'.world == d.world + more && fresh(more)
    requires Spares(d.world, {d.st[p]}) && Owned(d.st[p]) == old(Owned(d.st[p])) + more
    ensures Unheld(d') == old(Unheld(d))
  {
    hide Local, Spares, Owned;
    forall q | q in d.st && q != p
      ensures SameBlocks(d.st[q])
    {
      assert old(d.st[q].v.path) == q && old(d.st[p].v.path) == p;
      OtherBlocks(d, {d.st[p]}, q);
    }
    UnheldGrows(d, d', p, more);
  }
}
