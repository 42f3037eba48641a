/** Field tables: looking a field up, setting it, clearing a table. */
module TplFields {
  import opened TplNames
  import opened TplDocument
  import opened TplHeap
  import opened TplFrames
  import opened TplAccount

  /** The position a bucket search has reached: cell `j` is next, `prev` is the cell before it in the
      bucket (null when the search stands at the head of the bucket), and nothing before `j` answers. */
  ghost predicate Searching(t: Template, k: Key, prev: FieldCell?, j: nat)
    reads t
  {
    && j <= |t.v.sec.keys| == |t.v.fcells| && (j < |t.v.sec.keys| ==> t.v.sec.keys[j].bucket == k.bucket)
    && (forall i | 0 <= i < j :: !Answers(t.v.sec.keys[i], k))
    && (prev == null ==> j == NextInBucket(t.v.sec.keys, k.bucket, 0))
    && (prev != null ==>
          && prev.at < j && t.v.fcells[prev.at] == prev && t.v.sec.keys[prev.at].bucket == k.bucket
          && j == NextInBucket(t.v.sec.keys, k.bucket, prev.at + 1))
  }

  lemma {:induction false} SearchAdvances(t: Template, w: set<object>, k: Key, prev: FieldCell?, j: nat)
    requires t.FieldsOk(w) && Searching(t, k, prev, j) && j < |t.v.fcells| && !Answers(t.v.sec.keys[j], k)
    ensures t.v.fcells[j] in w
    ensures Searching(t, k, t.v.fcells[j], NextInBucket(t.v.sec.keys, k.bucket, j + 1))
    ensures t.v.fcells[j].next == FieldAt(t.v.fcells, NextInBucket(t.v.sec.keys, k.bucket, j + 1))
  {
    assert t.FieldCellOk(w, j);
  }

  /** tpl_produce_field without may_create, keeping the place where a missing field would be linked. */
  method FindField(t: Template, key: string, ghost w: set<object>)
    returns (cell: FieldCell?, prev: FieldCell?, bucket: nat)
    requires t.FieldsOk(w) && CleanName(key)
    ensures bucket == KeyOf(key).bucket
    ensures cell == FieldAt(t.v.fcells, FirstMatch(t.v.sec.keys, KeyOf(key)))
    ensures exists r {:trigger Finds(t.v.sec.keys, key, r)} :: Finds(t.v.sec.keys, key, r) && cell == FieldAt(t.v.fcells, r)
    ensures cell == null ==> Searching(t, KeyOf(key), prev, |t.v.fcells|)
  {
    bucket := TplHash(key);
    ghost var k := KeyOf(key);
    assert t.FieldBucketOk(bucket);
    cell, prev := t.fields[bucket], null;
    ghost var j: nat := NextInBucket(t.v.sec.keys, bucket, 0);
    assert j < |t.v.fcells| ==> t.FieldCellOk(w, j);
    while cell != null && !(key <= cell.key.name)
      invariant Searching(t, k, prev, j) && cell == FieldAt(t.v.fcells, j)
      invariant cell != null ==> cell.key == t.v.sec.keys[j]
      decreases |t.v.fcells| - j
    {
      SearchAdvances(t, w, k, prev, j);
      j := NextInBucket(t.v.sec.keys, bucket, j + 1);
      prev := cell;
      cell := cell.next;
      assert j < |t.v.fcells| ==> t.FieldCellOk(w, j);
    }
    FirstMatchIs(t.v.sec.keys, k, j);
    FirstFinds(t.v.sec.keys, key, j);
  }

  // ----- values -----

  twostate predicate SameButVals(t: Template)
    reads t
  {
    && t.head == old(t.head) && t.addedHead == old(t.addedHead) && t.addedTail == old(t.addedTail)
    && t.first == old(t.first) && t.fields == old(t.fields) && t.sections == old(t.sections)
    && t.tpl == old(t.tpl) && t.parent == old(t.parent)
    && t.v == old(t.v).(sec := old(t.v.sec).(vals := t.v.sec.vals))
  }

  /** Only field values changed. */
  twostate predicate OnlyVals(w: set<object>)
    reads w
  {
    && (forall t: Template {:trigger SameButVals(t)} | t in w :: SameButVals(t))
    && (forall n: Node {:trigger SameNode(n)} | n in w :: SameNode(n))
    && (forall c: SectionCell {:trigger SameSection(c)} | c in w :: SameSection(c))
  }

  twostate lemma {:induction false} ValsLocal(d: Dom, new p: Path)
    requires p in d.st && OnlyVals(d.world)
    requires old(Local(d, p)) && d.st[p].FieldsOk(d.world)
    ensures Local(d, p)
  {
    assert SameButVals(d.st[p]);
    MainStays(d, d, p);
    AddedStays(d, d, p);
    SectionsStay(d, d, p);
  }

  twostate lemma {:induction false} ValsStep(d: Dom, new ts: set<Template>)
    requires old(Wf(d)) && OnlyVals(d.world) && Spares(d.world, ts)
    requires forall p {:trigger d.st[p]} | p in d.st && d.st[p] in ts :: d.st[p].FieldsOk(d.world)
    ensures Wf(d)
  {
    forall p | p in d.st
      ensures Local(d, p) && SameButVals(d.st[p])
    {
      assert old(Local(d, p));
      assert SameButVals(d.st[p]);
      if d.st[p] !in ts {
        assert SameTemplate(d.st[p]);
        FieldsStay(d, d, p);
      }
      ValsLocal(d, p);
    }
    forall p | p in d.st && p != d.root && p != []
      ensures Up(p) in d.st && p[|p| - 1] < |d.st[Up(p)].v.scells|
    {
      assert SameButVals(d.st[Up(p)]);
    }
  }

  twostate lemma {:induction false} ValsShape(d: Dom)
    requires OnlyVals(d.world) && forall p {:trigger d.st[p]} | p in d.st :: d.st[p] in d.world
    ensures Shape(d) == old(Shape(d))
  {
    forall p | p in d.st
      ensures Shape(d)[p] == old(Shape(d)[p])
    {
      assert SameButVals(d.st[p]);
    }
  }

  twostate lemma {:induction false} ValWritten(t: Template, new w: set<object>, new k: nat, new val: string)
    requires old(allocated(w)) && old(t.FieldsOk(w)) && k < |t.v.fcells| && k < old(|t.v.sec.vals|)
    requires t.v == old(t.v).(sec := old(t.v.sec).(vals := old(t.v.sec.vals)[k := val])) && t.fields == old(t.fields)
    requires t.v.fcells[k].val == val && t.v.fcells[k].next == old(t.v.fcells[k].next)
    requires forall i | 0 <= i < |t.v.fcells| && i != k ::
               t.v.fcells[i].val == old(t.v.fcells[i].val) && t.v.fcells[i].next == old(t.v.fcells[i].next)
    ensures t.FieldsOk(w)
  {
    forall h | 0 <= h < HASH_TABLE_SIZE
      ensures t.FieldBucketOk(h)
    {
      assert old(t.FieldBucketOk(h));
    }
    forall i | 0 <= i < |t.v.fcells|
      ensures t.FieldCellOk(w, i)
    {
      assert old(t.FieldCellOk(w, i));
    }
  }

  lemma {:induction false} FieldHomes(t: Template, w: set<object>)
    requires t.FieldsOk(w)
    ensures forall c | c in t.v.fcells :: c in w && c.owner == t
  {
    forall k | 0 <= k < |t.v.fcells|
      ensures t.v.fcells[k] in w && t.v.fcells[k].owner == t
    {
      assert t.FieldCellOk(w, k);
    }
  }

  lemma {:induction false} FieldsDistinct(t: Template, w: set<object>)
    requires t.FieldsOk(w)
    ensures forall i, j | 0 <= i < j < |t.v.fcells| :: t.v.fcells[i] != t.v.fcells[j]
  {
    forall i, j | 0 <= i < j < |t.v.fcells|
      ensures t.v.fcells[i] != t.v.fcells[j]
    {
      assert t.FieldCellOk(w, i) && t.FieldCellOk(w, j);
    }
  }

  method WriteVal(t: Template, cell: FieldCell, val: string, ghost w: set<object>, ghost k: nat)
    requires t in w && t.FieldsOk(w) && k < |t.v.fcells| && cell == t.v.fcells[k]
    modifies w
    ensures t.FieldsOk(w) && OnlyVals(w) && Spares(w, {t})
    ensures t.v.sec.vals == old(t.v.sec.vals)[k := val]
  {
    FieldsDistinct(t, w);
    assert t.FieldCellOk(w, k);
    cell.val := val;
    t.v := t.v.(sec := t.v.sec.(vals := t.v.sec.vals[k := val]));
    ValWritten(t, w, k, val);
  }

  lemma {:induction false} FieldParts(d: Dom, p: Path)
    requires Wf(d) && p in d.st
    ensures (forall q {:trigger d.st[q]} | q in d.st :: d.st[q] in d.world)
    ensures var t := d.st[p]; t.FieldsOk(d.world) && |t.v.fcells| == |t.v.sec.keys| == |t.v.sec.vals|
  {
    assert Local(d, p);
  }

  lemma {:induction false} NothingSet(d: Dom, p: Path, k: Key, val: string)
    requires Wf(d) && p in d.st && FirstMatch(d.st[p].v.sec.keys, k) == |d.st[p].v.sec.keys| == |d.st[p].v.sec.vals|
    ensures FieldSet(Abs(d), Abs(d), {p}, k, val)
  {
    hide Local;
  }

  twostate lemma {:induction false} ValsBlocks(d: Dom)
    requires OnlyVals(d.world) && forall p {:trigger d.st[p]} | p in d.st :: d.st[p] in d.world
    ensures Unheld(d) == old(Unheld(d))
  {
    forall p | p in d.st
      ensures SameBlocks(d.st[p])
    {
      assert SameButVals(d.st[p]);
    }
    UnheldSame(d);
  }

  /** tpl_set_field on one template. */
  method SetFieldIn(t: Template, key: string, val: string, ghost d: Dom, ghost p: Path)
    requires Wf(d) && p in d.st && d.st[p] == t && CleanName(key)
    modifies d.world
    ensures Wf(d) && Shape(d) == old(Shape(d)) && Unheld(d) == old(Unheld(d))
    ensures FieldSet(old(Abs(d)), Abs(d), {p}, KeyOf(key), val)
  {
    hide Wf, Abs, Shape, FieldSet, FirstMatch, Unheld;
    FieldParts(d, p);
    var cell, prev, bucket := FindField(t, key, d.world);
    if cell != null {
      label found:
      WriteVal(t, cell, val, d.world, FirstMatch(t.v.sec.keys, KeyOf(key)));
      ValsStep@found(d, {t});
      ValsShape@found(d);
      ValsBlocks@found(d);
      ValsAbs@found(d, p, KeyOf(key), val);
    } else {
      NothingSet(d, p, KeyOf(key), val);
    }
  }

  twostate lemma {:induction false} ValsAbs(d: Dom, new p: Path, new k: Key, new val: string)
    requires old(Wf(d)) && Wf(d) && p in d.st && OnlyVals(d.world) && Spares(d.world, {d.st[p]})
    requires old(FirstMatch(d.st[p].v.sec.keys, k) < |d.st[p].v.sec.vals|)
    requires d.st[p].v.sec.vals == old(d.st[p].v.sec.vals)[old(FirstMatch(d.st[p].v.sec.keys, k)) := val]
    ensures FieldSet(old(Abs(d)), Abs(d), {p}, k, val)
  {
    WorldHolds(d);
    hide Local, Wf, FirstMatch;
    forall q | q in d.st
      ensures Abs(d)[q] == if q == p then SetFieldSec(old(Abs(d)[q]), k, val) else old(Abs(d)[q])
    {
      assert SameButVals(d.st[q]);
      assert q != p ==> SameTemplate(d.st[q]);
    }
  }
}
