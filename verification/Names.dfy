/** Names of fields and sections, and how a level's table finds them.

    A bucket comparison looks at the bytes of the searched name only, so a stored name answers
    to every searched name of the same bucket that it starts with. */
module TplNames {

  const HASH_TABLE_SIZE: nat := 29

  /** A stored name with the bucket it was filed under. */
  datatype Key = Key(name: string, bucket: nat)

  // ----- the hash -----

  /** A `char` widened to `unsigned int`: the upper half of the bytes is sign-extended. */
  function Widened(c: char): nat {
    var v := c as int % 256;
    if v < 128 then v else v + 0xFFFF_FF00
  }

  /** Exclusive or of the low `bits` bits. */
  function Xor(a: nat, b: nat, bits: nat): nat {
    if bits == 0 then 0 else 2 * Xor(a / 2, b / 2, bits - 1) + (a + b) % 2
  }

  /** One round: shift, add, and fold the top four bits back into bits 4 to 7. */
  function HashRound(h: nat, c: char): nat {
    var v := (h * 32 + Widened(c)) % 0x1_0000_0000;
    var top := v / 0x1000_0000;
    var low := v % 0x1000_0000;
    if top == 0 then v else (low / 256) * 256 + Xor((low / 16) % 16, top, 4) * 16 + low % 16
  }

  function HashRest(key: string, at: nat, h: nat): nat
    decreases |key| - at
  {
    if at >= |key| || key[at] == '\0' then h else HashRest(key, at + 1, HashRound(h, key[at]))
  }

  function Hash(key: string): (r: nat)
    ensures r < HASH_TABLE_SIZE
  {
    if key == "" then 0 else HashRest(key, 1, Widened(key[0])) % HASH_TABLE_SIZE
  }

  function KeyOf(name: string): (k: Key)
    ensures k.name == name && k.bucket < HASH_TABLE_SIZE
  {
    Key(name, Hash(name))
  }

  method TplHash(key: string) returns (bucket: nat)
    requires key != ""
    ensures bucket == Hash(key) == KeyOf(key).bucket
  {
    var h: nat := Widened(key[0]);
    var at := 1;
    while at != |key| && key[at] != '\0'
      invariant 1 <= at <= |key|
      invariant HashRest(key, at, h) == HashRest(key, 1, Widened(key[0]))
    {
      h := HashRound(h, key[at]);
      at := at + 1;
    }
    bucket := h % HASH_TABLE_SIZE;
  }

  // ----- searching a level -----

  /** What a caller may pass as a name: hashing reads the first byte, comparing stops at no NUL. */
  predicate CleanName(name: string) {
    name != "" && '\0' !in name
  }

  predicate Answers(stored: Key, searched: Key) {
    stored.bucket == searched.bucket && searched.name <= stored.name
  }

  /** The first entry, in order of creation, that answers to `k`; `|keys|` when none does. */
  function FirstMatch(keys: seq<Key>, k: Key, from: nat := 0): (r: nat)
    requires from <= |keys|
    ensures from <= r <= |keys|
    ensures r < |keys| ==> Answers(keys[r], k)
    ensures forall i | from <= i < r :: !Answers(keys[i], k)
    decreases |keys| - from
  {
    if from == |keys| || Answers(keys[from], k) then from else FirstMatch(keys, k, from + 1)
  }

  predicate Begins(whole: string, part: string) {
    |part| <= |whole| && whole[..|part|] == part
  }

  /** `r` is the first entry filed under the hash of `name` whose name begins with it; `|keys|` when there is none. */
  predicate Finds(keys: seq<Key>, name: string, r: nat) {
    && r <= |keys|
    && (r < |keys| ==> keys[r].bucket == Hash(name) && Begins(keys[r].name, name))
    && forall i {:trigger keys[i]} | 0 <= i < r :: !(keys[i].bucket == Hash(name) && Begins(keys[i].name, name))
  }

  lemma {:induction false} AnswersBegin(stored: Key, name: string)
    ensures Answers(stored, KeyOf(name)) <==> stored.bucket == Hash(name) && Begins(stored.name, name)
  {
  }

  /** What a search by a name comes to, and that nothing else does. */
  lemma {:induction false} FirstFinds(keys: seq<Key>, name: string, r: nat)
    requires r <= |keys|
    ensures Finds(keys, name, r) <==> r == FirstMatch(keys, KeyOf(name))
  {
    hide Hash, KeyOf, Answers, Begins;
    var f := FirstMatch(keys, KeyOf(name));
    forall i | 0 <= i < |keys|
      ensures Answers(keys[i], KeyOf(name)) <==> keys[i].bucket == Hash(name) && Begins(keys[i].name, name)
    {
      AnswersBegin(keys[i], name);
    }
  }

  /** No entry filed under the hash of `name` has a name that begins with it. */
  predicate Fresh(keys: seq<Key>, name: string) {
    forall i {:trigger keys[i]} | 0 <= i < |keys| :: !(keys[i].bucket == Hash(name) && Begins(keys[i].name, name))
  }

  lemma {:induction false} FreshMeans(keys: seq<Key>, name: string)
    ensures Fresh(keys, name) <==> FirstMatch(keys, KeyOf(name)) == |keys|
  {
    FirstFinds(keys, name, |keys|);
  }

  lemma {:induction false} FirstMatchIs(keys: seq<Key>, k: Key, j: nat)
    requires j <= |keys| && (j < |keys| ==> Answers(keys[j], k))
    requires forall i | 0 <= i < j :: !Answers(keys[i], k)
    ensures FirstMatch(keys, k) == j
  {
  }

  /** The first entry of a bucket at or after `from`; `|keys|` when the bucket ends before. */
  function NextInBucket(keys: seq<Key>, bucket: nat, from: nat): (r: nat)
    requires from <= |keys|
    ensures from <= r <= |keys|
    ensures r < |keys| ==> keys[r].bucket == bucket
    ensures forall i | from <= i < r :: keys[i].bucket != bucket
    decreases |keys| - from
  {
    if from == |keys| || keys[from].bucket == bucket then from else NextInBucket(keys, bucket, from + 1)
  }

  lemma {:induction false} NextInBucketGrows(keys: seq<Key>, k: Key, bucket: nat, from: nat)
    requires from <= |keys|
    ensures NextInBucket(keys + [k], bucket, from) ==
            (var r := NextInBucket(keys, bucket, from);
             if r < |keys| || k.bucket == bucket then r else |keys| + 1)
    decreases |keys| - from
  {
    if from < |keys| && keys[from].bucket != bucket {
      NextInBucketGrows(keys, k, bucket, from + 1);
    }
  }

  /** `last` is the last entry of a bucket; negative when the bucket is empty. */
  predicate LastOf(keys: seq<Key>, bucket: nat, last: int) {
    if last < 0 then NextInBucket(keys, bucket, 0) == |keys|
    else last < |keys| && keys[last].bucket == bucket && NextInBucket(keys, bucket, last + 1) == |keys|
  }

  /** A position at the end of a table moves on when an entry is added. */
  function Later(r: nat, n: nat): nat {
    if r < n then r else n + 1
  }

  /** Linking a new entry behind the last one of its bucket changes that one link only. */
  lemma {:induction false} BucketHeadGrows(keys: seq<Key>, k: Key, last: int, bucket: nat)
    requires LastOf(keys, k.bucket, last)
    ensures NextInBucket(keys + [k], bucket, 0) ==
            if last < 0 && bucket == k.bucket then |keys| else Later(NextInBucket(keys, bucket, 0), |keys|)
  {
    NextInBucketGrows(keys, k, bucket, 0);
  }

  lemma {:induction false} BucketCellGrows(keys: seq<Key>, k: Key, last: int, i: nat)
    requires LastOf(keys, k.bucket, last) && i < |keys|
    ensures NextInBucket(keys + [k], keys[i].bucket, i + 1) ==
            if i == last then |keys| else Later(NextInBucket(keys, keys[i].bucket, i + 1), |keys|)
  {
    NextInBucketGrows(keys, k, keys[i].bucket, i + 1);
  }

  /** No entry was created while an earlier one already answered to its name. */
  predicate Free(keys: seq<Key>) {
    forall i, j | 0 <= i < j < |keys| :: !Answers(keys[i], keys[j])
  }

  /** Every entry has a clean name and lies in the bucket of its hash. */
  predicate Filed(keys: seq<Key>) {
    forall i | 0 <= i < |keys| :: CleanName(keys[i].name) && keys[i] == KeyOf(keys[i].name)
  }

  /** In such a table every entry is found under its own name. */
  lemma {:induction false} FreeFindsSelf(keys: seq<Key>, i: nat)
    requires i < |keys| && Free(keys)
    ensures FirstMatch(keys, keys[i]) == i
  {
    var r := FirstMatch(keys, keys[i]);
    assert Answers(keys[i], keys[i]);
    assert r <= i;
  }
}
