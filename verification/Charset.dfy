/** Counting the Chinese words of a UTF-8 text. */
module Charset {

  type Byte = x: int | 0 <= x < 256

  // ----- the table -----

  /** The number three bytes are compared by. */
  function Code(a: Byte, b: Byte, c: Byte): nat {
    a * 0x1_0000 + b * 0x100 + c
  }

  /** The order of the bytes, the first one counting most. */
  predicate Before(u: seq<Byte>, v: seq<Byte>)
    requires |u| == |v| == 3
  {
    u[0] < v[0] || (u[0] == v[0] && (u[1] < v[1] || (u[1] == v[1] && u[2] < v[2])))
  }

  /** The numbers tell any two words apart, and are in the order of the bytes. */
  lemma {:induction false} CodeOrder(u: seq<Byte>, v: seq<Byte>)
    requires |u| == |v| == 3
    ensures Code(u[0], u[1], u[2]) == Code(v[0], v[1], v[2]) <==> u == v
    ensures Code(u[0], u[1], u[2]) < Code(v[0], v[1], v[2]) <==> Before(u, v)
  {
    if u[0] == v[0] && u[1] == v[1] && u[2] == v[2] {
      assert u == v;
    }
  }

  /** The k-th entry of the table is the word. */
  predicate Holds(table: seq<Byte>, k: nat, w: seq<Byte>) {
    3 * k + 3 <= |table| && table[3 * k..3 * k + 3] == w
  }

  /** `n` words of three bytes each, in order. */
  ghost predicate Table(table: seq<Byte>, n: nat) {
    && |table| == 3 * n
    && forall j: nat, k: nat, u, v {:trigger Holds(table, j, u), Holds(table, k, v)} ::
         j < k && Holds(table, j, u) && Holds(table, k, v) ==> !Before(v, u)
  }

  /** The word is in the table. */
  ghost predicate Listed(table: seq<Byte>, w: seq<Byte>) {
    exists k: nat {:trigger Holds(table, k, w)} :: Holds(table, k, w)
  }

  /** What a look at the k-th entry of the table says of the others. */
  lemma {:induction false} Compared(table: seq<Byte>, n: nat, k: nat, w: seq<Byte>)
    requires Table(table, n) && k < n && |w| == 3
    ensures var mint, wint := Code(table[3 * k], table[3 * k + 1], table[3 * k + 2]), Code(w[0], w[1], w[2]);
            && (wint == mint ==> Listed(table, w))
            && (wint < mint ==> forall j: nat {:trigger Holds(table, j, w)} | j >= k :: !Holds(table, j, w))
            && (mint < wint ==> forall j: nat {:trigger Holds(table, j, w)} | j <= k :: !Holds(table, j, w))
  {
    hide Code, Before;
    var m := table[3 * k..3 * k + 3];
    assert Holds(table, k, m);
    CodeOrder(w, m);
    CodeOrder(m, w);
    CodeOrder(w, w);
  }

  /** chinese_word_find: the binary search finds what a linear one does. */
  method WordFind(table: seq<Byte>, n: nat, a: Byte, b: Byte, c: Byte) returns (found: nat)
    requires Table(table, n)
    ensures found == if Listed(table, [a, b, c]) then 1 else 0
  {
    hide Code, Table;
    var start, end := 0, n as int - 1;
    var wint := Code(a, b, c);
    TableSize(table, n);
    ghost var w := [a, b, c];
    while true
      invariant 0 <= start <= n && -1 <= end < n
      invariant forall k: nat {:trigger Holds(table, k, w)} | k < start :: !Holds(table, k, w)
      invariant forall k: nat {:trigger Holds(table, k, w)} | end < k :: !Holds(table, k, w)
      decreases end + 1 - start
    {
      if start > end {
        return 0;
      }
      var middle := (start + end) / 2;
      var mint := Code(table[3 * middle], table[3 * middle + 1], table[3 * middle + 2]);
      Compared(table, n, middle, w);
      if wint < mint {
        end := middle - 1;
      } else if mint < wint {
        start := middle + 1;
      } else {
        return 1;
      }
    }
  }

  lemma {:induction false} TableSize(table: seq<Byte>, n: nat)
    requires Table(table, n)
    ensures |table| == 3 * n
  {
  }

  // ----- the scan -----

  /** utf8_len; 5 is the answer to a byte that starts no character. */
  function Utf8Len(b: Byte): (n: nat)
    ensures 1 <= n <= 5
  {
    if b <= 0x7F then 1
    else if b >= 0xF0 then 4
    else if b >= 0xE0 then 3
    else if b >= 0xC0 then 2
    else 5
  }

  /** utf8_len as it is written, with masks. */
  function MaskedLen(b: bv8): nat {
    if b <= 0x7F then 1
    else if b & 0xF0 == 0xF0 then 4
    else if b & 0xE0 == 0xE0 then 3
    else if b & 0xC0 == 0xC0 then 2
    else 5
  }

  lemma {:induction false} MasksCompare(b: bv8)
    ensures b & 0xF0 == 0xF0 <==> b >= 0xF0
    ensures b >= 0x80 ==> (b < 0xF0 ==> (b & 0xE0 == 0xE0 <==> b >= 0xE0)) && (b < 0xE0 ==> (b & 0xC0 == 0xC0 <==> b >= 0xC0))
  {
  }

  /** On every byte the masks decide as the comparisons do. */
  lemma {:induction false} MasksAgree(b: bv8)
    ensures Utf8Len(b as int) == MaskedLen(b)
  {
    MasksCompare(b);
  }

  /** The words found by a scan from `i` on. */
  ghost function CountFrom(s: seq<Byte>, table: seq<Byte>, i: nat): nat
    decreases |s| - i
  {
    if i + 2 >= |s| then 0
    else if Utf8Len(s[i]) != 3 then CountFrom(s, table, i + Utf8Len(s[i]))
    else (if Listed(table, [s[i], s[i + 1], s[i + 2]]) then 1 else 0) + CountFrom(s, table, i + 3)
  }

  lemma {:induction false} CountBound(s: seq<Byte>, table: seq<Byte>, i: nat)
    requires i <= |s|
    ensures 3 * CountFrom(s, table, i) <= |s| - i
    decreases |s| - i
  {
    if i + 2 < |s| {
      if i + Utf8Len(s[i]) <= |s| {
        CountBound(s, table, i + Utf8Len(s[i]));
      }
    }
  }

  /** chinese_word_count, on any bytes: never more than a third of them. */
  method WordCount(s: seq<Byte>, table: seq<Byte>, n: nat) returns (count: nat)
    requires Table(table, n)
    ensures count == CountFrom(s, table, 0) && 3 * count <= |s|
  {
    var i := 0;
    count := 0;
    CountBound(s, table, 0);
    while i + 2 < |s|
      invariant count + CountFrom(s, table, i) == CountFrom(s, table, 0)
      decreases |s| - i
    {
      var ulen := Utf8Len(s[i]);
      if ulen != 3 {
        i := i + ulen;
      } else {
        var found := WordFind(table, n, s[i], s[i + 1], s[i + 2]);
        count := count + found;
        i := i + ulen;
      }
    }
  }

  // ----- valid texts (RFC 3629, sections 3 and 4) -----

  predicate Tail(b: Byte) {
    0x80 <= b <= 0xBF
  }

  predicate Utf8Char(c: seq<Byte>) {
    || (|c| == 1 && c[0] <= 0x7F)
    || (|c| == 2 && 0xC2 <= c[0] <= 0xDF && Tail(c[1]))
    || (|c| == 3 && 0xE0 <= c[0] <= 0xEF && Tail(c[1]) && Tail(c[2])
        && (c[0] == 0xE0 ==> c[1] >= 0xA0) && (c[0] == 0xED ==> c[1] <= 0x9F))
    || (|c| == 4 && 0xF0 <= c[0] <= 0xF4 && Tail(c[1]) && Tail(c[2]) && Tail(c[3])
        && (c[0] == 0xF0 ==> c[1] >= 0x90) && (c[0] == 0xF4 ==> c[1] <= 0x8F))
  }

  predicate Utf8(chars: seq<seq<Byte>>) {
    forall c | c in chars :: Utf8Char(c)
  }

  function Bytes(chars: seq<seq<Byte>>): seq<Byte> {
    if chars == [] then [] else chars[0] + Bytes(chars[1..])
  }

  /** The places of a text, from the i-th on, at which a character is in the table. */
  ghost function WordsFrom(chars: seq<seq<Byte>>, table: seq<Byte>, i: nat): set<nat> {
    set k | i <= k < |chars| && Listed(table, chars[k])
  }

  lemma {:induction false} WordsNext(chars: seq<seq<Byte>>, table: seq<Byte>, i: nat)
    requires i < |chars|
    ensures |WordsFrom(chars, table, i)| == |WordsFrom(chars, table, i + 1)| + if Listed(table, chars[i]) then 1 else 0
  {
    var rest := WordsFrom(chars, table, i + 1);
    assert WordsFrom(chars, table, i) == if Listed(table, chars[i]) then {i} + rest else rest;
  }

  lemma {:induction false} ThreeBytes(table: seq<Byte>, c: seq<Byte>)
    requires |c| != 3
    ensures !Listed(table, c)
  {
  }

  lemma {:induction false} CharLength(c: seq<Byte>)
    requires Utf8Char(c)
    ensures |c| == Utf8Len(c[0])
  {
  }

  lemma {:induction false} NoWordLeft(chars: seq<seq<Byte>>, i: nat, table: seq<Byte>)
    requires Utf8(chars) && i <= |chars| && |Bytes(chars[i..])| <= 2
    ensures |WordsFrom(chars, table, i)| == 0
    decreases |chars| - i
  {
    if i < |chars| {
      assert Utf8Char(chars[i]);
      assert chars[i..][0] == chars[i] && chars[i..][1..] == chars[i + 1..];
      ThreeBytes(table, chars[i]);
      WordsNext(chars, table, i);
      NoWordLeft(chars, i + 1, table);
    }
  }

  /** On a valid text the scan counts exactly the characters in the table. */
  lemma {:induction false} CountExact(s: seq<Byte>, at: nat, chars: seq<seq<Byte>>, i: nat, table: seq<Byte>)
    requires Utf8(chars) && at <= |s| && i <= |chars| && s[at..] == Bytes(chars[i..])
    ensures CountFrom(s, table, at) == |WordsFrom(chars, table, i)|
    decreases |chars| - i
  {
    hide Listed, WordsFrom;
    if at + 2 >= |s| {
      NoWordLeft(chars, i, table);
    } else {
      assert i < |chars|;
      var c, rest := chars[i], s[at..];
      assert Utf8Char(c) && chars[i..][0] == c && chars[i..][1..] == chars[i + 1..];
      CharLength(c);
      assert rest[..|c|] == c && rest[|c|..] == Bytes(chars[i + 1..]);
      assert s[at + |c|..] == rest[|c|..];
      forall x | 0 <= x < |c|
        ensures s[at + x] == c[x]
      {
        assert rest[x] == c[x];
      }
      CountExact(s, at + |c|, chars, i + 1, table);
      WordsNext(chars, table, i);
      if |c| == 3 {
        assert c == [s[at], s[at + 1], s[at + 2]];
      } else {
        ThreeBytes(table, c);
      }
    }
  }

  lemma {:induction false} ListedLiterally(table: seq<Byte>, n: nat)
    requires |table| == 3 * n
    ensures forall w :: Listed(table, w) <==> exists k :: 0 <= k < n && w == table[3 * k..3 * k + 3]
  {
    forall w
      ensures Listed(table, w) <==> exists k :: 0 <= k < n && w == table[3 * k..3 * k + 3]
    {
      if k :| 0 <= k < n && w == table[3 * k..3 * k + 3] {
        assert Holds(table, k, w);
      }
    }
  }

  /** So on valid UTF-8 the program's answer is the number of characters whose bytes are an entry of the table. */
  method ValidCount(chars: seq<seq<Byte>>, table: seq<Byte>, n: nat) returns (count: nat)
    requires Table(table, n) && Utf8(chars)
    ensures |table| == 3 * n
    ensures count == |(set i: nat | i < |chars| && exists k :: 0 <= k < n && chars[i] == table[3 * k..3 * k + 3])|
  {
    var s := Bytes(chars);
    count := WordCount(s, table, n);
    assert s[0..] == s && chars[0..] == chars;
    CountExact(s, 0, chars, 0, table);
    TableSize(table, n);
    ListedLiterally(table, n);
    ghost var places := set i: nat | i < |chars| && exists k :: 0 <= k < n && chars[i] == table[3 * k..3 * k + 3];
    assert WordsFrom(chars, table, 0) == places;
  }
}
