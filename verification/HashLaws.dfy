/** What the hash of a name is, bit by bit, without the functions that compute it. */
module TplHashLaws {
  import opened TplNames

  /** A byte as C's signed char. */
  function Signed(c: char): int {
    if c as int % 256 < 128 then c as int % 256 else c as int % 256 - 256
  }

  /** One round, in bits: the low four and the middle twenty are those of `32 * h + c`, the top four go, and
      what they were is folded by an exclusive or into the four in between. */
  predicate Folded(h: nat, c: char, r: nat) {
    var v := (32 * h + Signed(c)) % 0x1_0000_0000;
    && r < 0x1000_0000 && r % 16 == v % 16 && r / 256 == v % 0x1000_0000 / 256
    && (r / 16 % 16) as bv4 == ((v / 16 % 16) as bv4) ^ ((v / 0x1000_0000) as bv4)
  }

  // ----- the exclusive or of four bits -----

  function Bit(on: bool, value: bv4): bv4 {
    if on then value else 0
  }

  lemma {:induction false} BitsOf(a: nat)
    requires a < 16
    ensures a as bv4 == Bit(a / 8 == 1, 8) | Bit(a / 4 % 2 == 1, 4) | Bit(a / 2 % 2 == 1, 2) | Bit(a % 2 == 1, 1)
  {
    if a < 8 {
      if a == 0 {} else if a == 1 {} else if a == 2 {} else if a == 3 {} else if a == 4 {} else if a == 5 {} else if a == 6 {}
    } else {
      if a == 8 {} else if a == 9 {} else if a == 10 {} else if a == 11 {} else if a == 12 {} else if a == 13 {} else if a == 14 {}
    }
  }

  lemma {:induction false} XorOfBits(a3: bool, a2: bool, a1: bool, a0: bool, b3: bool, b2: bool, b1: bool, b0: bool)
    ensures (Bit(a3, 8) | Bit(a2, 4) | Bit(a1, 2) | Bit(a0, 1)) ^ (Bit(b3, 8) | Bit(b2, 4) | Bit(b1, 2) | Bit(b0, 1)) ==
            Bit(a3 != b3, 8) | Bit(a2 != b2, 4) | Bit(a1 != b1, 2) | Bit(a0 != b0, 1)
  {
  }

  /** The last bit of an exclusive or, and the others. */
  lemma {:induction false} XorHalf(a: nat, b: nat, n: nat)
    ensures Xor(a, b, n + 1) / 2 == Xor(a / 2, b / 2, n) && (Xor(a, b, n + 1) % 2 == 1 <==> a % 2 != b % 2)
  {
    var x := Xor(a / 2, b / 2, n);
    assert (a + b) % 2 == if a % 2 == b % 2 then 0 else 1;
    assert Xor(a, b, n + 1) == 2 * x + (a + b) % 2;
  }

  lemma {:induction false} Quarters(a: nat)
    ensures a / 2 / 2 == a / 4 && a / 4 / 2 == a / 8 && (a < 16 ==> a / 8 < 2)
  {
  }

  /** The model's exclusive or is the machine's. */
  lemma {:induction false} XorMachine(a: nat, b: nat)
    requires a < 16 && b < 16
    ensures Xor(a, b, 4) < 16 && Xor(a, b, 4) as bv4 == (a as bv4) ^ (b as bv4)
  {
    hide Xor;
    var x := Xor(a, b, 4);
    XorHalf(a, b, 3);
    XorHalf(a / 2, b / 2, 2);
    XorHalf(a / 2 / 2, b / 2 / 2, 1);
    XorHalf(a / 2 / 2 / 2, b / 2 / 2 / 2, 0);
    XorNothing(a / 2 / 2 / 2 / 2, b / 2 / 2 / 2 / 2);
    Quarters(a);
    Quarters(b);
    Quarters(x);
    BitsOf(a);
    BitsOf(b);
    BitsOf(x);
    XorOfBits(a / 8 == 1, a / 4 % 2 == 1, a / 2 % 2 == 1, a % 2 == 1, b / 8 == 1, b / 4 % 2 == 1, b / 2 % 2 == 1, b % 2 == 1);
  }

  lemma {:induction false} XorNothing(a: nat, b: nat)
    ensures Xor(a, b, 0) == 0
  {
  }

  // ----- a round -----

  lemma {:induction false} Summed(h: nat, c: char)
    ensures (h * 32 + Widened(c)) % 0x1_0000_0000 == (32 * h + Signed(c)) % 0x1_0000_0000
  {
    if Widened(c) != Signed(c) {
      assert h * 32 + Widened(c) == 32 * h + Signed(c) + 0x1_0000_0000;
    }
  }

  lemma {:induction false} NoFold(v: nat)
    requires v < 0x1000_0000
    ensures v % 0x1000_0000 == v && v / 0x1000_0000 == 0 && ((v / 16 % 16) as bv4) ^ ((v / 0x1000_0000) as bv4) == (v / 16 % 16) as bv4
  {
  }

  lemma {:induction false} DivideBy(a: nat, b: nat, q: nat, r: nat)
    requires b > 0 && r < b && a == b * q + r
    ensures a / b == q && a % b == r
  {
    var e, f := a / b, a % b;
    assert a == b * e + f;
    if e != q {
      var less, more := if e < q then e else q, if e < q then q else e;
      AtLeastOnce(b, less, more);
    }
  }

  lemma {:induction false} AtLeastOnce(b: nat, less: nat, more: nat)
    requires less < more
    ensures b * more >= b * less + b
  {
    assert b * more == b * less + b * (more - less);
    assert b * (more - less) == b + b * (more - less - 1);
  }

  lemma {:induction false} Fold(v: nat, x: nat)
    requires x < 16
    ensures var low := v % 0x1000_0000; var r := low / 256 * 256 + x * 16 + low % 16;
            && r < 0x1000_0000 && r % 16 == v % 16 && r / 256 == low / 256 && r / 16 % 16 == x && low / 16 % 16 == v / 16 % 16
  {
    var q, low := v / 0x1000_0000, v % 0x1000_0000;
    var m, y, z := low / 256, low / 16 % 16, low % 16;
    assert low / 16 / 16 == m;
    assert low == 256 * m + 16 * y + z && m < 0x10_0000;
    DivideBy(v, 16, 0x100_0000 * q + 16 * m + y, z);
    DivideBy(v / 16, 16, 0x10_0000 * q + m, y);
    var r := 256 * m + 16 * x + z;
    DivideBy(r, 16, 16 * m + x, z);
    DivideBy(r / 16, 16, m, x);
    DivideBy(r, 256, m, 16 * x + z);
  }

  /** What a round computes is what the shift, the mask and the two exclusive ors of the C code leave. */
  lemma {:induction false} RoundFolds(h: nat, c: char)
    ensures Folded(h, c, HashRound(h, c))
  {
    hide Xor, Widened, Signed;
    var v := (h * 32 + Widened(c)) % 0x1_0000_0000;
    Summed(h, c);
    var top, low := v / 0x1000_0000, v % 0x1000_0000;
    if top == 0 {
      NoFold(v);
    } else {
      var x := Xor((low / 16) % 16, top, 4);
      XorMachine((low / 16) % 16, top);
      Fold(v, x);
    }
  }

  // ----- a name -----

  /** The states a hash goes through. */
  ghost predicate Trace(key: string, hs: seq<nat>) {
    && |hs| == |key| > 0 && hs[0] == Signed(key[0]) % 0x1_0000_0000
    && forall i | 0 < i < |key| :: Folded(hs[i - 1], key[i], hs[i])
  }

  lemma {:induction false} TraceOn(key: string, at: nat, hs: seq<nat>) returns (all: seq<nat>)
    requires CleanName(key) && 1 <= at <= |key| && Trace(key[..at], hs)
    ensures Trace(key, all) && all[|all| - 1] == HashRest(key, at, hs[|hs| - 1])
    decreases |key| - at
  {
    hide HashRound, Folded, Signed;
    if at == |key| {
      assert key[..at] == key;
      all := hs;
    } else {
      var h := HashRound(hs[|hs| - 1], key[at]);
      RoundFolds(hs[|hs| - 1], key[at]);
      all := TraceOn(key, at + 1, hs + [h]);
    }
  }

  /** The bucket of a name is the last of these states modulo 29. */
  lemma {:induction false} HashTraced(key: string) returns (hs: seq<nat>)
    requires CleanName(key)
    ensures Trace(key, hs) && Hash(key) == hs[|hs| - 1] % 29
  {
    var first := [Widened(key[0])];
    assert Trace(key[..1], first);
    hs := TraceOn(key, 1, first);
  }

  lemma {:induction false} PlainRound(h: nat, c: char)
    requires (c as int) < 128 && 32 * h + c as int < 0x1000_0000
    ensures HashRound(h, c) == 32 * h + c as int
  {
  }

  lemma {:induction false} FoldedRound(h: nat, c: char, top: nat, m: nat, y: nat, z: nat, x: nat)
    requires (c as int) < 128 && 0 < top < 16 && m < 0x10_0000 && y < 16 && z < 16 && Xor(y, top, 4) == x
    requires 32 * h + c as int == 0x1000_0000 * top + 256 * m + 16 * y + z
    ensures HashRound(h, c) == 256 * m + 16 * x + z
  {
    hide Xor;
    var low := 256 * m + 16 * y + z;
    DivideBy(32 * h + c as int, 0x1000_0000, top, low);
    DivideBy(low, 256, m, 16 * y + z);
    DivideBy(low, 16, 16 * m + y, z);
    DivideBy(low / 16, 16, m, y);
  }

  lemma {:induction false} XorOnce(a: nat, b: nat, n: nat)
    ensures Xor(a, b, n + 1) == 2 * Xor(a / 2, b / 2, n) + (a + b) % 2
  {
  }

  lemma {:induction false} XorSamples()
    ensures Xor(8, 14, 4) == 6 && Xor(4, 1, 4) == 5
  {
    hide Xor;
    XorNothing(0, 0);
    XorOnce(8, 14, 3);
    XorOnce(4, 7, 2);
    XorOnce(2, 3, 1);
    XorOnce(1, 1, 0);
    XorOnce(4, 1, 3);
    XorOnce(2, 0, 2);
    XorOnce(1, 0, 1);
    XorOnce(0, 0, 0);
  }

  /** A name long enough to fold: its last two rounds lose bits at the top. */
  lemma {:induction false} HashOfMessage()
    ensures Hash("message") == 18
  {
    hide HashRound, Xor;
    var k := "message";
    PlainRound(109, 'e');
    PlainRound(3589, 's');
    PlainRound(114963, 's');
    PlainRound(3678931, 'a');
    XorSamples();
    FoldedRound(117725889, 'g', 14, 35672, 8, 7, 6);
    FoldedRound(9132135, 'e', 1, 92941, 4, 5, 5);
    assert Hash(k) == HashRest(k, 1, 109) % 29;
    assert HashRest(k, 1, 109) == HashRest(k, 2, 3589) == HashRest(k, 3, 114963) == HashRest(k, 4, 3678931);
    assert HashRest(k, 4, 3678931) == HashRest(k, 5, 117725889) == HashRest(k, 6, 9132135) == HashRest(k, 7, 23792981) == 23792981;
  }
}
