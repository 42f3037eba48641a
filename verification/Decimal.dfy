/** Writing integers into field values and headers. */
module TplDecimal {

  const INT_MIN: int := -0x8000_0000
  const INT_MAX: int := 0x7FFF_FFFF
  const UINT_MAX: int := 0xFFFF_FFFF

  // ----- decimal numerals -----

  function Digit(n: nat): (c: char)
    requires n < 10
    ensures '0' <= c <= '9'
  {
    '0' + n as char
  }

  function Decimal(n: nat): (s: string)
    ensures s != "" && forall c | c in s :: '0' <= c <= '9'
  {
    if n < 10 then [Digit(n)] else Decimal(n / 10) + [Digit(n % 10)]
  }

  function DigitValue(c: char): nat {
    if '0' <= c <= '9' then c as nat - '0' as nat else 0
  }

  /** The number a string of digits denotes. */
  function Value(s: string): nat {
    if s == "" then 0 else Value(s[..|s| - 1]) * 10 + DigitValue(s[|s| - 1])
  }

  /** The text of an int, as the setters for signed values are meant to write it. */
  function IntText(v: int): string {
    if v < 0 then "-" + Decimal(-v) else Decimal(v)
  }

  function IntValue(s: string): int {
    if s != "" && s[0] == '-' then 0 - Value(s[1..]) else Value(s)
  }

  lemma {:induction false} DecimalReadsBack(n: nat)
    ensures Value(Decimal(n)) == n
  {
    if n >= 10 {
      DecimalReadsBack(n / 10);
      var s := Decimal(n);
      assert s[..|s| - 1] == Decimal(n / 10);
    } else {
      assert Decimal(n)[..0] == "";
    }
  }

  /** The numeral is canonical: no leading zero, except in zero itself. */
  lemma {:induction false} NoLeadingZero(n: nat)
    ensures Decimal(n)[0] == '0' <==> n == 0
    ensures n == 0 ==> Decimal(n) == "0"
  {
    if n >= 10 {
      NoLeadingZero(n / 10);
    }
  }

  /** Every int reads back, the least one included. */
  lemma {:induction false} IntReadsBack(v: int)
    ensures IntValue(IntText(v)) == v
  {
    if v < 0 {
      DecimalReadsBack(-v);
      assert IntText(v)[1..] == Decimal(-v);
    } else {
      DecimalReadsBack(v);
      assert Decimal(v)[0] in Decimal(v);
    }
  }

  function Power(k: nat): nat {
    if k == 0 then 1 else 10 * Power(k - 1)
  }

  lemma {:induction false} DecimalSize(n: nat, k: nat)
    requires n < Power(k) && k > 0
    ensures |Decimal(n)| <= k
  {
    if n >= 10 {
      DecimalSize(n / 10, k - 1);
    }
  }

  /** Ten digits are enough for any magnitude an int can have. */
  lemma {:induction false} TenDigits(n: nat)
    requires n <= UINT_MAX
    ensures |Decimal(n)| <= 10
  {
    assert Power(4) == 10000;
    assert Power(8) == 100000000;
    assert Power(10) == 10000000000;
    DecimalSize(n, 10);
  }

  // ----- M_INT_TO_STRING -----

  /** C's remainder by ten: it takes the sign of the dividend. */
  function Rem10(v: int): (r: int)
    ensures -9 <= r <= 9
  {
    if v < 0 then -((-v) % 10) else v % 10
  }

  /** C's quotient by ten: it is rounded toward zero. */
  function Quot10(v: int): int {
    if v < 0 then -((-v) / 10) else v / 10
  }

  function Abs(v: int): (r: nat)
    ensures r == v || r == -v
  {
    if v < 0 then -v else v
  }

  function Reversed(s: string): string {
    if s == "" then "" else [s[|s| - 1]] + Reversed(s[..|s| - 1])
  }

  lemma {:induction false} ReversedAt(s: string, k: nat)
    requires k < |s|
    ensures |Reversed(s)| == |s| && Reversed(s)[k] == s[|s| - 1 - k]
  {
    if k > 0 {
      ReversedAt(s[..|s| - 1], k - 1);
    } else if |s| > 1 {
      ReversedAt(s[..|s| - 1], 0);
    }
  }

  /** What is left to write when `v` is left to divide: its numeral, unless the division has ended. */
  function Rest(v: int, begun: bool): string {
    if begun && v == 0 then "" else Decimal(Abs(v))
  }

  lemma {:induction false} ReversedSnoc(s: string, c: char)
    ensures Reversed(s + [c]) == [c] + Reversed(s)
  {
    assert (s + [c])[..|s|] == s;
  }

  lemma {:induction false} QuotSmaller(v: int)
    ensures Abs(Rem10(v)) == Abs(v) % 10 && Abs(Quot10(v)) == Abs(v) / 10
    ensures Abs(Quot10(v)) <= Abs(v) && (v != 0 ==> Abs(Quot10(v)) < Abs(v))
    ensures INT_MIN <= v <= INT_MAX ==> INT_MIN <= Quot10(v) <= INT_MAX
  {
  }

  lemma {:induction false} LastDigit(v: int)
    ensures Decimal(Abs(v)) == Rest(Quot10(v), true) + [Digit(Abs(Rem10(v)))]
  {
    QuotSmaller(v);
    if Abs(v) < 10 {
      assert "" + [Digit(Abs(v))] == [Digit(Abs(v))];
    }
  }

  /** One digit moves from the number to the reversed text. */
  lemma {:induction false} DigitMoves(v: int, begun: bool, was: string)
    requires !begun || v != 0
    ensures Rest(v, begun) + Reversed(was) == Rest(Quot10(v), true) + Reversed(was + [Digit(Abs(Rem10(v)))])
  {
    hide Decimal, Reversed;
    var c := Digit(Abs(Rem10(v)));
    LastDigit(v);
    ReversedSnoc(was, c);
    assert (Rest(Quot10(v), true) + [c]) + Reversed(was) == Rest(Quot10(v), true) + ([c] + Reversed(was));
  }

  /** The digit loop: least significant digit first, into ten bytes. */
  method ReverseDigits(val: int, rev: array<char>) returns (digits: nat)
    requires INT_MIN <= val <= INT_MAX && rev.Length == 10
    modifies rev
    ensures digits <= 10 && Reversed(rev[..digits]) == Decimal(Abs(val))
  {
    hide Decimal, Reversed, Quot10, Rem10, Rest;
    TenDigits(Abs(val));
    var v := val;
    digits := 0;
    StartsDigits(val);
    assert rev[..digits] == "";
    while digits == 0 || v != 0
      invariant digits <= 10 && Rest(v, digits > 0) + Reversed(rev[..digits]) == Decimal(Abs(val))
      invariant INT_MIN <= v <= INT_MAX
      decreases Abs(v) + if digits == 0 then 1 else 0
    {
      ghost var was := rev[..digits];
      DigitMoves(v, digits > 0, was);
      QuotSmaller(v);
      RoomLeft(v, digits, was, val);
      rev[digits] := Digit(Abs(Rem10(v)));
      v := Quot10(v);
      digits := digits + 1;
      assert rev[..digits] == was + [rev[digits - 1]];
    }
    EndsDigits(rev[..digits]);
  }

  lemma {:induction false} StartsDigits(val: int)
    ensures Rest(val, false) + Reversed("") == Decimal(Abs(val))
  {
  }

  lemma {:induction false} EndsDigits(all: string)
    ensures Rest(0, true) + Reversed(all) == Reversed(all)
  {
  }

  /** While something is left to write, fewer than ten digits are written. */
  lemma {:induction false} RoomLeft(v: int, digits: nat, was: string, val: int)
    requires |was| == digits && (digits == 0 || v != 0) && |Decimal(Abs(val))| <= 10
    requires Rest(v, digits > 0) + Reversed(was) == Decimal(Abs(val))
    ensures digits < 10
  {
    ReversedSize(was);
    assert |Rest(v, digits > 0)| > 0;
  }

  lemma {:induction false} ReversedSize(s: string)
    ensures |Reversed(s)| == |s|
  {
    if s != "" {
      ReversedAt(s, 0);
    }
  }

  /** What the macro writes, if there is room: the sign only when `signed` is asked for. */
  function Written(v: int, signed: bool): string {
    (if signed && v < 0 then "-" else "") + Decimal(Abs(v))
  }

  lemma {:induction false} WrittenSigned(v: int)
    ensures Written(v, true) == IntText(v)
    ensures v >= 0 ==> Written(v, false) == IntText(v)
  {
    assert "" + Decimal(Abs(v)) == Decimal(Abs(v));
  }

  lemma {:induction false} WrittenParts(v: int, signed: bool)
    ensures var w, sign := Written(v, signed), if signed && v < 0 then 1 else 0;
            && |w| == sign + |Decimal(Abs(v))| && w[..sign] == (if sign == 1 then "-" else "")
            && forall i | sign <= i < |w| :: w[i] == Decimal(Abs(v))[i - sign]
  {
  }

  /** M_INT_TO_STRING into the bytes of `buffer` from `at` on: as much as fits into `room` bytes, and a
      terminator. Returns the length, which the macro stores back. */
  method IntToString(buffer: array<char>, at: nat, room: nat, val: int, signed: bool) returns (len: nat)
    requires INT_MIN <= val <= INT_MAX && room > 0 && at + room < buffer.Length
    modifies buffer
    ensures len == (if |Written(val, signed)| <= room then |Written(val, signed)| else room)
    ensures buffer[..at + len] == old(buffer[..at]) + Written(val, signed)[..len] && buffer[at + len] == '\0'
    ensures forall x | at + len < x < buffer.Length :: buffer[x] == old(buffer[x])
  {
    hide Written, Decimal, Reversed;
    var rev := new char[10];
    ghost var w, sign := Written(val, signed), if signed && val < 0 then 1 else 0;
    WrittenParts(val, signed);
    var i := 0;
    if signed && val < 0 {
      buffer[at] := '-';
      i := 1;
    }
    var digits := ReverseDigits(val, rev);
    ghost var all := rev[..digits];
    ReversedSize(all);
    while digits > 0 && i < room
      invariant sign <= i <= room && digits + i == |w| && digits <= |all| && rev[..|all|] == all
      invariant buffer[..at + i] == old(buffer[..at]) + w[..i]
      invariant forall x | at + i <= x < buffer.Length :: buffer[x] == old(buffer[x])
      decreases digits
    {
      digits := digits - 1;
      ReversedAt(all, i - sign);
      assert w[i] == all[digits] == rev[digits];
      buffer[at + i] := rev[digits];
      i := i + 1;
    }
    buffer[at + i] := '\0';
    len := i;
  }

  // ----- the unsigned setter -----

  /** The conversion of an unsigned int to int. */
  function Cast(u: nat): int
    requires u <= UINT_MAX
  {
    if u <= INT_MAX then u else u - UINT_MAX - 1
  }

  /** The setter for unsigned values is right up to 2 to the power 31, and wrong for every greater value. */
  lemma {:induction false} UnsignedWritten(u: nat)
    requires u <= UINT_MAX
    ensures Written(Cast(u), false) == Decimal(u) <==> u <= 0x8000_0000
  {
    assert Written(Cast(u), false) == Decimal(Abs(Cast(u)));
    hide Decimal;
    DecimalReadsBack(u);
    DecimalReadsBack(Abs(Cast(u)));
  }
}
