/** Finding the end of a string without its trailing spaces, a word at a time. */
module Trim {

  type Byte = x: int | 0 <= x < 256

  const SPACE: Byte := 0x20

  /** Where the string ends once its trailing spaces are dropped. */
  function Trimmed(s: seq<Byte>): (r: nat)
    ensures r <= |s| && (r > 0 ==> s[r - 1] != SPACE)
    ensures forall i | r <= i < |s| :: s[i] == SPACE
  {
    if s != [] && s[|s| - 1] == SPACE then Trimmed(s[..|s| - 1]) else |s|
  }

  /** That place is the only one with no space before it and nothing but spaces behind it. */
  lemma {:induction false} TrimmedUnique(s: seq<Byte>, r: nat)
    requires r <= |s| && (r > 0 ==> s[r - 1] != SPACE) && forall i | r <= i < |s| :: s[i] == SPACE
    ensures r == Trimmed(s)
  {
  }

  // ----- words -----

  /** The number a little-endian machine reads from a run of bytes. */
  function Word(bytes: seq<Byte>): nat {
    if bytes == [] then 0 else bytes[0] + 256 * Word(bytes[1..])
  }

  function Spaces(n: nat): (s: seq<Byte>)
    ensures |s| == n && forall i | 0 <= i < n :: s[i] == SPACE
  {
    seq(n, _ => SPACE)
  }

  lemma {:induction false} WordInjective(a: seq<Byte>, b: seq<Byte>)
    requires |a| == |b| && Word(a) == Word(b)
    ensures a == b
  {
    if a != [] {
      var x, y := Word(a[1..]), Word(b[1..]);
      assert a[0] + 256 * x == b[0] + 256 * y;
      assert a[0] == b[0] && x == y;
      WordInjective(a[1..], b[1..]);
      assert a == [a[0]] + a[1..] && b == [b[0]] + b[1..];
    }
  }

  /** SPACE_INT for words of `size` bytes. */
  function SpaceInt(size: nat): nat {
    Word(Spaces(size))
  }

  lemma {:induction false} SpaceIntValues()
    ensures SpaceInt(4) == 0x2020_2020 && SpaceInt(8) == 0x2020_2020_2020_2020
  {
    MoreSpaces(0);
    MoreSpaces(1);
    MoreSpaces(2);
    MoreSpaces(3);
    MoreSpaces(4);
    MoreSpaces(5);
    MoreSpaces(6);
    MoreSpaces(7);
  }

  lemma {:induction false} MoreSpaces(n: nat)
    ensures SpaceInt(0) == 0 && SpaceInt(n + 1) == 0x20 + 256 * SpaceInt(n)
  {
    assert Spaces(n + 1)[1..] == Spaces(n);
  }

  lemma {:induction false} SpaceWord(bytes: seq<Byte>)
    ensures Word(bytes) == SpaceInt(|bytes|) <==> forall i | 0 <= i < |bytes| :: bytes[i] == SPACE
  {
    if Word(bytes) == SpaceInt(|bytes|) {
      WordInjective(bytes, Spaces(|bytes|));
    }
    if forall i | 0 <= i < |bytes| :: bytes[i] == SPACE {
      assert bytes == Spaces(|bytes|);
    }
  }

  // ----- memory: the string's bytes lie at the addresses from `ptr` on -----

  /** The byte in front of an address. */
  function ByteBefore(s: seq<Byte>, ptr: nat, end: nat): Byte
    requires ptr < end <= ptr + |s|
  {
    s[end - 1 - ptr]
  }

  /** The aligned word in front of an address. */
  function WordBefore(s: seq<Byte>, ptr: nat, end: nat, size: nat): nat
    requires size > 0 && end % size == 0 && ptr + size <= end <= ptr + |s|
  {
    Word(s[end - size - ptr..end - ptr])
  }

  /** Everything from `end` on is spaces. */
  predicate Cleared(s: seq<Byte>, ptr: nat, end: nat) {
    ptr <= end <= ptr + |s| && forall i | end - ptr <= i < |s| :: s[i] == SPACE
  }

  /** The plain loop. */
  method SkipBytes(s: seq<Byte>, ptr: nat, from: nat) returns (end: nat)
    requires Cleared(s, ptr, from)
    ensures end == ptr + Trimmed(s)
  {
    end := from;
    while end > ptr && ByteBefore(s, ptr, end) == SPACE
      invariant Cleared(s, ptr, end)
    {
      end := end - 1;
    }
    TrimmedUnique(s, end - ptr);
  }

  /** The sizes of int the header knows. */
  predicate IntSize(size: nat) {
    size == 4 || size == 8
  }

  lemma {:induction false} Aligned(a: nat, size: nat)
    requires IntSize(size)
    ensures (a / size * size) % size == 0 && a / size * size <= a < a / size * size + size
  {
  }

  /** Two aligned addresses are at least a word apart. */
  lemma {:induction false} WordApart(a: nat, b: nat, size: nat)
    requires IntSize(size) && a % size == 0 && b % size == 0 && a < b
    ensures a + size <= b && (b - size) % size == 0
  {
  }

  /** skip_trailing_space, for words of `size` bytes: the position the plain loop finds. Every byte and word it
      reads lies inside the string, and every word is aligned. */
  method SkipTrailingSpace(s: seq<Byte>, ptr: nat, size: nat) returns (end: nat)
    requires IntSize(size) && ptr >= size
    ensures end == ptr + Trimmed(s)
  {
    end := ptr + |s|;
    if |s| > 20 {
      Aligned(end, size);
      Aligned(ptr + size - 1, size);
      var endWords := end / size * size;
      var startWords := (ptr + size - 1) / size * size;
      if endWords > ptr {
        while end > endWords && ByteBefore(s, ptr, end) == SPACE
          invariant endWords <= end && Cleared(s, ptr, end)
        {
          end := end - 1;
        }
        if ByteBefore(s, ptr, end) == SPACE && startWords < endWords {
          end := SkipWords(s, ptr, end, startWords, size);
        }
      }
    }
    end := SkipBytes(s, ptr, end);
  }

  /** The loop over whole words. */
  method SkipWords(s: seq<Byte>, ptr: nat, from: nat, startWords: nat, size: nat) returns (end: nat)
    requires IntSize(size) && ptr <= startWords <= from && startWords % size == 0 && from % size == 0 && Cleared(s, ptr, from)
    ensures Cleared(s, ptr, end)
  {
    end := from;
    while end > startWords && (WordApart(startWords, end, size); WordBefore(s, ptr, end, size) == SpaceInt(size))
      invariant startWords <= end && end % size == 0 && Cleared(s, ptr, end)
    {
      WordApart(startWords, end, size);
      SpaceWord(s[end - size - ptr..end - ptr]);
      WordCleared(s, ptr, end, size);
      end := end - size;
    }
  }

  lemma {:induction false} WordCleared(s: seq<Byte>, ptr: nat, end: nat, size: nat)
    requires ptr + size <= end && Cleared(s, ptr, end)
    requires var w := s[end - size - ptr..end - ptr]; forall i | 0 <= i < |w| :: w[i] == SPACE
    ensures Cleared(s, ptr, end - size)
  {
    var w := s[end - size - ptr..end - ptr];
    forall i | end - size - ptr <= i < |s|
      ensures s[i] == SPACE
    {
      if i < end - ptr {
        assert s[i] == w[i - (end - size - ptr)];
      }
    }
  }
}
