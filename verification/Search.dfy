/** tpl_strstr, and the searches of the grammar in its terms. */
module TplSearch {
  import opened TplGrammar

  /** The comparison loop of tpl_strstr, the first characters being equal already. */
  method SameFrom(haystack: string, at: nat, needle: string) returns (same: bool)
    requires at + |needle| <= |haystack| && needle != "" && haystack[at] == needle[0]
    ensures same <==> MatchAt(haystack, at, needle)
  {
    var i := 1;
    while i != |needle| && haystack[at + i] == needle[i]
      invariant 1 <= i <= |needle|
      invariant forall x | 0 <= x < i :: haystack[at + x] == needle[x]
      decreases |needle| - i
    {
      i := i + 1;
    }
    same := i == |needle|;
    if same {
      assert haystack[at..at + |needle|] == needle;
    } else {
      assert haystack[at..at + |needle|][i] == haystack[at + i];
    }
  }

  /** The first place of `needle` in `haystack` at or after `from`; `|haystack|` when there is none. */
  method StrStr(haystack: string, from: nat, needle: string) returns (at: nat)
    requires from <= |haystack| && needle != ""
    ensures at == Find(haystack, from, needle)
  {
    var tooFar := |haystack| - |needle| + 1;
    at := from;
    if tooFar <= from {
      FindIs(haystack, from, needle, |haystack|);
      return |haystack|;
    }
    while at != tooFar
      invariant from <= at <= tooFar
      invariant forall i {:trigger MatchAt(haystack, i, needle)} | from <= i < at :: !MatchAt(haystack, i, needle)
      decreases tooFar - at
    {
      if haystack[at] == needle[0] {
        var same := SameFrom(haystack, at, needle);
        if same {
          FindIs(haystack, from, needle, at);
          return;
        }
      } else {
        assert haystack[at] == haystack[at..at + |needle|][0];
      }
      at := at + 1;
    }
    FindIs(haystack, from, needle, |haystack|);
    at := |haystack|;
  }

  lemma {:induction false} FindIs(s: string, from: nat, pat: string, at: nat)
    requires from <= at <= |s| && pat != "" && (at < |s| ==> MatchAt(s, at, pat))
    requires forall i: nat {:trigger MatchAt(s, i, pat)} | from <= i < at :: !MatchAt(s, i, pat)
    ensures Find(s, from, pat) == at
  {
  }

  lemma {:induction false} LeftMatches(s: string, i: nat)
    ensures MatchAt(s, i, LEFT) <==> LeftAt(s, i)
  {
    if i + 2 <= |s| {
      assert s[i..i + 2] == [s[i], s[i + 1]];
    }
  }

  lemma {:induction false} RightMatches(s: string, i: nat)
    ensures MatchAt(s, i, RIGHT) <==> RightAt(s, i)
  {
    if i + 1 <= |s| {
      assert s[i..i + 1] == [s[i]];
    }
  }

  lemma {:induction false} FindLeft(s: string, from: nat)
    requires from <= |s|
    ensures Find(s, from, LEFT) == NextLeft(s, from)
  {
    hide MatchAt;
    var at := NextLeft(s, from);
    LeftMatches(s, at);
    forall i: nat | from <= i < at
      ensures !MatchAt(s, i, LEFT)
    {
      LeftMatches(s, i);
    }
    FindIs(s, from, LEFT, at);
  }

  lemma {:induction false} FindRight(s: string, from: nat)
    requires from <= |s|
    ensures Find(s, from, RIGHT) == NextRight(s, from)
  {
    hide MatchAt;
    var at := NextRight(s, from);
    RightMatches(s, at);
    forall i: nat | from <= i < at
      ensures !MatchAt(s, i, RIGHT)
    {
      RightMatches(s, i);
    }
    FindIs(s, from, RIGHT, at);
  }
}
