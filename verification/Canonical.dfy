/** Which pieces come back when they are written out and read again. */
module TplCanonical {
  import opened TplNames
  import opened TplGrammar

  ghost predicate Lacks(s: string, pat: string) {
    forall i: nat {:trigger MatchAt(s, i, pat)} :: !MatchAt(s, i, pat)
  }

  ghost predicate LacksLeft(s: string) {
    forall i: nat {:trigger LeftAt(s, i)} :: !LeftAt(s, i)
  }

  predicate EndsOpening(text: string) {
    |text| >= 5 && OpeningAt(text, |text| - 5)
  }

  /** A text may stand before `rest`: it is one whole run of text, it holds no field delimiter, also not
      together with what follows, and it does not make a field behind it look like a section tag. */
  ghost predicate TextFits(text: string, rest: seq<Piece>) {
    && text != "" && LacksLeft(text)
    && (rest != [] ==> match rest[0]
                       case Text(_) => false
                       case Section(_, _) => text[|text| - 1] != '$'
                       case Field(_) =>
                         !(EndsOpening(text) && |rest| > 1 && rest[1].Text? && ClosingAt(rest[1].text, 0)))
  }

  /** Pieces in canonical form, behind sections with the given names. */
  ghost predicate Canonical(ps: seq<Piece>, names: seq<Key>) {
    ps == [] ||
    match ps[0]
    case Text(text) => TextFits(text, ps[1..]) && Canonical(ps[1..], names)
    case Field(name) => '>' !in name && Canonical(ps[1..], names)
    case Section(name, body) =>
      && '>' !in name && Fresh(names, name)
      && Canonical(body, []) && Lacks(Unparse(body), SectionTag(name))
      && Canonical(ps[1..], names + [KeyOf(name)])
  }

  // ----- what lies where -----

  lemma {:induction false} Parts(s: string, i: nat, a: string, b: string)
    requires MatchAt(s, i, a + b)
    ensures MatchAt(s, i, a) && MatchAt(s, i + |a|, b)
  {
    var t := s[i..i + |a + b|];
    assert t[..|a|] == a && t[|a|..] == b;
    assert s[i..i + |a|] == t[..|a|] && s[i + |a|..i + |a| + |b|] == t[|a|..];
  }

  lemma {:induction false} MatchWithin(s: string, begin: nat, end: nat, i: nat, pat: string)
    requires begin <= i && i + |pat| <= end <= |s|
    ensures MatchAt(s[begin..end], i - begin, pat) <==> MatchAt(s, i, pat)
  {
    var t, n := s[begin..end], |pat|;
    var u, v := t[i - begin..i - begin + n], s[i..i + n];
    forall x | 0 <= x < n
      ensures u[x] == v[x]
    {
      assert t[i - begin + x] == s[i + x];
    }
    assert u == v;
  }

  lemma {:induction false} FieldTagAt(s: string, at: nat, name: string)
    requires MatchAt(s, at, FieldTag(name))
    ensures LeftAt(s, at) && RightAt(s, at + 2 + |name|) && MatchAt(s, at + 2, name)
  {
    Parts(s, at, LEFT + name, RIGHT);
    Parts(s, at, LEFT, name);
    MatchChar(s, at, LEFT, 0);
    MatchChar(s, at, LEFT, 1);
    MatchChar(s, at + 2 + |name|, RIGHT, 0);
  }

  lemma {:induction false} HeadAt(s: string, head: nat)
    requires MatchAt(s, head, HEAD)
    ensures OpeningAt(s, head) && LeftAt(s, head + 5)
  {
    MatchChar(s, head, HEAD, 0);
    MatchChar(s, head, HEAD, 1);
    MatchChar(s, head, HEAD, 2);
    MatchChar(s, head, HEAD, 3);
    MatchChar(s, head, HEAD, 4);
    MatchChar(s, head, HEAD, 5);
    MatchChar(s, head, HEAD, 6);
  }

  lemma {:induction false} TailAt(s: string, tail: nat)
    requires MatchAt(s, tail, TAIL)
    ensures RightAt(s, tail) && ClosingAt(s, tail + 1)
  {
    MatchChar(s, tail, TAIL, 0);
    MatchChar(s, tail, TAIL, 1);
    MatchChar(s, tail, TAIL, 2);
    MatchChar(s, tail, TAIL, 3);
    MatchChar(s, tail, TAIL, 4);
  }

  lemma {:induction false} SectionTagAt(s: string, head: nat, name: string)
    requires MatchAt(s, head, SectionTag(name))
    ensures TagAt(s, head, head + 7 + |name|) && MatchAt(s, head + 7, name)
    ensures s[head..head + 12 + |name|] == SectionTag(name)
  {
    Parts(s, head, HEAD + name, TAIL);
    Parts(s, head, HEAD, name);
    HeadAt(s, head);
    TailAt(s, head + 7 + |name|);
  }

  // ----- finding what was written -----

  lemma {:induction false} NextLeftIs(s: string, from: nat, at: nat)
    requires from <= at <= |s| && (at < |s| ==> LeftAt(s, at))
    requires forall i {:trigger LeftAt(s, i)} | from <= i < at :: !LeftAt(s, i)
    ensures NextLeft(s, from) == at
  {
  }

  lemma {:induction false} NextRightIs(s: string, from: nat, name: string)
    requires MatchAt(s, from, name) && '>' !in name && RightAt(s, from + |name|)
    ensures NextRight(s, from) == from + |name|
  {
    var r := NextRight(s, from);
    if r < from + |name| {
      MatchChar(s, from, name, r - from);
    }
  }

  /** Inside a text, and between it and what follows, there is no left delimiter. */
  lemma {:induction false} NoLeftIn(s: string, last: nat, t: string, i: nat)
    requires MatchAt(s, last, t) && LacksLeft(t) && last <= i < last + |t|
    requires t[|t| - 1] == '$' ==> last + |t| == |s| || s[last + |t|] != '<'
    ensures !LeftAt(s, i)
  {
    MatchChar(s, last, t, i - last);
    if i + 1 < last + |t| {
      MatchChar(s, last, t, i + 1 - last);
      assert !LeftAt(t, i - last);
    }
  }

  lemma {:induction false} TagRights(name: string, x: nat)
    requires '>' !in name && x < |SectionTag(name)|
    ensures SectionTag(name)[x] == '>' <==> x == |SectionTag(name)| - 5 || x == |SectionTag(name)| - 1
  {
    var tag := SectionTag(name);
    if x < 7 {
      assert tag[x] == HEAD[x];
    } else if x < 7 + |name| {
      assert tag[x] == name[x - 7];
    } else {
      assert tag[x] == TAIL[x - 7 - |name|];
    }
  }

  /** A section tag cannot overlap itself, so the first tag behind a body without one is the closing tag. */
  lemma {:induction false} TagApart(s: string, i: nat, end: nat, name: string)
    requires '>' !in name && i < end < i + |SectionTag(name)|
    requires MatchAt(s, i, SectionTag(name))
    ensures !MatchAt(s, end, SectionTag(name))
  {
    hide SectionTag;
    var tag := SectionTag(name);
    TagSize(name);
    var m := |tag|;
    if MatchAt(s, end, tag) {
      var x := i + m - 1 - end;
      MatchChar(s, i, tag, m - 1);
      MatchChar(s, end, tag, x);
      TagRights(name, m - 1);
      TagRights(name, x);
      MatchChar(s, i, tag, m - 5);
      MatchChar(s, end, tag, m - 9);
      TagRights(name, m - 5);
      TagRights(name, m - 9);
    }
  }

  lemma {:induction false} TagSize(name: string)
    ensures |SectionTag(name)| == 12 + |name|
  {
  }

  lemma {:induction false} FindTag(s: string, begin: nat, end: nat, name: string)
    requires '>' !in name && begin <= end && MatchAt(s, end, SectionTag(name)) && Lacks(s[begin..end], SectionTag(name))
    ensures Find(s, begin, SectionTag(name)) == end < |s|
  {
    hide SectionTag;
    var tag := SectionTag(name);
    TagSize(name);
    var r := Find(s, begin, tag);
    if r < end {
      if r + |tag| <= end {
        MatchWithin(s, begin, end, r, tag);
      } else {
        TagApart(s, r, end, name);
      }
    }
  }

  // ----- reading back -----

  lemma {:induction false} Cut(s: string, last: nat, a: string, b: string)
    requires last <= |s| && s[last..] == a + b
    ensures MatchAt(s, last, a) && s[last + |a|..] == b
  {
    var t := s[last..];
    assert t[..|a|] == a && t[|a|..] == b;
    assert s[last..last + |a|] == t[..|a|] && s[last + |a|..] == t[|a|..];
  }

  lemma {:induction false} ReadsText(s: string, last: nat, names: seq<Key>, t: string)
    requires Behind(s, last) && s[last..] == t && LacksLeft(t)
    ensures Parse(s, last, names) == Parsed(true, TextPieces(t))
  {
    hide Parse;
    forall i: nat | last <= i < |s|
      ensures !LeftAt(s, i)
    {
      NoLeftIn(s, last, t, i);
    }
    NextLeftIs(s, last, |s|);
    TextStep(s, last, names);
  }

  /** Where a section tag is seen behind a text, the text ends and what follows begins as one does. */
  lemma {:induction false} TagSeen(s: string, last: nat, at: nat, next: nat, t: string, u: string)
    requires Behind(s, last) && at == last + |t| && at + 2 <= next < |s|
    requires MatchAt(s, last, t) && s[next + 1..] == u
    requires InSectionTag(s, at, next)
    ensures EndsOpening(t) && ClosingAt(u, 0)
  {
    HeadIsAhead(s, last, at - 5);
    var a, b, c, d, e := |t| - 5, |t| - 4, |t| - 3, |t| - 2, |t| - 1;
    MatchChar(s, last, t, a);
    MatchChar(s, last, t, b);
    MatchChar(s, last, t, c);
    MatchChar(s, last, t, d);
    MatchChar(s, last, t, e);
  }

  lemma {:induction false} ReadsField(s: string, last: nat, at: nat, next: nat, names: seq<Key>, t: string, name: string, rest: seq<Piece>)
    requires Behind(s, last) && MatchAt(s, last, t) && at == last + |t| && next == at + 2 + |name|
    requires MatchAt(s, at, FieldTag(name)) && s[next + 1..] == Unparse(rest)
    requires LacksLeft(t) && '>' !in name && !(EndsOpening(t) && ClosingAt(Unparse(rest), 0))
    requires Behind(s, next + 1) && Parse(s, next + 1, names) == Parsed(true, rest)
    ensures Parse(s, last, names) == Parsed(true, TextPieces(t) + [Field(name)] + rest)
  {
    hide Parse, Unparse, FieldTag;
    FieldTagAt(s, at, name);
    forall i: nat | last <= i < at
      ensures !LeftAt(s, i)
    {
      NoLeftIn(s, last, t, i);
    }
    NextLeftIs(s, last, at);
    NextRightIs(s, at + 2, name);
    if InSectionTag(s, at, next) {
      TagSeen(s, last, at, next, t, Unparse(rest));
    }
    FieldStep(s, last, at, next, names);
  }

  lemma {:induction false} ReadsTag(s: string, last: nat, head: nat, names: seq<Key>, t: string, name: string)
    requires Behind(s, last) && MatchAt(s, last, t) && head == last + |t| && MatchAt(s, head, SectionTag(name))
    requires LacksLeft(t) && (t != "" ==> t[|t| - 1] != '$') && '>' !in name
    ensures TagAt(s, head, head + 7 + |name|)
    ensures Parse(s, last, names) == ParseSection(s, last, head, head + 7 + |name|, names)
  {
    hide Parse, ParseSection, SectionTag;
    SectionTagAt(s, head, name);
    forall i: nat | last <= i < head + 5
      ensures !LeftAt(s, i)
    {
      if i < head {
        NoLeftIn(s, last, t, i);
      }
    }
    NextLeftIs(s, last, head + 5);
    NextRightIs(s, head + 7, name);
    TagStep(s, last, head, head + 7 + |name|, names);
  }

  lemma {:induction false} ReadsSection(s: string, last: nat, head: nat, end: nat, stop: nat, names: seq<Key>,
                     t: string, name: string, body: seq<Piece>, rest: seq<Piece>)
    requires Behind(s, last) && MatchAt(s, last, t) && head == last + |t| && MatchAt(s, head, SectionTag(name))
    requires LacksLeft(t) && (t != "" ==> t[|t| - 1] != '$') && '>' !in name
    requires FirstMatch(names, KeyOf(name)) == |names| && Lacks(Unparse(body), SectionTag(name))
    requires end == head + 12 + |name| + |Unparse(body)| && MatchAt(s, head + 12 + |name|, Unparse(body))
    requires MatchAt(s, end, SectionTag(name)) && stop == end + 12 + |name|
    requires Parse(Unparse(body), 0, []) == Parsed(true, body)
    requires Behind(s, stop) && Parse(s, stop, names + [KeyOf(name)]) == Parsed(true, rest)
    ensures Parse(s, last, names) == Parsed(true, TextPieces(t) + [Section(name, body)] + rest)
  {
    hide Parse, ParseSection, SectionTag, Unparse, MatchAt, TagAt, LacksLeft, Lacks, NextLeft, FirstMatch, KeyOf, TextPieces;
    var tail := head + 7 + |name|;
    ReadsTag(s, last, head, names, t, name);
    SectionTagAt(s, head, name);
    TagSize(name);
    Matched(s, last, t);
    Matched(s, head, SectionTag(name));
    Matched(s, head + 7, name);
    Matched(s, tail + 5, Unparse(body));
    FindTag(s, tail + 5, end, name);
    SectionStep(s, last, head, tail, end, names);
  }

  lemma {:induction false} Matched(s: string, at: nat, t: string)
    requires MatchAt(s, at, t)
    ensures at + |t| <= |s| && s[at..at + |t|] == t
  {
  }

  /** A canonical rest that begins like the tail of a section tag begins with a text that does. */
  lemma {:induction false} StartsClosing(rest: seq<Piece>, names: seq<Key>)
    requires Canonical(rest, names) && ClosingAt(Unparse(rest), 0)
    ensures rest != [] && rest[0].Text? && ClosingAt(rest[0].text, 0)
  {
    if rest != [] && !rest[0].Text? {
      FirstChar(rest);
    } else if |rest| > 1 && |rest[0].text| < 4 {
      FirstChar(rest[1..]);
    }
  }

  lemma {:induction false} FirstChar(ps: seq<Piece>)
    requires ps != [] && !ps[0].Text?
    ensures Unparse(ps) != "" && Unparse(ps)[0] == if ps[0].Field? then '$' else '<'
  {
  }

  /** Canonical pieces come back. */
  lemma {:induction false} ReadsBack(s: string, last: nat, names: seq<Key>, ps: seq<Piece>)
    requires Behind(s, last) && s[last..] == Unparse(ps) && Canonical(ps, names)
    ensures Parse(s, last, names) == Parsed(true, ps)
    decreases ps, 2
  {
    if ps == [] {
      ReadsText(s, last, names, "");
    } else if ps[0].Text? {
      if |ps| == 1 {
        ReadsText(s, last, names, ps[0].text);
      } else {
        ReadsTwo(s, last, names, ps[0].text, ps[1..]);
      }
    } else {
      ReadsTwo(s, last, names, "", ps);
    }
  }

  /** The same for a tag, with the text before it if there is one. */
  lemma {:induction false} ReadsTwo(s: string, last: nat, names: seq<Key>, t: string, ps: seq<Piece>)
    requires ps != [] && !ps[0].Text? && Canonical(ps, names)
    requires Behind(s, last) && s[last..] == t + Unparse(ps) && (t != "" ==> TextFits(t, ps))
    ensures Parse(s, last, names) == Parsed(true, TextPieces(t) + ps)
    decreases ps, 1
  {
    hide Parse, TextFits;
    Cut(s, last, t, Unparse(ps));
    FirstThenRest(t, ps);
    NoLeftBefore(t, ps);
    if ps[0].Field? {
      ReadsFieldFirst(s, last, names, t, ps);
    } else {
      ReadsSectionFirst(s, last, names, t, ps);
    }
  }

  lemma {:induction false} FirstThenRest(t: string, ps: seq<Piece>)
    requires ps != []
    ensures TextPieces(t) + [ps[0]] + ps[1..] == TextPieces(t) + ps
  {
  }

  lemma {:induction false} NoLeftBefore(t: string, ps: seq<Piece>)
    requires t != "" ==> TextFits(t, ps)
    ensures LacksLeft(t)
  {
  }

  lemma {:induction false} ReadsFieldFirst(s: string, last: nat, names: seq<Key>, t: string, ps: seq<Piece>)
    requires ps != [] && ps[0].Field? && Canonical(ps, names) && LacksLeft(t) && (t != "" ==> TextFits(t, ps))
    requires Behind(s, last) && MatchAt(s, last, t) && s[last + |t|..] == Unparse(ps)
    ensures Parse(s, last, names) == Parsed(true, TextPieces(t) + [ps[0]] + ps[1..])
    decreases ps, 0
  {
    hide Parse, ParseSection, SectionTag;
    var name, rest, at := ps[0].name, ps[1..], last + |t|;
    var next := at + 2 + |name|;
    Cut(s, at, FieldTag(name), Unparse(rest));
    FieldTagAt(s, at, name);
    if EndsOpening(t) && ClosingAt(Unparse(rest), 0) {
      StartsClosing(rest, names);
    }
    ReadsBack(s, next + 1, names, rest);
    ReadsField(s, last, at, next, names, t, name, rest);
  }

  lemma {:induction false} ReadsSectionFirst(s: string, last: nat, names: seq<Key>, t: string, ps: seq<Piece>)
    requires ps != [] && ps[0].Section? && Canonical(ps, names) && LacksLeft(t) && (t != "" ==> TextFits(t, ps))
    requires Behind(s, last) && MatchAt(s, last, t) && s[last + |t|..] == Unparse(ps)
    ensures Parse(s, last, names) == Parsed(true, TextPieces(t) + [ps[0]] + ps[1..])
    decreases ps, 0
  {
    hide Parse, SectionTag;
    var name, body, rest, head := ps[0].name, ps[0].body, ps[1..], last + |t|;
    var begin := head + 12 + |name|;
    var end := begin + |Unparse(body)|;
    var stop := end + 12 + |name|;
    TagSize(name);
    assert ps[0] == Section(name, body);
    SectionParts(s, head, name, body, rest);
    BehindTag(s, end, name);
    assert Unparse(body)[0..] == Unparse(body);
    ReadsBack(Unparse(body), 0, [], body);
    ReadsBack(s, stop, names + [KeyOf(name)], rest);
    ReadsSection(s, last, head, end, stop, names, t, name, body, rest);
  }

  lemma {:induction false} SectionParts(s: string, head: nat, name: string, body: seq<Piece>, rest: seq<Piece>)
    requires head <= |s| && s[head..] == SectionTag(name) + Unparse(body) + SectionTag(name) + Unparse(rest)
    ensures MatchAt(s, head, SectionTag(name)) && MatchAt(s, head + 12 + |name|, Unparse(body))
    ensures MatchAt(s, head + 12 + |name| + |Unparse(body)|, SectionTag(name))
    ensures s[head + 24 + 2 * |name| + |Unparse(body)|..] == Unparse(rest)
  {
    hide SectionTag, Unparse;
    TagSize(name);
    var tag, b := SectionTag(name), Unparse(body);
    Cut(s, head, tag + b + tag, Unparse(rest));
    Parts(s, head, tag + b, tag);
    Parts(s, head, tag, b);
  }

  lemma {:induction false} BehindTag(s: string, end: nat, name: string)
    requires MatchAt(s, end, SectionTag(name))
    ensures Behind(s, end + 12 + |name|)
  {
    SectionTagAt(s, end, name);
  }

  // ----- what is read is canonical -----

  ghost predicate ReadCanonical(r: Parsed, names: seq<Key>) {
    r.ok ==> Canonical(r.pieces, names)
  }

  lemma {:induction false} TextLacksLeft(s: string, last: nat, end: nat)
    requires last <= end <= |s| && end <= NextLeft(s, last)
    ensures LacksLeft(s[last..end])
  {
    var t := s[last..end];
    forall i: nat
      ensures !LeftAt(t, i)
    {
      if i + 2 <= |t| {
        assert t[i] == s[last + i] && t[i + 1] == s[last + i + 1] && !LeftAt(s, last + i);
      }
    }
  }

  lemma {:induction false} NameLacksRight(s: string, from: nat, next: nat)
    requires from <= next <= |s| && next <= NextRight(s, from)
    ensures '>' !in s[from..next]
  {
    forall x | x in s[from..next]
      ensures x != '>'
    {
      var i :| 0 <= i < next - from && s[from..next][i] == x;
      assert s[from + i] == x && !RightAt(s, from + i);
    }
  }

  lemma {:induction false} TextThen(t: string, p: Piece, rest: seq<Piece>, names: seq<Key>)
    requires Canonical([p] + rest, names) && (t != "" ==> TextFits(t, [p] + rest))
    ensures Canonical(TextPieces(t) + [p] + rest, names)
  {
    hide TextFits;
    if t == "" {
      assert TextPieces(t) + [p] + rest == [p] + rest;
    } else {
      assert TextPieces(t) + [p] + rest == [Text(t)] + ([p] + rest);
      assert ([Text(t)] + ([p] + rest))[1..] == [p] + rest;
    }
  }

  /** A text before a field that is not part of a section tag fits. */
  lemma {:induction false} FitsField(s: string, last: nat, at: nat, next: nat, name: string, rest: seq<Piece>)
    requires last < at < |s| && at + 2 <= next < |s| && LeftAt(s, at) && RightAt(s, next) && at <= NextLeft(s, last)
    requires Unparse(rest) == s[next + 1..] && !InSectionTag(s, at, next)
    ensures TextFits(s[last..at], [Field(name)] + rest)
  {
    hide NextLeft, NextRight;
    var t := s[last..at];
    TextLacksLeft(s, last, at);
    if EndsOpening(t) && rest != [] && rest[0].Text? && ClosingAt(rest[0].text, 0) {
      ClosingFirst(rest);
      TailThere(s, next, Unparse(rest));
      HeadThere(s, last, at);
    }
  }

  lemma {:induction false} ClosingFirst(rest: seq<Piece>)
    requires rest != [] && rest[0].Text? && ClosingAt(rest[0].text, 0)
    ensures ClosingAt(Unparse(rest), 0)
  {
  }

  lemma {:induction false} TailThere(s: string, next: nat, u: string)
    requires next < |s| && u == s[next + 1..] && ClosingAt(u, 0)
    ensures ClosingAt(s, next + 1)
  {
    assert u[0] == s[next + 1] && u[1] == s[next + 2] && u[2] == s[next + 3] && u[3] == s[next + 4];
  }

  lemma {:induction false} HeadThere(s: string, last: nat, at: nat)
    requires last <= at <= |s| && EndsOpening(s[last..at])
    ensures at >= 5 && OpeningAt(s, at - 5)
  {
    var t := s[last..at];
    var a := |t| - 5;
    assert t[a] == s[last + a] && t[a + 1] == s[last + a + 1] && t[a + 2] == s[last + a + 2];
    assert t[a + 3] == s[last + a + 3] && t[a + 4] == s[last + a + 4];
  }

  /** So does one before a section. */
  lemma {:induction false} FitsSection(s: string, last: nat, head: nat, name: string, body: seq<Piece>, rest: seq<Piece>)
    requires last < head < |s| && s[head] == '<' && head <= NextLeft(s, last)
    ensures TextFits(s[last..head], [Section(name, body)] + rest)
  {
    TextLacksLeft(s, last, head);
    assert !LeftAt(s, head - 1);
  }

  lemma {:induction false} FieldFirst(name: string, rest: seq<Piece>, names: seq<Key>)
    requires '>' !in name && Canonical(rest, names)
    ensures Canonical([Field(name)] + rest, names)
  {
    assert ([Field(name)] + rest)[1..] == rest;
  }

  lemma {:induction false} SectionFirst(name: string, body: seq<Piece>, rest: seq<Piece>, names: seq<Key>)
    requires '>' !in name && FirstMatch(names, KeyOf(name)) == |names|
    requires Canonical(body, []) && Lacks(Unparse(body), SectionTag(name))
    requires Canonical(rest, names + [KeyOf(name)])
    ensures Canonical([Section(name, body)] + rest, names)
  {
    hide SectionTag, FirstMatch, Fresh;
    FreshMeans(names, name);
    assert ([Section(name, body)] + rest)[1..] == rest;
  }

  lemma {:induction false} BodyLacksTag(s: string, begin: nat, tag: string)
    requires begin <= |s| && tag != "" && Find(s, begin, tag) < |s|
    ensures Lacks(s[begin..Find(s, begin, tag)], tag)
  {
    var end := Find(s, begin, tag);
    forall i: nat
      ensures !MatchAt(s[begin..end], i, tag)
    {
      if MatchAt(s[begin..end], i, tag) {
        MatchWithin(s, begin, end, begin + i, tag);
      }
    }
  }

  lemma {:induction false} CanonicalField(s: string, last: nat, at: nat, next: nat, names: seq<Key>, rest: Parsed)
    requires last <= at < |s| && NextLeft(s, last) == at && NextRight(s, at + 2) == next < |s| && !InSectionTag(s, at, next)
    requires ReadCanonical(rest, names) && Writes(rest, s[next + 1..])
    ensures ReadCanonical(After(TextPieces(s[last..at]) + [Field(s[at + 2..next])], rest), names)
  {
    hide Canonical, NextLeft, NextRight, TextFits, InSectionTag, Unparse;
    if rest.ok {
      var name := s[at + 2..next];
      NameLacksRight(s, at + 2, next);
      FieldFirst(name, rest.pieces, names);
      if last < at {
        FitsField(s, last, at, next, name, rest.pieces);
      }
      TextThen(s[last..at], Field(name), rest.pieces, names);
    }
  }

  lemma {:induction false} CanonicalSection(s: string, last: nat, head: nat, tail: nat, names: seq<Key>, body: seq<Piece>, rest: Parsed)
    requires last <= head && TagAt(s, head, tail) && NextLeft(s, last) == head + 5 && NextRight(s, head + 7) == tail
    requires FirstMatch(names, KeyOf(s[head + 7..tail])) == |names|
    requires Find(s, tail + 5, s[head..tail + 5]) < |s|
    requires Canonical(body, []) && Unparse(body) == s[tail + 5..Find(s, tail + 5, s[head..tail + 5])]
    requires ReadCanonical(rest, names + [KeyOf(s[head + 7..tail])])
    ensures ReadCanonical(After(TextPieces(s[last..head]) + [Section(s[head + 7..tail], body)], rest), names)
  {
    hide Canonical, NextLeft, NextRight, TextFits, Unparse, Find;
    if rest.ok {
      var name := s[head + 7..tail];
      NameLacksRight(s, head + 7, tail);
      TagWhole(s, head, tail);
      BodyLacksTag(s, tail + 5, SectionTag(name));
      SectionFirst(name, body, rest.pieces, names);
      if last < head {
        FitsSection(s, last, head, name, body, rest.pieces);
      }
      TextThen(s[last..head], Section(name, body), rest.pieces, names);
    }
  }

  /** What is read from an accepted text is canonical. */
  lemma {:induction false} Accepted(s: string, last: nat, names: seq<Key>)
    requires Behind(s, last)
    ensures ReadCanonical(Parse(s, last, names), names)
    decreases |s|, |s| - last, 1
  {
    hide Parse, ParseSection, Unparse, Canonical;
    var at := NextLeft(s, last);
    if at == |s| {
      TextStep(s, last, names);
      LastText(s, last, names);
    } else {
      var next := NextRight(s, at + 2);
      if next == |s| {
        OpenStep(s, last, at, names);
      } else if InSectionTag(s, at, next) {
        TagStep(s, last, at - 5, next, names);
        AcceptedSection(s, last, at - 5, next, names);
      } else {
        FieldStep(s, last, at, next, names);
        Accepted(s, next + 1, names);
        Lossless(s, next + 1, names);
        CanonicalField(s, last, at, next, names, Parse(s, next + 1, names));
      }
    }
  }

  lemma {:induction false} LastText(s: string, last: nat, names: seq<Key>)
    requires last <= |s| && NextLeft(s, last) == |s|
    ensures Canonical(TextPieces(s[last..]), names)
  {
    TextLacksLeft(s, last, |s|);
    assert s[last..|s|] == s[last..];
  }

  lemma {:induction false} AcceptedSection(s: string, last: nat, head: nat, tail: nat, names: seq<Key>)
    requires Behind(s, last) && last <= head && TagAt(s, head, tail)
    requires NextLeft(s, last) == head + 5 && NextRight(s, head + 7) == tail
    ensures ReadCanonical(ParseSection(s, last, head, tail, names), names)
    decreases |s|, |s| - last, 0
  {
    hide Parse, ParseSection, Unparse, UnparsePiece, Canonical, NextLeft, NextRight;
    var name, end := s[head + 7..tail], Find(s, tail + 5, s[head..tail + 5]);
    if FirstMatch(names, KeyOf(name)) < |names| || end == |s| || !Parse(s[tail + 5..end], 0, []).ok {
      SectionFails(s, last, head, tail, end, names);
    } else {
      var stop, body := end + (tail + 5 - head), s[tail + 5..end];
      SectionStep(s, last, head, tail, end, names);
      Lossless(body, 0, []);
      WholeText(body);
      Accepted(body, 0, []);
      Accepted(s, stop, names + [KeyOf(name)]);
      CanonicalSection(s, last, head, tail, names, Parse(body, 0, []).pieces, Parse(s, stop, names + [KeyOf(name)]));
    }
  }

  /** The pieces that come back when written out and read again are exactly the canonical ones. */
  lemma {:induction false} RoundTrip(ps: seq<Piece>)
    ensures Parse(Unparse(ps), 0, []) == Parsed(true, ps) <==> Canonical(ps, [])
  {
    hide Parse, Unparse, Canonical;
    var s := Unparse(ps);
    WholeText(s);
    if Canonical(ps, []) {
      ReadsBack(s, 0, [], ps);
    }
    Accepted(s, 0, []);
  }
}
