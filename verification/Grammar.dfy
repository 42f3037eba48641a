/** The text form of a template: what a text is parsed into, and how the pieces are written back. */
module TplGrammar {
  import opened TplNames
  import D = TplDocument

  /** A piece of template text, with names as written. */
  datatype Piece = Text(text: string) | Field(name: string) | Section(name: string, body: seq<Piece>)

  /** The pieces read up to the end of the text or, when `ok` is false, up to a syntax error. A section
      whose body is in error is kept, empty. */
  datatype Parsed = Parsed(ok: bool, pieces: seq<Piece>)

  function After(pre: seq<Piece>, r: Parsed): Parsed {
    Parsed(r.ok, pre + r.pieces)
  }

  // ----- delimiters -----

  const LEFT: string := "$<"
  const RIGHT: string := ">"
  const HEAD: string := "<!-- $<"
  const TAIL: string := "> -->"

  predicate LeftAt(s: string, i: nat) {
    i + 2 <= |s| && s[i] == '$' && s[i + 1] == '<'
  }

  predicate RightAt(s: string, i: nat) {
    i < |s| && s[i] == '>'
  }

  /** The five characters that turn a left delimiter behind them into a section head. */
  predicate OpeningAt(s: string, i: nat) {
    i + 5 <= |s| && s[i] == '<' && s[i + 1] == '!' && s[i + 2] == '-' && s[i + 3] == '-' && s[i + 4] == ' '
  }

  /** The four characters that turn a right delimiter before them into a section tail. */
  predicate ClosingAt(s: string, i: nat) {
    i + 4 <= |s| && s[i] == ' ' && s[i + 1] == '-' && s[i + 2] == '-' && s[i + 3] == '>'
  }

  /** A section tag whose head is at `head` and whose tail is at `tail`. */
  predicate TagAt(s: string, head: nat, tail: nat) {
    head + 7 <= tail && OpeningAt(s, head) && LeftAt(s, head + 5) && RightAt(s, tail) && ClosingAt(s, tail + 1)
  }

  predicate MatchAt(s: string, i: nat, pat: string) {
    i + |pat| <= |s| && s[i..i + |pat|] == pat
  }

  lemma {:induction false} MatchChar(s: string, i: nat, pat: string, x: nat)
    requires MatchAt(s, i, pat) && x < |pat|
    ensures s[i + x] == pat[x]
  {
    assert s[i + x] == s[i..i + |pat|][x];
  }

  // ----- searching: the first place at or after `from`, or `|s|` -----

  function NextLeft(s: string, from: nat): (r: nat)
    requires from <= |s|
    ensures from <= r <= |s| && (r < |s| ==> LeftAt(s, r))
    ensures forall i {:trigger LeftAt(s, i)} | from <= i < r :: !LeftAt(s, i)
    decreases |s| - from
  {
    if from == |s| || LeftAt(s, from) then from else NextLeft(s, from + 1)
  }

  function NextRight(s: string, from: nat): (r: nat)
    requires from <= |s|
    ensures from <= r <= |s| && (r < |s| ==> RightAt(s, r))
    ensures forall i {:trigger RightAt(s, i)} | from <= i < r :: !RightAt(s, i)
    decreases |s| - from
  {
    if from == |s| || RightAt(s, from) then from else NextRight(s, from + 1)
  }

  function Find(s: string, from: nat, pat: string): (r: nat)
    requires from <= |s| && pat != ""
    ensures from <= r <= |s| && (r < |s| ==> MatchAt(s, r, pat))
    ensures forall i {:trigger MatchAt(s, i, pat)} | from <= i < r :: !MatchAt(s, i, pat)
    decreases |s| - from
  {
    if from == |s| || MatchAt(s, from, pat) then from else Find(s, from + 1, pat)
  }

  // ----- parsing -----

  /** Reading stands at the start of the text or behind a tag. */
  predicate Behind(s: string, last: nat) {
    last <= |s| && (last > 0 ==> s[last - 1] == '>')
  }

  /** The delimiters at `at` and `next` are those of a section tag. */
  predicate InSectionTag(s: string, at: nat, next: nat) {
    at >= 5 && TagAt(s, at - 5, next)
  }

  /** A section head never reaches back into a tag that was already read. */
  lemma {:induction false} HeadIsAhead(s: string, last: nat, head: nat)
    requires Behind(s, last) && last <= head + 5 && OpeningAt(s, head)
    ensures last <= head
  {
  }

  /** A tag ends in '>', so reading goes on behind one. */
  lemma {:induction false} TagEnds(s: string, head: nat, tail: nat, end: nat)
    requires TagAt(s, head, tail) && MatchAt(s, end, s[head..tail + 5])
    ensures Behind(s, end + (tail + 5 - head))
  {
    MatchChar(s, end, s[head..tail + 5], tail + 4 - head);
  }

  function TextPieces(text: string): seq<Piece> {
    if text == "" then [] else [Text(text)]
  }

  /** Reads `s` from `last` on, where the sections `names` were already seen at this level. */
  function Parse(s: string, last: nat, names: seq<Key>): Parsed
    requires Behind(s, last)
    decreases |s|, |s| - last, 1
  {
    var at := NextLeft(s, last);
    if at == |s| then Parsed(true, TextPieces(s[last..]))
    else
      var next := NextRight(s, at + 2);
      if next == |s| then Parsed(false, [])
      else if InSectionTag(s, at, next) then
        HeadIsAhead(s, last, at - 5);
        ParseSection(s, last, at - 5, next, names)
      else
        After(TextPieces(s[last..at]) + [Field(s[at + 2..next])], Parse(s, next + 1, names))
  }

  /** The same when the next tag is a section's, from `head` to `tail`. */
  function ParseSection(s: string, last: nat, head: nat, tail: nat, names: seq<Key>): Parsed
    requires Behind(s, last) && last <= head && TagAt(s, head, tail)
    decreases |s|, |s| - last, 0
  {
    var pre, name, tag := TextPieces(s[last..head]), s[head + 7..tail], s[head..tail + 5];
    if FirstMatch(names, KeyOf(name)) < |names| then Parsed(false, pre)
    else
      var end := Find(s, tail + 5, tag);
      if end == |s| then Parsed(false, pre + [Section(name, [])])
      else
        var inner := Parse(s[tail + 5..end], 0, []);
        if !inner.ok then Parsed(false, pre + [Section(name, [])])
        else
          TagEnds(s, head, tail, end);
          After(pre + [Section(name, inner.pieces)], Parse(s, end + (tail + 5 - head), names + [KeyOf(name)]))
  }

  // What one step of reading yields, case by case.

  lemma {:induction false} TextStep(s: string, last: nat, names: seq<Key>)
    requires Behind(s, last) && NextLeft(s, last) == |s|
    ensures Parse(s, last, names) == Parsed(true, TextPieces(s[last..]))
  {
  }

  lemma {:induction false} OpenStep(s: string, last: nat, at: nat, names: seq<Key>)
    requires Behind(s, last) && NextLeft(s, last) == at < |s| && NextRight(s, at + 2) == |s|
    ensures Parse(s, last, names) == Parsed(false, [])
  {
  }

  lemma {:induction false} FieldStep(s: string, last: nat, at: nat, next: nat, names: seq<Key>)
    requires Behind(s, last) && NextLeft(s, last) == at < |s| && NextRight(s, at + 2) == next < |s|
    requires !InSectionTag(s, at, next)
    ensures Behind(s, next + 1)
    ensures Parse(s, last, names) == After(TextPieces(s[last..at]) + [Field(s[at + 2..next])], Parse(s, next + 1, names))
  {
    hide ParseSection, InSectionTag, After;
  }

  lemma {:induction false} TagStep(s: string, last: nat, head: nat, tail: nat, names: seq<Key>)
    requires Behind(s, last) && NextLeft(s, last) == head + 5 < |s| && NextRight(s, head + 7) == tail < |s|
    requires TagAt(s, head, tail)
    ensures last <= head
    ensures Parse(s, last, names) == ParseSection(s, last, head, tail, names)
  {
    HeadIsAhead(s, last, head);
  }

  lemma {:induction false} SectionStep(s: string, last: nat, head: nat, tail: nat, end: nat, names: seq<Key>)
    requires Behind(s, last) && last <= head && TagAt(s, head, tail)
    requires FirstMatch(names, KeyOf(s[head + 7..tail])) == |names|
    requires Find(s, tail + 5, s[head..tail + 5]) == end < |s|
    requires Parse(s[tail + 5..end], 0, []).ok
    ensures Behind(s, end + (tail + 5 - head))
    ensures ParseSection(s, last, head, tail, names) ==
            After(TextPieces(s[last..head]) + [Section(s[head + 7..tail], Parse(s[tail + 5..end], 0, []).pieces)],
                  Parse(s, end + (tail + 5 - head), names + [KeyOf(s[head + 7..tail])]))
  {
    hide After, TextPieces, KeyOf, FirstMatch, NextLeft, NextRight, TagAt, InSectionTag, MatchAt;
    TagEnds(s, head, tail, end);
  }

  lemma {:induction false} TakenStep(s: string, last: nat, head: nat, tail: nat, names: seq<Key>)
    requires Behind(s, last) && last <= head && TagAt(s, head, tail)
    requires FirstMatch(names, KeyOf(s[head + 7..tail])) < |names|
    ensures ParseSection(s, last, head, tail, names) == Parsed(false, TextPieces(s[last..head]))
  {
  }

  lemma {:induction false} UnclosedStep(s: string, last: nat, head: nat, tail: nat, end: nat, names: seq<Key>)
    requires Behind(s, last) && last <= head && TagAt(s, head, tail)
    requires FirstMatch(names, KeyOf(s[head + 7..tail])) == |names|
    requires Find(s, tail + 5, s[head..tail + 5]) == end && (end == |s| || !Parse(s[tail + 5..end], 0, []).ok)
    ensures ParseSection(s, last, head, tail, names) ==
            Parsed(false, TextPieces(s[last..head]) + [Section(s[head + 7..tail], [])])
  {
  }

  lemma {:induction false} SectionFails(s: string, last: nat, head: nat, tail: nat, end: nat, names: seq<Key>)
    requires Behind(s, last) && last <= head && TagAt(s, head, tail)
    requires Find(s, tail + 5, s[head..tail + 5]) == end
    requires FirstMatch(names, KeyOf(s[head + 7..tail])) < |names| || end == |s| || !Parse(s[tail + 5..end], 0, []).ok
    ensures !ParseSection(s, last, head, tail, names).ok
  {
  }

  // ----- writing back -----

  function FieldTag(name: string): string {
    LEFT + name + RIGHT
  }

  function SectionTag(name: string): string {
    HEAD + name + TAIL
  }

  function Unparse(ps: seq<Piece>): string {
    if ps == [] then "" else UnparsePiece(ps[0]) + Unparse(ps[1..])
  }

  function UnparsePiece(p: Piece): string {
    match p
    case Text(text) => text
    case Field(name) => FieldTag(name)
    case Section(name, body) => SectionTag(name) + Unparse(body) + SectionTag(name)
  }

  lemma {:induction false} UnparseConcat(a: seq<Piece>, b: seq<Piece>)
    ensures Unparse(a + b) == Unparse(a) + Unparse(b)
  {
    if a == [] {
      assert a + b == b;
    } else {
      assert (a + b)[1..] == a[1..] + b;
      UnparseConcat(a[1..], b);
      D.Cat(UnparsePiece(a[0]), Unparse(a[1..]), Unparse(b));
    }
  }

  lemma {:induction false} UnparseOne(p: Piece)
    ensures Unparse([p]) == UnparsePiece(p)
  {
    assert [p][1..] == [];
    D.EmptyEnd(UnparsePiece(p));
  }

  /** How one piece more is written: a text as it is, a field as its name between `$<` and `>`, a section as its
      body between two tags that show its name. */
  lemma {:induction false} PieceWritten(ps: seq<Piece>, x: Piece)
    ensures Unparse(ps + [x]) ==
            Unparse(ps) + match x
                          case Text(text) => text
                          case Field(name) => "$<" + name + ">"
                          case Section(name, body) => ("<!-- $<" + name + "> -->") + Unparse(body) + ("<!-- $<" + name + "> -->")
  {
    UnparseConcat(ps, [x]);
    UnparseOne(x);
  }

  lemma {:induction false} TextUnparsed(text: string)
    ensures Unparse(TextPieces(text)) == text
  {
    if text != "" {
      UnparseOne(Text(text));
    }
  }

  // Slices of a text put together again.

  lemma {:induction false} Glue(s: string, a: nat, b: nat, c: nat)
    requires a <= b <= c <= |s|
    ensures s[a..b] + s[b..c] == s[a..c]
  {
  }

  lemma {:induction false} GlueEnd(s: string, a: nat, b: nat)
    requires a <= b <= |s|
    ensures s[a..b] + s[b..] == s[a..]
  {
  }

  lemma {:induction false} WholeText(s: string)
    ensures s[0..] == s
  {
  }

  lemma {:induction false} FieldWhole(s: string, at: nat, next: nat)
    requires at + 2 <= next && LeftAt(s, at) && RightAt(s, next)
    ensures s[at..next + 1] == FieldTag(s[at + 2..next])
  {
    assert s[at..at + 2] == LEFT && s[next..next + 1] == RIGHT;
    Glue(s, at, at + 2, next);
    Glue(s, at, next, next + 1);
  }

  lemma {:induction false} TagWhole(s: string, head: nat, tail: nat)
    requires TagAt(s, head, tail)
    ensures s[head..tail + 5] == SectionTag(s[head + 7..tail])
  {
    assert s[head..head + 7] == HEAD && s[tail..tail + 5] == TAIL;
    Glue(s, head, head + 7, tail);
    Glue(s, head, tail, tail + 5);
  }

  /** A text, a piece and the rest, found one behind the other. */
  lemma {:induction false} Reassembled(s: string, last: nat, a: nat, b: nat, p: Piece, rest: seq<Piece>)
    requires last <= a <= b <= |s|
    requires UnparsePiece(p) == s[a..b] && Unparse(rest) == s[b..]
    ensures Unparse(TextPieces(s[last..a]) + [p] + rest) == s[last..]
  {
    var pre := TextPieces(s[last..a]);
    calc {
      Unparse(pre + [p] + rest);
    ==  { UnparseConcat(pre + [p], rest); }
      Unparse(pre + [p]) + s[b..];
    ==  { UnparseConcat(pre, [p]); TextUnparsed(s[last..a]); UnparseOne(p); }
      s[last..a] + s[a..b] + s[b..];
    ==  { Glue(s, last, a, b); }
      s[last..b] + s[b..];
    ==  { GlueEnd(s, last, b); }
      s[last..];
    }
  }

  lemma {:induction false} SectionWhole(s: string, head: nat, tail: nat, end: nat, body: seq<Piece>)
    requires TagAt(s, head, tail) && tail + 5 <= end && MatchAt(s, end, s[head..tail + 5]) && Unparse(body) == s[tail + 5..end]
    ensures UnparsePiece(Section(s[head + 7..tail], body)) == s[head..end + (tail + 5 - head)]
  {
    TagWhole(s, head, tail);
    Glue(s, head, tail + 5, end);
    Glue(s, head, end, end + (tail + 5 - head));
  }

  // ----- nothing is lost -----

  /** If a text was accepted, its pieces are those of `t`. */
  predicate Writes(r: Parsed, t: string) {
    r.ok ==> Unparse(r.pieces) == t
  }

  lemma {:induction false} WritesAfter(s: string, last: nat, a: nat, b: nat, p: Piece, rest: Parsed)
    requires last <= a <= b <= |s|
    requires UnparsePiece(p) == s[a..b] && Writes(rest, s[b..])
    ensures Writes(After(TextPieces(s[last..a]) + [p], rest), s[last..])
  {
    if rest.ok {
      Reassembled(s, last, a, b, p, rest.pieces);
    }
  }

  /** When a text is accepted, writing its pieces back gives the text. */
  lemma {:induction false} Lossless(s: string, last: nat, names: seq<Key>)
    requires Behind(s, last)
    ensures Writes(Parse(s, last, names), s[last..])
    decreases |s|, |s| - last, 1
  {
    hide Parse, ParseSection, Unparse;
    var at := NextLeft(s, last);
    if at == |s| {
      TextStep(s, last, names);
      TextUnparsed(s[last..]);
    } else {
      var next := NextRight(s, at + 2);
      if next == |s| {
        OpenStep(s, last, at, names);
      } else if InSectionTag(s, at, next) {
        TagStep(s, last, at - 5, next, names);
        LosslessSection(s, last, at - 5, next, names);
      } else {
        FieldStep(s, last, at, next, names);
        Lossless(s, next + 1, names);
        FieldWhole(s, at, next);
        WritesAfter(s, last, at, next + 1, Field(s[at + 2..next]), Parse(s, next + 1, names));
      }
    }
  }

  lemma {:induction false} LosslessSection(s: string, last: nat, head: nat, tail: nat, names: seq<Key>)
    requires Behind(s, last) && last <= head && TagAt(s, head, tail)
    ensures Writes(ParseSection(s, last, head, tail, names), s[last..])
    decreases |s|, |s| - last, 0
  {
    hide Parse, ParseSection, Unparse, UnparsePiece;
    var name, end := s[head + 7..tail], Find(s, tail + 5, s[head..tail + 5]);
    if FirstMatch(names, KeyOf(name)) < |names| || end == |s| || !Parse(s[tail + 5..end], 0, []).ok {
      SectionFails(s, last, head, tail, end, names);
    } else {
      var stop, body := end + (tail + 5 - head), s[tail + 5..end];
      SectionStep(s, last, head, tail, end, names);
      Lossless(body, 0, []);
      WholeText(body);
      Lossless(s, stop, names + [KeyOf(name)]);
      SectionWhole(s, head, tail, end, Parse(body, 0, []).pieces);
      WritesAfter(s, last, head, stop, Section(name, Parse(body, 0, []).pieces), Parse(s, stop, names + [KeyOf(name)]));
    }
  }

  lemma {:induction false} LosslessText(s: string)
    requires Parse(s, 0, []).ok
    ensures Unparse(Parse(s, 0, []).pieces) == s
  {
    Lossless(s, 0, []);
    WholeText(s);
  }

  // ----- what is left of a text in error -----

  function SectionKeys(ps: seq<Piece>): seq<Key> {
    if ps == [] then [] else (if ps[0].Section? then [KeyOf(ps[0].name)] else []) + SectionKeys(ps[1..])
  }

  /** The first left delimiter from `stop` on. */
  ghost predicate FirstLeft(s: string, stop: nat, at: nat) {
    stop <= at && LeftAt(s, at) && forall i {:trigger LeftAt(s, i)} | stop <= i < at :: !LeftAt(s, i)
  }

  /** It is part of a section tag. */
  ghost predicate FirstTag(s: string, stop: nat, at: nat, tail: nat) {
    FirstLeft(s, stop, at) && at >= stop + 5 && TagAt(s, at - 5, tail) && '>' !in s[at + 2..tail]
  }

  /** The name is taken, and the text before the tag is kept; or the section is never closed or its body is in
      error, and it is kept, empty. */
  ghost predicate TagFails(s: string, stop: nat, at: nat, tail: nat, names: seq<Key>, left: seq<Piece>)
    requires FirstTag(s, stop, at, tail)
  {
    var pre, name := TextPieces(s[stop..at - 5]), s[at + 2..tail];
    if !Fresh(names, name) then left == pre
    else left == pre + [Section(name, [])] && BodyFails(s, tail + 5, s[at - 5..tail + 5])
  }

  /** From `stop` on reading cannot go on, and leaves `left`: a left delimiter is never closed, or a section tag
      fails. */
  ghost predicate Stops(s: string, stop: nat, names: seq<Key>, left: seq<Piece>) {
    || (left == [] && exists at: nat {:trigger FirstLeft(s, stop, at)} :: FirstLeft(s, stop, at) && '>' !in s[at + 2..])
    || exists at: nat, tail: nat {:trigger FirstTag(s, stop, at, tail)} :: FirstTag(s, stop, at, tail) && TagFails(s, stop, at, tail, names, left)
  }

  /** The tag comes never again from `from` on, or what lies before it is in error. */
  ghost predicate BodyFails(s: string, from: nat, tag: string) {
    || (forall i: nat {:trigger MatchAt(s, i, tag)} | from <= i :: !MatchAt(s, i, tag))
    || exists end: nat {:trigger MatchAt(s, end, tag)} ::
         && from <= end && MatchAt(s, end, tag) && (forall i: nat {:trigger MatchAt(s, i, tag)} | from <= i < end :: !MatchAt(s, i, tag))
         && !Parse(s[from..end], 0, []).ok
  }

  lemma {:induction false} NoRight(s: string, from: nat, next: nat)
    requires from <= |s| && next == NextRight(s, from)
    ensures '>' !in s[from..next]
  {
    forall x | 0 <= x < next - from
      ensures s[from..next][x] != '>'
    {
      assert !RightAt(s, from + x);
    }
  }

  lemma {:induction false} NoMore(s: string, from: nat, tag: string)
    requires from <= |s| && tag != "" && Find(s, from, tag) == |s|
    ensures forall i: nat {:trigger MatchAt(s, i, tag)} | from <= i :: !MatchAt(s, i, tag)
  {
  }

  lemma {:induction false} OpenStops(s: string, stop: nat, names: seq<Key>)
    requires Behind(s, stop) && NextLeft(s, stop) < |s| && NextRight(s, NextLeft(s, stop) + 2) == |s|
    ensures Stops(s, stop, names, [])
  {
    hide TagFails;
    var at := NextLeft(s, stop);
    NoRight(s, at + 2, |s|);
    assert s[at + 2..|s|] == s[at + 2..];
    assert FirstLeft(s, stop, at);
  }

  lemma {:induction false} BodyFailed(s: string, from: nat, tag: string)
    requires from <= |s| && tag != "" && (Find(s, from, tag) < |s| ==> !Parse(s[from..Find(s, from, tag)], 0, []).ok)
    ensures BodyFails(s, from, tag)
  {
    hide Parse;
    var end := Find(s, from, tag);
    if end == |s| {
      NoMore(s, from, tag);
    } else {
      assert MatchAt(s, end, tag);
    }
  }

  /** The next section tag. */
  ghost predicate TagNext(s: string, last: nat, at: nat, tail: nat) {
    Behind(s, last) && at == NextLeft(s, last) < |s| && tail == NextRight(s, at + 2) < |s| && at >= last + 5 && TagAt(s, at - 5, tail)
  }

  lemma {:induction false} TagFirst(s: string, last: nat, at: nat, tail: nat)
    requires TagNext(s, last, at, tail)
    ensures FirstTag(s, last, at, tail) && tail + 5 <= |s|
  {
    NoRight(s, at + 2, tail);
  }

  lemma {:induction false} TagStops(s: string, stop: nat, at: nat, tail: nat, names: seq<Key>)
    requires TagNext(s, stop, at, tail)
    requires var name, end := s[at + 2..tail], Find(s, tail + 5, s[at - 5..tail + 5]);
             !Fresh(names, name) || end == |s| || !Parse(s[tail + 5..end], 0, []).ok
    ensures Stops(s, stop, names, ParseSection(s, stop, at - 5, tail, names).pieces)
  {
    hide Fresh, Parse, ParseSection, FirstTag, BodyFails, MatchAt, TextPieces, FirstMatch;
    var name, tag := s[at + 2..tail], s[at - 5..tail + 5];
    TagFirst(s, stop, at, tail);
    FreshMeans(names, name);
    if !Fresh(names, name) {
      TakenStep(s, stop, at - 5, tail, names);
    } else {
      UnclosedStep(s, stop, at - 5, tail, Find(s, tail + 5, tag), names);
      BodyFailed(s, tail + 5, tag);
    }
    assert TagFails(s, stop, at, tail, names, ParseSection(s, stop, at - 5, tail, names).pieces);
  }

  /** One text and one piece more in front of what was kept. */
  lemma {:induction false} KeptLonger(s: string, last: nat, a: nat, b: nat, stop: nat, p: Piece, kept: seq<Piece>)
    requires last <= a <= b <= stop <= |s| && UnparsePiece(p) == s[a..b] && Unparse(kept) == s[b..stop]
    ensures Unparse(TextPieces(s[last..a]) + [p] + kept) == s[last..stop]
  {
    var pre := TextPieces(s[last..a]);
    UnparseConcat(pre + [p], kept);
    UnparseConcat(pre, [p]);
    TextUnparsed(s[last..a]);
    UnparseOne(p);
    Glue(s, last, a, b);
    Glue(s, last, b, stop);
  }

  lemma {:induction false} KeysLonger(names: seq<Key>, text: string, p: Piece, kept: seq<Piece>)
    requires !p.Text?
    ensures names + SectionKeys(TextPieces(text) + [p] + kept) == (if p.Section? then names + [KeyOf(p.name)] else names) + SectionKeys(kept)
  {
    hide KeyOf;
    var pre, rest := TextPieces(text), [p] + kept;
    assert pre + [p] + kept == pre + rest && rest[0] == p && rest[1..] == kept;
    if pre == [] {
      assert pre + rest == rest;
    } else {
      assert (pre + rest)[0] == pre[0] && (pre + rest)[1..] == rest;
    }
  }

  lemma {:induction false} PiecesLonger(pre: seq<Piece>, more: seq<Piece>, left: seq<Piece>)
    ensures pre + (more + left) == (pre + more) + left
  {
  }

  /** When a text is not accepted, the pieces are those of the text up to a place from which reading cannot go on,
      and what that place leaves. */
  lemma {:induction false} Rejected(s: string, last: nat, names: seq<Key>) returns (stop: nat, kept: seq<Piece>, left: seq<Piece>)
    requires Behind(s, last) && !Parse(s, last, names).ok
    ensures Parse(s, last, names).pieces == kept + left
    ensures last <= stop <= |s| && Unparse(kept) == s[last..stop]
    ensures Stops(s, stop, names + SectionKeys(kept), left)
    decreases |s|, |s| - last, 1
  {
    hide Parse, ParseSection, Unparse, UnparsePiece, Stops, Fresh, SectionKeys, TextPieces, KeyOf, Find;
    var at := NextLeft(s, last);
    TextAccepted(s, last, names);
    var next := NextRight(s, at + 2);
    if next == |s| {
      OpenStep(s, last, at, names);
      OpenStops(s, last, names);
      NothingKept(s, last, names);
      stop, kept, left := last, [], [];
    } else if InSectionTag(s, at, next) {
      TagStep(s, last, at - 5, next, names);
      stop, kept, left := RejectedSection(s, last, at, next, names);
    } else {
      FieldStep(s, last, at, next, names);
      var more;
      stop, more, left := Rejected(s, next + 1, names);
      var f := Field(s[at + 2..next]);
      kept := TextPieces(s[last..at]) + [f] + more;
      FieldWhole(s, at, next);
      FieldPiece(f);
      KeptLonger(s, last, at, next + 1, stop, f, more);
      KeysLonger(names, s[last..at], f, more);
      PiecesLonger(TextPieces(s[last..at]) + [f], more, left);
    }
  }

  lemma {:induction false} FieldPiece(f: Piece)
    requires f.Field?
    ensures UnparsePiece(f) == FieldTag(f.name)
  {
  }

  lemma {:induction false} TextAccepted(s: string, last: nat, names: seq<Key>)
    requires Behind(s, last) && !Parse(s, last, names).ok
    ensures NextLeft(s, last) < |s|
  {
  }

  lemma {:induction false} NothingKept(s: string, last: nat, names: seq<Key>)
    requires last <= |s|
    ensures Unparse([]) == s[last..last] && names + SectionKeys([]) == names
  {
  }

  lemma {:induction false} RejectedSection(s: string, last: nat, at: nat, tail: nat, names: seq<Key>)
    returns (stop: nat, kept: seq<Piece>, left: seq<Piece>)
    requires TagNext(s, last, at, tail) && !ParseSection(s, last, at - 5, tail, names).ok
    ensures ParseSection(s, last, at - 5, tail, names).pieces == kept + left
    ensures last <= stop <= |s| && Unparse(kept) == s[last..stop]
    ensures Stops(s, stop, names + SectionKeys(kept), left)
    decreases |s|, |s| - last, 0
  {
    hide Parse, ParseSection, Unparse, UnparsePiece, Stops, Fresh, SectionKeys, TextPieces, KeyOf, MatchAt, FirstMatch;
    TagFirst(s, last, at, tail);
    var name, end := s[at + 2..tail], Find(s, tail + 5, s[at - 5..tail + 5]);
    if !Fresh(names, name) || end == |s| || !Parse(s[tail + 5..end], 0, []).ok {
      TagStops(s, last, at, tail, names);
      NothingKept(s, last, names);
      stop, kept, left := last, [], ParseSection(s, last, at - 5, tail, names).pieces;
    } else {
      FreshMeans(names, name);
      SectionStep(s, last, at - 5, tail, end, names);
      var b, body := end + (tail + 5 - (at - 5)), Parse(s[tail + 5..end], 0, []).pieces;
      var x, more := Section(name, body), [];
      stop, more, left := Rejected(s, b, names + [KeyOf(name)]);
      kept := TextPieces(s[last..at - 5]) + [x] + more;
      LosslessText(s[tail + 5..end]);
      SectionWhole(s, at - 5, tail, end, body);
      KeptLonger(s, last, at - 5, b, stop, x, more);
      KeysLonger(names, s[last..at - 5], x, more);
      PiecesLonger(TextPieces(s[last..at - 5]) + [x], more, left);
    }
  }
}
