/** Building a template out of its text. */
module TplConstruct {
  import opened TplNames
  import opened TplDocument
  import opened TplHeap
  import opened TplAccount
  import opened TplBuild
  import opened TplGrowth
  import opened TplSections
  import opened TplJoin
  import opened TplRelease
  import opened TplSearch
  import G = TplGrammar

  // ----- the guard of the section branch -----

  /** The seven bytes before `curr`; at 6 the first of them is the byte before the text. */
  function BytesBefore(text: string, before: char, curr: nat): string
    requires 6 <= curr <= |text|
  {
    if curr == 6 then [before] + text[..6] else text[curr - 7..curr]
  }

  /** The test as it stands, one byte too generous at the start of the text. */
  predicate SeesTag(text: string, before: char, curr: nat, next: nat) {
    && curr <= next <= |text|
    && curr + 1 >= 7 && |text| - next >= 5
    && BytesBefore(text, before, curr) == G.HEAD && text[next..next + 5] == G.TAIL
  }

  /** The text begins with a section head that lacks its first byte. */
  predicate HeadlessStart(text: string) {
    |text| >= 6 && text[0] == '!' && text[1] == '-' && text[2] == '-' && text[3] == ' ' && text[4] == '$' && text[5] == '<'
  }

  /** A text on which the test goes wrong: it begins with such a head, the missing byte stands before it, and the
      first right delimiter is that of a section tail. */
  predicate Misread(text: string, before: char) {
    && before == '<' && HeadlessStart(text)
    && G.NextRight(text, 6) < |text| && G.ClosingAt(text, G.NextRight(text, 6) + 1)
  }

  /** The test is right unless the missing byte happens to stand before the text. */
  lemma {:induction false} GuardExact(text: string, before: char, curr: nat, next: nat)
    requires 2 <= curr <= next && G.LeftAt(text, curr - 2) && G.RightAt(text, next)
    ensures (SeesTag(text, before, curr, next) <==> G.InSectionTag(text, curr - 2, next)) <==>
            !(curr == 6 && before == '<' && HeadlessStart(text) && G.ClosingAt(text, next + 1))
  {
    if curr >= 6 {
      HeadBytes(text, before, curr);
    }
    if next + 5 <= |text| {
      TailBytes(text, next);
    }
  }

  lemma {:induction false} HeadBytes(text: string, before: char, curr: nat)
    requires 6 <= curr <= |text|
    ensures BytesBefore(text, before, curr) == G.HEAD <==>
            if curr == 6 then before == '<' && HeadlessStart(text)
            else G.OpeningAt(text, curr - 7) && G.LeftAt(text, curr - 2)
  {
    var b := BytesBefore(text, before, curr);
    var h := G.HEAD;
    assert |h| == 7 && h[0] == '<' && h[1] == '!' && h[2] == '-' && h[3] == '-' && h[4] == ' ' && h[5] == '$' && h[6] == '<';
    assert |b| == 7;
    if curr == 6 {
      assert b[0] == before && b[1] == text[0] && b[2] == text[1] && b[3] == text[2] && b[4] == text[3] && b[5] == text[4] && b[6] == text[5];
    } else {
      var a := curr - 7;
      assert b[0] == text[a] && b[1] == text[a + 1] && b[2] == text[a + 2] && b[3] == text[a + 3];
      assert b[4] == text[a + 4] && b[5] == text[a + 5] && b[6] == text[a + 6];
    }
    SevenSame(b, h);
  }

  lemma {:induction false} SevenSame(b: string, h: string)
    requires |b| == |h| == 7
    ensures b == h <==> b[0] == h[0] && b[1] == h[1] && b[2] == h[2] && b[3] == h[3] && b[4] == h[4] && b[5] == h[5] && b[6] == h[6]
  {
    if b[0] == h[0] && b[1] == h[1] && b[2] == h[2] && b[3] == h[3] && b[4] == h[4] && b[5] == h[5] && b[6] == h[6] {
      assert forall i | 0 <= i < 7 :: b[i] == h[i];
    }
  }

  lemma {:induction false} TailBytes(text: string, next: nat)
    requires next + 5 <= |text| && G.RightAt(text, next)
    ensures text[next..next + 5] == G.TAIL <==> G.ClosingAt(text, next + 1)
  {
    var b, h := text[next..next + 5], G.TAIL;
    assert |h| == 5 && h[0] == '>' && h[1] == ' ' && h[2] == '-' && h[3] == '-' && h[4] == '>';
    assert b[0] == text[next] && b[1] == text[next + 1] && b[2] == text[next + 2] && b[3] == text[next + 3] && b[4] == text[next + 4];
    if G.ClosingAt(text, next + 1) {
      assert forall i | 0 <= i < 5 :: b[i] == h[i];
    }
  }

  /** On such a text the very first tag is taken for a section's, whose head would begin one byte before it. */
  lemma {:induction false} FirstTagMisread(text: string, before: char)
    requires Misread(text, before)
    ensures G.NextLeft(text, 0) == 4
    ensures SeesTag(text, before, 6, G.NextRight(text, 6)) && !G.InSectionTag(text, 4, G.NextRight(text, 6))
  {
    assert G.LeftAt(text, 4);
    assert !G.LeftAt(text, 0) && !G.LeftAt(text, 1) && !G.LeftAt(text, 2) && !G.LeftAt(text, 3);
    GuardExact(text, before, 6, G.NextRight(text, 6));
  }

  /** One such text; with any other byte before it, it is a field between two texts. */
  lemma {:induction false} HeadlessTag()
    ensures var text := "!-- $<x> -->";
            && Misread(text, '<') && SeesTag(text, '<', 6, 7) && !G.InSectionTag(text, 4, 7)
            && G.Parse(text, 0, []) == G.Parsed(true, [G.Text("!-- "), G.Field("x"), G.Text(" -->")])
  {
    var text := "!-- $<x> -->";
    assert G.RightAt(text, 7) && !G.RightAt(text, 6);
    assert G.NextRight(text, 6) == 7;
    assert G.ClosingAt(text, 8);
    FirstTagMisread(text, '<');
    G.FieldStep(text, 0, 4, 7, []);
    assert forall i: nat | 8 <= i < |text| :: !G.LeftAt(text, i);
    G.TextStep(text, 8, []);
    assert text[0..4] == "!-- " && text[6..7] == "x" && text[8..] == " -->";
  }

  // ----- the template while it is built -----

  /** The pieces `done` are in place, and every block made for them hangs there; `tail` and `last` are where the
      next node and section go. */
  ghost predicate Growing(t: Template, d: Dom, p: Path, done: seq<G.Piece>, tail: Link, last: SectionCell?)
    reads d.world
  {
    && Wf(d) && d.root == p && p in d.st && d.st[p] == t && t in d.world && Abs(d) == Build(p, done)
    && tail == LinkTo(t, t.v.nodes, |t.v.nodes|) && last == LastOrNull(t.v.scells) && Unheld(d) == {}
  }

  lemma {:induction false} BuildSnoc(p: Path, done: seq<G.Piece>, x: G.Piece)
    ensures var doc := Build(p, done);
            Build(p, done + [x]) == match x
                                    case Text(text) => doc[p := AddText(doc[p], text)]
                                    case Field(name) => doc[p := AddField(doc[p], name)]
                                    case Section(name, body) => doc[p := AddSection(doc[p], name)] + Build(Child(p, |doc[p].names|), body)
  {
    assert (done + [x])[..|done|] == done;
  }

  lemma {:induction false} BuildBlank(p: Path, done: seq<G.Piece>, name: string)
    ensures var doc := Build(p, done);
            Build(p, done + [G.Section(name, [])]) == doc[p := AddSection(doc[p], name)][Child(p, |doc[p].names|) := EMPTY]
  {
    BuildSnoc(p, done, G.Section(name, []));
  }

  method GrowText(t: Template, tail: Link, last: SectionCell?, text: string, ghost d: Dom, ghost p: Path, ghost done: seq<G.Piece>)
    returns (next: Link, ghost d': Dom, ghost done': seq<G.Piece>)
    requires Growing(t, d, p, done, tail, last) && Settled(d, [])
    modifies d.world
    ensures Growing(t, d', p, done', next, last) && Settled(d', []) && fresh(d'.world - d.world)
    ensures t.tpl == old(t.tpl) && t.parent == old(t.parent)
    ensures done' == done + G.TextPieces(text)
  {
    next, d', done' := tail, d, done + G.TextPieces(text);
    if |text| != 0 {
      next, d' := PushText(t, tail, text, d, p);
      SettledKept(d, d', p, []);
      BuildSnoc(p, done, G.Text(text));
    } else {
      assert done' == done;
    }
  }

  method GrowField(t: Template, tail: Link, last: SectionCell?, name: string, ghost d: Dom, ghost p: Path, ghost done: seq<G.Piece>)
    returns (next: Link, ghost d': Dom)
    requires Growing(t, d, p, done, tail, last) && Settled(d, []) && CleanName(name)
    modifies d.world
    ensures Growing(t, d', p, done + [G.Field(name)], next, last) && Settled(d', []) && fresh(d'.world - d.world)
    ensures t.tpl == old(t.tpl) && t.parent == old(t.parent)
  {
    next, d' := PushField(t, tail, name, d, p);
    SettledKept(d, d', p, []);
    BuildSnoc(p, done, G.Field(name));
  }

  // ----- a child section: made empty, then built on its own -----

  lemma {:induction false} BuildNames(t: Template, d: Dom, p: Path, done: seq<G.Piece>, tail: Link, last: SectionCell?)
    requires Growing(t, d, p, done, tail, last)
    ensures t.v.sec == Build(p, done)[p] && |t.v.scells| == |t.v.sec.names|
  {
    assert Local(d, p);
  }

  lemma {:induction false} AttachedGrows(t: Template, cell: SectionCell, tail: Link, d: Dom, d': Dom, p: Path, c: Path,
                                         cells: seq<SectionCell>, done: seq<G.Piece>)
    requires Attached(t, cell, tail, d, d', c, cells) && c == Child(p, |cells|)
    requires Wf(d') && d'.root == p && p in d'.st && d'.st[p] == t && Abs(d') == Build(p, done) && Unheld(d') == {}
    ensures Growing(t, d', p, done, tail, cell) && Awaiting(d', p, cell, c)
  {
    hide Wf, Abs, Build, Unheld;
    WorldHolds(d');
  }

  method GrowSection(t: Template, tail: Link, last: SectionCell?, name: string, ghost d: Dom, ghost p: Path, ghost done: seq<G.Piece>)
    returns (cell: SectionCell?, ghost d': Dom)
    requires Growing(t, d, p, done, tail, last) && Settled(d, []) && CleanName(name)
    modifies d.world
    ensures fresh(d'.world - d.world) && t.tpl == old(t.tpl) && t.parent == old(t.parent)
    ensures var names := Build(p, done)[p].names; cell == null <==> FirstMatch(names, KeyOf(name)) < |names|
    ensures cell == null ==> Growing(t, d', p, done, tail, last)
    ensures cell != null ==>
              && Growing(t, d', p, done + [G.Section(name, [])], tail, cell)
              && SettledBut(d', [], Child(p, |Build(p, done)[p].names|))
              && Awaiting(d', p, cell, Child(p, |Build(p, done)[p].names|)) && cell.tpl != t
  {
    BuildNames(t, d, p, done, tail, last);
    BuildBlank(p, done, name);
    ghost var c, cells := Child(p, |t.v.scells|), t.v.scells;
    cell, d' := PushSection(t, tail, last, name, d, p);
    if cell != null {
      SettledGrafted(d, d', p, c, cell.tpl, []);
      AttachedGrows(t, cell, tail, d, d', p, c, cells, done + [G.Section(name, [])]);
    }
  }

  // ----- what is read -----

  /** Reading got to `last` with the pieces `done`. */
  ghost predicate Reached(text: string, done: seq<G.Piece>, last: nat, names: seq<Key>) {
    G.Behind(text, last) && G.Parse(text, 0, []) == G.After(done, G.Parse(text, last, names))
  }

  lemma {:induction false} AfterTwice(a: seq<G.Piece>, b: seq<G.Piece>, r: G.Parsed)
    ensures G.After(a, G.After(b, r)) == G.After(a + b, r)
  {
    assert a + (b + r.pieces) == (a + b) + r.pieces;
  }

  lemma {:induction false} ReachedStart(text: string)
    ensures Reached(text, [], 0, [])
  {
    hide G.Parse;
    assert [] + G.Parse(text, 0, []).pieces == G.Parse(text, 0, []).pieces;
  }

  lemma {:induction false} ReachedEnd(text: string, done: seq<G.Piece>, last: nat, names: seq<Key>)
    requires Reached(text, done, last, names) && G.NextLeft(text, last) == |text|
    ensures G.Parse(text, 0, []) == G.Parsed(true, done + G.TextPieces(text[last..]))
  {
    hide G.Parse;
    G.TextStep(text, last, names);
  }

  lemma {:induction false} ReachedOpen(text: string, done: seq<G.Piece>, last: nat, at: nat, names: seq<Key>)
    requires Reached(text, done, last, names) && G.NextLeft(text, last) == at < |text| && G.NextRight(text, at + 2) == |text|
    ensures G.Parse(text, 0, []) == G.Parsed(false, done)
  {
    hide G.Parse;
    G.OpenStep(text, last, at, names);
    assert done + [] == done;
  }

  lemma {:induction false} ReachedField(text: string, done: seq<G.Piece>, last: nat, at: nat, next: nat, names: seq<Key>)
    requires Reached(text, done, last, names) && G.NextLeft(text, last) == at < |text| && G.NextRight(text, at + 2) == next < |text|
    requires !G.InSectionTag(text, at, next)
    ensures Reached(text, done + G.TextPieces(text[last..at]) + [G.Field(text[at + 2..next])], next + 1, names)
  {
    hide G.Parse, G.After, G.TextPieces;
    G.FieldStep(text, last, at, next, names);
    var pre := G.TextPieces(text[last..at]) + [G.Field(text[at + 2..next])];
    AfterTwice(done, pre, G.Parse(text, next + 1, names));
    assert done + pre == done + G.TextPieces(text[last..at]) + [G.Field(text[at + 2..next])];
  }

  /** How the parse goes on at a section tag: a name taken, no closing tag or a bad body, or a whole section. */
  lemma {:induction false} ReachedTag(text: string, done: seq<G.Piece>, last: nat, head: nat, tail: nat, names: seq<Key>)
    requires Reached(text, done, last, names) && G.NextLeft(text, last) == head + 5 < |text| && G.NextRight(text, head + 7) == tail < |text|
    requires G.TagAt(text, head, tail)
    ensures last <= head
    ensures var name, pre, end := text[head + 7..tail], done + G.TextPieces(text[last..head]), G.Find(text, tail + 5, text[head..tail + 5]);
            if FirstMatch(names, KeyOf(name)) < |names| then G.Parse(text, 0, []) == G.Parsed(false, pre)
            else if end == |text| || !G.Parse(text[tail + 5..end], 0, []).ok then
              G.Parse(text, 0, []) == G.Parsed(false, pre + [G.Section(name, [])])
            else
              Reached(text, pre + [G.Section(name, G.Parse(text[tail + 5..end], 0, []).pieces)], end + (tail + 5 - head), names + [KeyOf(name)])
  {
    hide G.Parse, G.ParseSection, G.TextPieces;
    G.HeadIsAhead(text, last, head);
    var name, txt, end := text[head + 7..tail], G.TextPieces(text[last..head]), G.Find(text, tail + 5, text[head..tail + 5]);
    G.TagStep(text, last, head, tail, names);
    if FirstMatch(names, KeyOf(name)) < |names| {
      G.TakenStep(text, last, head, tail, names);
    } else if end == |text| || !G.Parse(text[tail + 5..end], 0, []).ok {
      G.UnclosedStep(text, last, head, tail, end, names);
      assert done + (txt + [G.Section(name, [])]) == done + txt + [G.Section(name, [])];
    } else {
      var s := [G.Section(name, G.Parse(text[tail + 5..end], 0, []).pieces)];
      G.SectionStep(text, last, head, tail, end, names);
      AfterTwice(done, txt + s, G.Parse(text, end + (tail + 5 - head), names + [KeyOf(name)]));
      assert done + (txt + s) == done + txt + s;
    }
  }

  // ----- names in a text -----

  /** Every name that reading reaches, from `last` on, is one that may be hashed. */
  ghost predicate NamesClean(s: string, last: nat, names: seq<Key>)
    requires last <= |s|
    decreases |s|, |s| - last
  {
    var at := G.NextLeft(s, last);
    at == |s| ||
    var next := G.NextRight(s, at + 2);
    next == |s| ||
    (CleanName(s[at + 2..next]) &&
     if G.InSectionTag(s, at, next) then
       FirstMatch(names, KeyOf(s[at + 2..next])) < |names| || BodyClean(s, at - 5, next, names)
     else NamesClean(s, next + 1, names))
  }

  /** The same from behind the tag of a section that is new, from `head` to `tail`. */
  ghost predicate BodyClean(s: string, head: nat, tail: nat, names: seq<Key>)
    requires G.TagAt(s, head, tail)
    decreases |s|, |s| - tail
  {
    var end := G.Find(s, tail + 5, s[head..tail + 5]);
    end == |s| ||
    (NamesClean(s[tail + 5..end], 0, []) &&
     (G.Parse(s[tail + 5..end], 0, []).ok ==>
        NamesClean(s, end + (tail + 5 - head), names + [KeyOf(s[head + 7..tail])])))
  }

  /** Every name in the pieces, at every depth, may be hashed. */
  predicate PiecesClean(ps: seq<G.Piece>) {
    ps == [] || (PieceClean(ps[0]) && PiecesClean(ps[1..]))
  }

  predicate PieceClean(x: G.Piece) {
    match x
    case Text(_) => true
    case Field(name) => CleanName(name)
    case Section(name, body) => CleanName(name) && PiecesClean(body)
  }

  lemma {:induction false} OneClean(text: string, x: G.Piece, rest: seq<G.Piece>)
    ensures PiecesClean(G.TextPieces(text) + [x] + rest) <==> PieceClean(x) && PiecesClean(rest)
  {
    var pre, more := G.TextPieces(text), [x] + rest;
    assert pre + [x] + rest == pre + more && more[0] == x && more[1..] == rest;
    if pre == [] {
      assert pre + more == more;
    } else {
      assert (pre + more)[0] == pre[0] && (pre + more)[1..] == more;
    }
  }

  lemma {:induction false} TextClean(text: string)
    ensures PiecesClean(G.TextPieces(text))
  {
  }

  /** What is asked of an accepted text is that the names in its pieces may be hashed. */
  lemma {:induction false} NamesExact(s: string, last: nat, names: seq<Key>)
    requires G.Behind(s, last) && G.Parse(s, last, names).ok
    ensures NamesClean(s, last, names) <==> PiecesClean(G.Parse(s, last, names).pieces)
    decreases |s|, |s| - last, 1
  {
    hide G.Parse, G.ParseSection, BodyClean, PiecesClean, G.TextPieces, CleanName, FirstMatch, KeyOf;
    var at := G.NextLeft(s, last);
    if at == |s| {
      G.TextStep(s, last, names);
      TextClean(s[last..]);
    } else {
      var next := G.NextRight(s, at + 2);
      if next == |s| {
        G.OpenStep(s, last, at, names);
      } else if G.InSectionTag(s, at, next) {
        G.TagStep(s, last, at - 5, next, names);
        NamesExactBody(s, last, at, next, names);
      } else {
        G.FieldStep(s, last, at, next, names);
        NamesExact(s, next + 1, names);
        OneClean(s[last..at], G.Field(s[at + 2..next]), G.Parse(s, next + 1, names).pieces);
      }
    }
  }

  lemma {:induction false} NamesExactBody(s: string, last: nat, at: nat, tail: nat, names: seq<Key>)
    requires G.TagNext(s, last, at, tail)
    ensures var r := G.ParseSection(s, last, at - 5, tail, names);
            r.ok ==>
              && FirstMatch(names, KeyOf(s[at + 2..tail])) == |names|
              && (CleanName(s[at + 2..tail]) && BodyClean(s, at - 5, tail, names) <==> PiecesClean(r.pieces))
    decreases |s|, |s| - last, 0
  {
    hide G.Parse, G.ParseSection, PiecesClean, G.TextPieces, CleanName, FirstMatch, KeyOf, NamesClean, G.MatchAt;
    var name, end := s[at + 2..tail], G.Find(s, tail + 5, s[at - 5..tail + 5]);
    G.TagFirst(s, last, at, tail);
    if FirstMatch(names, KeyOf(name)) < |names| || end == |s| || !G.Parse(s[tail + 5..end], 0, []).ok {
      G.SectionFails(s, last, at - 5, tail, end, names);
    } else {
      G.SectionStep(s, last, at - 5, tail, end, names);
      var b, body := end + (tail + 5 - (at - 5)), G.Parse(s[tail + 5..end], 0, []).pieces;
      NamesExact(s[tail + 5..end], 0, []);
      if G.Parse(s, b, names + [KeyOf(name)]).ok {
        NamesExact(s, b, names + [KeyOf(name)]);
      }
      OneClean(s[last..at - 5], G.Section(name, body), G.Parse(s, b, names + [KeyOf(name)]).pieces);
    }
  }

  lemma {:induction false} CleanField(s: string, last: nat, at: nat, next: nat, names: seq<Key>)
    requires last <= |s| && NamesClean(s, last, names)
    requires G.NextLeft(s, last) == at < |s| && G.NextRight(s, at + 2) == next < |s| && !G.InSectionTag(s, at, next)
    ensures CleanName(s[at + 2..next]) && NamesClean(s, next + 1, names)
  {
    hide G.InSectionTag, BodyClean, CleanName;
  }

  lemma {:induction false} CleanTag(s: string, last: nat, head: nat, tail: nat, names: seq<Key>)
    requires last <= |s| && NamesClean(s, last, names)
    requires G.NextLeft(s, last) == head + 5 < |s| && G.NextRight(s, head + 7) == tail < |s| && G.TagAt(s, head, tail)
    ensures var name := s[head + 7..tail];
            CleanName(name) && (FirstMatch(names, KeyOf(name)) < |names| || BodyClean(s, head, tail, names))
  {
  }

  // ----- filling a child section -----

  lemma {:induction false} BuildFilled(p: Path, done: seq<G.Piece>, name: string, body: seq<G.Piece>)
    ensures Build(p, done + [G.Section(name, body)]) ==
            Build(p, done + [G.Section(name, [])]) + Build(Child(p, |Build(p, done)[p].names|), body)
  {
    BuildSnoc(p, done, G.Section(name, body));
    BuildSnoc(p, done, G.Section(name, []));
  }

  lemma {:induction false} AwaitedChild(t: Template, d: Dom, p: Path, cell: SectionCell, c: Path, tail: Link, done: seq<G.Piece>, name: string)
    requires Growing(t, d, p, done + [G.Section(name, [])], tail, cell) && Awaiting(d, p, cell, c)
    ensures c == Child(p, |Build(p, done)[p].names|) && c != p && |p| < |c| && Up(c) == p
    ensures forall q {:trigger d.st[q]} | q in d.st :: !(c < q)
  {
    hide Wf, Abs, Build, Local;
    BuildNames(t, d, p, done + [G.Section(name, [])], tail, cell);
    NamesSnoc(p, done, G.Section(name, []));
    NoneBelow(d, c);
  }

  method FillSection(t: Template, cell: SectionCell, tail: Link, body: Option<string>, ghost name: string,
                     ghost d: Dom, ghost p: Path, ghost c: Path, ghost done: seq<G.Piece>, ghost limit: nat)
    returns (code: int, ghost d': Dom)
    requires Growing(t, d, p, done + [G.Section(name, [])], tail, cell) && SettledBut(d, [], c) && Awaiting(d, p, cell, c) && cell.tpl != t
    requires body.Some? ==> NamesClean(body.value, 0, []) && |body.value| < limit
    modifies d.world
    ensures fresh(d'.world - d.world) && t.tpl == old(t.tpl) && t.parent == old(t.parent)
    ensures code == if body.Some? && G.Parse(body.value, 0, []).ok then TPL_OK else TPL_SYNTAX_ERROR
    ensures code == TPL_OK ==> Growing(t, d', p, done + [G.Section(name, G.Parse(body.value, 0, []).pieces)], tail, cell) && Settled(d', [])
    ensures code != TPL_OK ==> Growing(t, d', p, done + [G.Section(name, [])], tail, cell)
    decreases limit, 0
  {
    hide SettledBut, Settled, Local, Wf, Abs, Unheld, Build, NamesClean, G.Parse;
    AwaitedChild(t, d, p, cell, c, tail, done, name);
    var child := cell.tpl;
    ghost var dc := Dom(c, map[c := child], {child});
    BlankAlone(child, c);
    code := TPL_SYNTAX_ERROR;
    label blank:
    if body.Some? {
      code, dc := Construct(child, '>', body.value, c);
    }
    if code == TPL_OK {
      d' := Joined(d, dc);
      Rejoined@blank(d, dc, c, []);
      BuildFilled(p, done, name, G.Parse(body.value, 0, []).pieces);
    } else {
      d' := d;
      ghost var freed := Restart(child, dc, {});
      Reblanked@blank(d, c);
    }
  }

  lemma {:induction false} NamesSnoc(p: Path, done: seq<G.Piece>, x: G.Piece)
    ensures var names := Build(p, done)[p].names;
            Build(p, done + [x])[p].names == if x.Section? then names + [KeyOf(x.name)] else names
  {
    BuildSnoc(p, done, x);
  }

  lemma {:induction false} NamesText(p: Path, done: seq<G.Piece>, text: string)
    ensures Build(p, done + G.TextPieces(text))[p].names == Build(p, done)[p].names
  {
    if text == "" {
      assert done + [] == done;
    } else {
      NamesSnoc(p, done, G.Text(text));
    }
  }

  /** Everything up to `last` is read and built. */
  ghost predicate Building(t: Template, d: Dom, p: Path, text: string, done: seq<G.Piece>, last: nat, tail: Link, cell: SectionCell?)
    reads d.world, d.st.Values
  {
    && Growing(t, d, p, done, tail, cell) && Settled(d, []) && Reached(text, done, last, Build(p, done)[p].names)
    && NamesClean(text, last, Build(p, done)[p].names)
  }

  lemma {:induction false} BuildingStarts(t: Template, d: Dom, p: Path, text: string)
    requires t.Blank(p) && d == Dom(p, map[p := t], {t}) && NamesClean(text, 0, [])
    ensures Building(t, d, p, text, [], 0, HeadOf(t), null)
  {
    hide G.Parse, NamesClean;
    BlankLocal(d, p);
    ReachedStart(text);
  }

  /** What the text says about the section whose head ends at `curr` and whose tail begins at `next`. */
  ghost predicate BodyReached(text: string, pre: seq<G.Piece>, curr: nat, next: nat, names: seq<Key>)
  {
    && 7 <= curr <= next && G.TagAt(text, curr - 7, next) && BodyClean(text, curr - 7, next, names)
    && var name, end := text[curr..next], G.Find(text, next + 5, text[curr - 7..next + 5]);
       if end == |text| || !G.Parse(text[next + 5..end], 0, []).ok then
         G.Parse(text, 0, []) == G.Parsed(false, pre + [G.Section(name, [])])
       else
         Reached(text, pre + [G.Section(name, G.Parse(text[next + 5..end], 0, []).pieces)], end + (next + 12 - curr), names + [KeyOf(name)])
  }

  lemma {:induction false} BodyFound(text: string, pre: seq<G.Piece>, curr: nat, next: nat, names: seq<Key>)
    requires BodyReached(text, pre, curr, next, names)
    ensures 7 <= curr <= next && next + 5 <= |text|
    ensures var name, end := text[curr..next], G.Find(text, next + 5, text[curr - 7..next + 5]);
            if end == |text| || !G.Parse(text[next + 5..end], 0, []).ok then
              && G.Parse(text, 0, []) == G.Parsed(false, pre + [G.Section(name, [])])
              && (end < |text| ==> NamesClean(text[next + 5..end], 0, []))
            else
              var stop, names' := end + (next + 12 - curr), names + [KeyOf(name)];
              && stop <= |text| && NamesClean(text[next + 5..end], 0, []) && NamesClean(text, stop, names')
              && Reached(text, pre + [G.Section(name, G.Parse(text[next + 5..end], 0, []).pieces)], stop, names')
  {
    hide G.Parse, NamesClean, G.MatchAt;
  }

  /** The section is made; its body is looked for and built. */
  method ConstructBody(t: Template, cell: SectionCell, tail: Link, text: string, curr: nat, next: nat,
                       ghost d: Dom, ghost p: Path, ghost c: Path, ghost pre: seq<G.Piece>)
    returns (code: int, stop: nat, ghost body: seq<G.Piece>, ghost d': Dom)
    requires 7 <= curr <= next && next + 5 <= |text|
    requires var end := G.Find(text, next + 5, text[curr - 7..next + 5]); end < |text| ==> NamesClean(text[next + 5..end], 0, [])
    requires Growing(t, d, p, pre + [G.Section(text[curr..next], [])], tail, cell) && SettledBut(d, [], c)
    requires Awaiting(d, p, cell, c) && cell.tpl != t
    modifies d.world
    ensures fresh(d'.world - d.world) && t.tpl == old(t.tpl) && t.parent == old(t.parent)
    ensures var end := G.Find(text, next + 5, text[curr - 7..next + 5]);
            && stop == end + (next + 12 - curr)
            && code == (if end < |text| && G.Parse(text[next + 5..end], 0, []).ok then TPL_OK else TPL_SYNTAX_ERROR)
            && (code == TPL_OK ==> body == G.Parse(text[next + 5..end], 0, []).pieces && Settled(d', []))
            && (code != TPL_OK ==> body == [])
    ensures Growing(t, d', p, pre + [G.Section(text[curr..next], body)], tail, cell)
    decreases |text|, 1
  {
    hide G.Parse, G.MatchAt, Build, Growing, Settled, SettledBut, NamesClean, Awaiting;
    var beginning := next + 5;
    var ending := StrStr(text, beginning, text[curr - 7..beginning]);
    stop := ending + (next + 12 - curr);
    var inner := None;
    if ending != |text| {
      inner := Some(text[beginning..ending]);
    }
    code, d' := FillSection(t, cell, tail, inner, text[curr..next], d, p, c, pre, |text|);
    body := if code == TPL_OK then G.Parse(text[beginning..ending], 0, []).pieces else [];
  }

  /** The section branch of tpl_construct. */
  method ConstructSection(t: Template, tail: Link, last: SectionCell?, text: string, from: nat, curr: nat, next: nat,
                          ghost d: Dom, ghost p: Path, ghost done: seq<G.Piece>)
    returns (code: int, tail': Link, cell: SectionCell?, stop: nat, ghost d': Dom, ghost done': seq<G.Piece>)
    requires Building(t, d, p, text, done, from, tail, last)
    requires curr >= 7 && G.NextLeft(text, from) == curr - 2 < |text| && G.NextRight(text, curr) == next < |text|
    requires G.TagAt(text, curr - 7, next)
    modifies d.world
    ensures fresh(d'.world - d.world) && t.tpl == old(t.tpl) && t.parent == old(t.parent)
    ensures code == TPL_OK ==> from < stop && Building(t, d', p, text, done', stop, tail', cell)
    ensures code != TPL_OK ==> code == TPL_SYNTAX_ERROR && !G.Parse(text, 0, []).ok
    ensures code != TPL_OK ==> Growing(t, d', p, G.Parse(text, 0, []).pieces, tail', cell)
    decreases |text|, 2
  {
    hide G.Parse, G.NextLeft, G.NextRight, G.TextPieces, G.MatchAt, G.TagAt;
    hide Build, Reached, BodyReached, Growing, Settled, SettledBut, NamesClean, BodyClean, Awaiting, FirstMatch, KeyOf, G.Find;
    ghost var names := Build(p, done)[p].names;
    SectionAhead(text, done, from, curr, next, names);
    ghost var pre := done + G.TextPieces(text[from..curr - 7]);
    NamesText(p, done, text[from..curr - 7]);
    code, stop := TPL_SYNTAX_ERROR, 0;
    tail', d', done' := GrowText(t, tail, last, text[from..curr - 7], d, p, done);
    cell, d' := GrowSection(t, tail', last, text[curr..next], d', p, done');
    if cell == null {
      cell := last;
      return;
    }
    BodyFound(text, pre, curr, next, names);
    ghost var body;
    code, stop, body, d' := ConstructBody(t, cell, tail', text, curr, next, d', p, Child(p, |names|), pre);
    if code == TPL_OK {
      done' := pre + [G.Section(text[curr..next], body)];
      NamesSnoc(p, pre, G.Section(text[curr..next], body));
    }
  }

  lemma {:induction false} SectionAhead(text: string, done: seq<G.Piece>, from: nat, curr: nat, next: nat, names: seq<Key>)
    requires Reached(text, done, from, names) && NamesClean(text, from, names) && curr >= 7
    requires G.NextLeft(text, from) == curr - 2 < |text| && G.NextRight(text, curr) == next < |text| && G.TagAt(text, curr - 7, next)
    ensures from <= curr - 7 && CleanName(text[curr..next])
    ensures var pre := done + G.TextPieces(text[from..curr - 7]);
            if FirstMatch(names, KeyOf(text[curr..next])) < |names| then G.Parse(text, 0, []) == G.Parsed(false, pre)
            else BodyReached(text, pre, curr, next, names)
  {
    hide G.Parse, G.TextPieces, G.MatchAt, G.NextLeft, G.NextRight, NamesClean, BodyClean, CleanName;
    CleanTag(text, from, curr - 7, next, names);
    ReachedTag(text, done, from, curr - 7, next, names);
  }

  /** The field branch of tpl_construct. */
  method ConstructField(t: Template, tail: Link, last: SectionCell?, text: string, from: nat, curr: nat, next: nat,
                        ghost d: Dom, ghost p: Path, ghost done: seq<G.Piece>)
    returns (tail': Link, ghost d': Dom, ghost done': seq<G.Piece>)
    requires Building(t, d, p, text, done, from, tail, last)
    requires curr >= 2 && G.NextLeft(text, from) == curr - 2 < |text| && G.NextRight(text, curr) == next < |text|
    requires !G.InSectionTag(text, curr - 2, next)
    modifies d.world
    ensures fresh(d'.world - d.world) && t.tpl == old(t.tpl) && t.parent == old(t.parent)
    ensures Building(t, d', p, text, done', next + 1, tail', last)
  {
    hide G.Parse, G.NextLeft, G.NextRight, G.TextPieces, G.InSectionTag, Build, Reached, Growing, Settled, NamesClean;
    ReachedField(text, done, from, curr - 2, next, Build(p, done)[p].names);
    CleanField(text, from, curr - 2, next, Build(p, done)[p].names);
    NamesText(p, done, text[from..curr - 2]);
    ghost var pre, name := done + G.TextPieces(text[from..curr - 2]), text[curr..next];
    NamesSnoc(p, pre, G.Field(name));
    tail', d', done' := GrowText(t, tail, last, text[from..curr - 2], d, p, done);
    tail', d' := GrowField(t, tail', last, text[curr..next], d', p, done');
    done' := pre + [G.Field(name)];
  }

  /** The body of its loop: the tag whose left delimiter is at `at`. */
  method ConstructTag(t: Template, before: char, tail: Link, last: SectionCell?, text: string, from: nat, at: nat,
                      ghost d: Dom, ghost p: Path, ghost done: seq<G.Piece>)
    returns (code: int, tail': Link, last': SectionCell?, stop: nat, ghost d': Dom, ghost done': seq<G.Piece>)
    requires Building(t, d, p, text, done, from, tail, last)
    requires !Misread(text, before) && at == G.NextLeft(text, from) < |text|
    modifies d.world
    ensures t in d'.world && fresh(d'.world - d.world) && t.tpl == old(t.tpl) && t.parent == old(t.parent)
    ensures code == TPL_OK ==> from < stop <= |text| && Building(t, d', p, text, done', stop, tail', last')
    ensures code != TPL_OK ==> code == TPL_SYNTAX_ERROR && !G.Parse(text, 0, []).ok
    ensures code != TPL_OK ==> Growing(t, d', p, G.Parse(text, 0, []).pieces, tail', last')
    decreases |text|, 3
  {
    hide G.Parse, G.TextPieces, Build, Wf, Abs, Settled, NamesClean, SeesTag, HeadlessStart;
    tail', last', stop, d', done' := tail, last, from, d, done;
    var curr := at + 2;
    var next := StrStr(text, curr, G.RIGHT);
    FindRight(text, curr);
    if next == |text| {
      ReachedOpen(text, done, from, at, Build(p, done)[p].names);
      code := TPL_SYNTAX_ERROR;
    } else {
      GuardExact(text, before, curr, next);
      if SeesTag(text, before, curr, next) {
        code, tail', last', stop, d', done' := ConstructSection(t, tail, last, text, from, curr, next, d, p, done);
      } else {
        code, stop := TPL_OK, next + 1;
        tail', d', done' := ConstructField(t, tail, last, text, from, curr, next, d, p, done);
      }
    }
  }

  /** The text behind the last tag. */
  method ConstructRest(t: Template, tail: Link, last: SectionCell?, text: string, from: nat,
                       ghost d: Dom, ghost p: Path, ghost done: seq<G.Piece>)
    returns (tail': Link, ghost d': Dom)
    requires from <= |text| && Building(t, d, p, text, done, from, tail, last) && G.NextLeft(text, from) == |text|
    modifies d.world
    ensures fresh(d'.world - d.world) && t.tpl == old(t.tpl) && t.parent == old(t.parent)
    ensures G.Parse(text, 0, []).ok && Growing(t, d', p, G.Parse(text, 0, []).pieces, tail', last) && Settled(d', [])
  {
    hide G.Parse, G.TextPieces, G.NextLeft, Build, Growing, Settled, NamesClean;
    ghost var done';
    ReachedEnd(text, done, from, Build(p, done)[p].names);
    tail', d', done' := GrowText(t, tail, last, text[from..], d, p, done);
  }

  /** tpl_construct: the template stands for the pieces of the text, up to the first error if there is one. */
  method Construct(t: Template, before: char, text: string, ghost p: Path) returns (code: int, ghost d: Dom)
    requires t.Blank(p) && !Misread(text, before) && NamesClean(text, 0, [])
    modifies t
    ensures Wf(d) && d.root == p && p in d.st && d.st[p] == t && t in d.world && fresh(d.world - {t})
    ensures Abs(d) == Build(p, G.Parse(text, 0, []).pieces) && Unheld(d) == {}
    ensures code == if G.Parse(text, 0, []).ok then TPL_OK else TPL_SYNTAX_ERROR
    ensures code == TPL_OK ==> Settled(d, [])
    ensures t.tpl == old(t.tpl) && t.parent == old(t.parent)
    decreases |text|, 4
  {
    hide G.Parse, G.NextLeft, G.Find, Build, Settled, Building, NamesClean, Abs, Wf, Misread, Template.Blank;
    d := Dom(p, map[p := t], {t});
    BuildingStarts(t, d, p, text);
    var tail := HeadOf(t);
    var last: SectionCell? := null;
    var from := 0;
    ghost var done: seq<G.Piece> := [];
    code := TPL_OK;
    var at := StrStr(text, from, G.LEFT);
    FindLeft(text, from);
    while code == TPL_OK && at != |text|
      invariant t in d.world && fresh(d.world - {t}) && t.tpl == old(t.tpl) && t.parent == old(t.parent)
      invariant code == TPL_OK ==> from <= |text| && Building(t, d, p, text, done, from, tail, last) && at == G.NextLeft(text, from)
      invariant code != TPL_OK ==> code == TPL_SYNTAX_ERROR && !G.Parse(text, 0, []).ok && Growing(t, d, p, G.Parse(text, 0, []).pieces, tail, last)
      decreases if code == TPL_OK then |text| - from else -1
    {
      code, tail, last, from, d, done := ConstructTag(t, before, tail, last, text, from, at, d, p, done);
      if code == TPL_OK {
        at := StrStr(text, from, G.LEFT);
        FindLeft(text, from);
      }
    }
    if code == TPL_OK {
      tail, d := ConstructRest(t, tail, last, text, from, d, p, done);
    }
  }
}
