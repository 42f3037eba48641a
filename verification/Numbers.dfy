/** Numbers in fields and in the HTTP header. */
module TplNumbers {
  import opened TplNames
  import opened TplDocument
  import opened TplHeap
  import opened TplContent
  import opened TplSetting
  import opened TplLifecycle
  import D = TplDecimal

  const INITIAL_FIELD_LEN: nat := 31

  const HTTP_HEADER_START: string := "HTTP/1.1 200 OK\r\n" + "Content-Type: text/html\r\n" + "Content-Length: "
  const HTTP_HEADER_END: string := "\r\n\r\n"

  lemma {:induction false} FitsField(v: int)
    requires D.INT_MIN <= v <= D.INT_MAX
    ensures |D.Written(v, true)| <= 11 && |D.Written(v, false)| <= 10
  {
    D.TenDigits(D.Abs(v));
  }

  /** The value a setter leaves in a field's buffer: never cut off. */
  method NumberText(val: int, signed: bool) returns (text: string)
    requires D.INT_MIN <= val <= D.INT_MAX
    ensures text == D.Written(val, signed)
  {
    FitsField(val);
    var buffer := new char[INITIAL_FIELD_LEN + 1];
    var len := D.IntToString(buffer, 0, INITIAL_FIELD_LEN, val, signed);
    text := buffer[..len];
    assert D.Written(val, signed)[..len] == D.Written(val, signed);
  }

  /** tpl_set_field_int: the field holds the numeral that reads back to the value. */
  method SetFieldInt(tpl: Template, key: string, val: int, ghost d: Dom, ghost sel: Path)
    requires Selected(d, sel) && d.st[[]] == tpl && CleanName(key) && D.INT_MIN <= val <= D.INT_MAX
    modifies d.world
    ensures Selected(d, sel) && Shape(d) == old(Shape(d))
    ensures FieldSet(old(Abs(d)), Abs(d), {sel}, KeyOf(key), D.IntText(val))
    ensures D.IntValue(D.IntText(val)) == val
  {
    D.WrittenSigned(val);
    D.IntReadsBack(val);
    var text := NumberText(val, true);
    SetField(tpl, key, text, d, sel);
  }

  /** tpl_set_field_uint: right exactly up to 2 to the power 31. */
  method SetFieldUint(tpl: Template, key: string, val: nat, ghost d: Dom, ghost sel: Path) returns (ghost text: string)
    requires Selected(d, sel) && d.st[[]] == tpl && CleanName(key) && val <= D.UINT_MAX
    modifies d.world
    ensures Selected(d, sel) && Shape(d) == old(Shape(d))
    ensures FieldSet(old(Abs(d)), Abs(d), {sel}, KeyOf(key), text)
    ensures text == D.Decimal(val) <==> val <= 0x8000_0000
  {
    D.UnsignedWritten(val);
    var written := NumberText(D.Cast(val), false);
    text := written;
    SetField(tpl, key, written, d, sel);
  }

  /** The response put together: header, length, end of header, and the content with its terminator. */
  method Assemble(start: string, stop: string, content: array<char>, contentLen: nat, ghost body: string)
    returns (response: array<char>, len: nat)
    requires content[..] == body + ['\0'] && contentLen == |body| <= D.INT_MAX
    ensures fresh(response) && len < response.Length
    ensures response[..len + 1] == start + D.Decimal(|body|) + stop + (body + ['\0'])
    ensures len == |start| + |D.Decimal(|body|)| + |stop| + |body|
  {
    hide D.Decimal, D.Written;
    D.TenDigits(|body|);
    WrittenLength(|body|);
    var digits := 10;
    response := new char[contentLen + |start| + 1 + |stop| + 1 + digits + 1];
    ghost var numeral := D.Decimal(|body|);
    assert response[..0] == "";
    var end := CopyText(response, 0, start);
    NoFront(start);
    assert response[..end] == start;
    digits := D.IntToString(response, end, digits, contentLen, false);
    assert numeral[..digits] == numeral;
    end := end + digits;
    assert response[..end] == start + numeral;
    end := CopyText(response, end, stop);
    assert response[..end] == start + numeral + stop;
    end := CopyText(response, end, content[..]);
    len := end - 1;
  }

  lemma {:induction false} NoFront(s: string)
    ensures "" + s == s
  {
  }

  lemma {:induction false} WithoutEnd(r: string, head: string, body: string)
    requires r == head + (body + ['\0'])
    ensures |r| > 0 && r[..|r| - 1] == head + body && r[|r| - 1] == '\0'
  {
  }

  lemma {:induction false} WrittenLength(n: nat)
    ensures D.Written(n, false) == D.Decimal(n)
  {
    D.WrittenSigned(n);
  }

  // ----- reading a response -----

  predicate EmptyLine(r: string, i: nat) {
    i + 4 <= |r| && r[i..i + 4] == "\r\n\r\n"
  }

  /** The first empty line of a message. */
  predicate HeadEnds(r: string, i: nat) {
    EmptyLine(r, i) && forall k | 0 <= k < i :: !EmptyLine(r, k)
  }

  /** A client that reads up to the first empty line, and then as many bytes as the line before it announces, has
      the body and nothing else. */
  ghost predicate Message(r: string, body: string) {
    exists i: nat, digits {:trigger HeadEnds(r, i), D.Value(digits)} ::
      && HeadEnds(r, i) && r[i + 4..] == body
      && r[..i] == "HTTP/1.1 200 OK\r\n" + "Content-Type: text/html\r\n" + "Content-Length: " + digits
      && digits != "" && (forall c | c in digits :: '0' <= c <= '9') && D.Value(digits) == |body|
  }

  lemma {:induction false} StartBreaks(k: nat)
    requires k < |HTTP_HEADER_START|
    ensures HTTP_HEADER_START[k] == '\r' ==> k + 2 < |HTTP_HEADER_START| && HTTP_HEADER_START[k + 2] == 'C'
  {
    assert forall x | 0 <= x < 17 :: "HTTP/1.1 200 OK\r\n"[x] == '\r' ==> x == 15;
    assert forall x | 0 <= x < 25 :: "Content-Type: text/html\r\n"[x] == '\r' ==> x == 23;
    assert forall x | 0 <= x < 16 :: "Content-Length: "[x] != '\r';
  }

  lemma {:induction false} EmptyLineMeans(r: string, k: nat)
    ensures EmptyLine(r, k) ==> r[k] == r[k + 2] == '\r'
  {
    if EmptyLine(r, k) {
      assert r[k] == r[k..k + 4][0] && r[k + 2] == r[k..k + 4][2];
    }
  }

  lemma {:induction false} StartAt(digits: string, k: nat)
    ensures k < |HTTP_HEADER_START| ==> (HTTP_HEADER_START + digits)[k] == HTTP_HEADER_START[k]
  {
  }

  /** Line breaks in the first lines of the header are followed by letters. */
  lemma {:induction false} NoEmptyLine(digits: string, r: string, i: nat, k: nat)
    requires forall c | c in digits :: '0' <= c <= '9'
    requires k < i <= |r| && r[..i] == HTTP_HEADER_START + digits
    ensures !EmptyLine(r, k)
  {
    if k < |HTTP_HEADER_START| {
      StartBreaks(k);
      StartAt(digits, k);
      StartAt(digits, k + 2);
    } else {
      assert digits[k - |HTTP_HEADER_START|] in digits;
    }
    assert r[k] == r[..i][k];
    EmptyLineMeans(r, k);
    assert k + 2 < i ==> r[k + 2] == r[..i][k + 2];
  }

  lemma {:induction false} ReadsBack(r: string, body: string)
    requires r == HTTP_HEADER_START + D.Decimal(|body|) + HTTP_HEADER_END + body
    ensures Message(r, body)
  {
    hide D.Decimal, D.Value;
    var digits := D.Decimal(|body|);
    var i := |HTTP_HEADER_START| + |digits|;
    D.DecimalReadsBack(|body|);
    assert r[..i] == HTTP_HEADER_START + digits && r[i..i + 4] == HTTP_HEADER_END && r[i + 4..] == body;
    forall k | 0 <= k < i
      ensures !EmptyLine(r, k)
    {
      NoEmptyLine(digits, r, i, k);
    }
    assert HeadEnds(r, i);
  }

  /** tpl_http_write up to the write itself: a message that reads back to the rendering. */
  method HttpResponse(t: Template, ghost d: Dom, ghost p: Path) returns (response: array<char>, len: nat)
    requires Wf(d) && p in d.st && d.st[p] == t && |Render(Abs(d), p)| <= D.INT_MAX
    ensures fresh(response) && len < response.Length
    ensures response[..len + 1] == HTTP_HEADER_START + D.Decimal(|Render(Abs(d), p)|) + HTTP_HEADER_END + (Render(Abs(d), p) + ['\0'])
    ensures len == |HTTP_HEADER_START| + |D.Decimal(|Render(Abs(d), p)|)| + |HTTP_HEADER_END| + |Render(Abs(d), p)|
    ensures Message(response[..len], Render(Abs(d), p)) && response[len] == '\0'
  {
    hide D.Decimal, Local, RenderTo, Message;
    ghost var body := Render(Abs(d), p);
    var content, contentLen := Output(t, d, p);
    response, len := Assemble(HTTP_HEADER_START, HTTP_HEADER_END, content, contentLen, body);
    WithoutEnd(response[..len + 1], HTTP_HEADER_START + D.Decimal(|body|) + HTTP_HEADER_END, body);
    assert response[..len + 1][..len] == response[..len];
    ReadsBack(response[..len], body);
  }
}
