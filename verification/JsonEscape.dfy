/** Escaping log text for the JSON strings of the log stream. Text is a sequence of
    characters; only ASCII characters are ever replaced. */
module JsonEscape {

  /** Every occurrence of one character replaced, left to right. */
  function ReplaceAll(s: string, c: char, text: string): string {
    if s == "" then ""
    else (if s[0] == c then text else [s[0]]) + ReplaceAll(s[1..], c, text)
  }

  function EscapeJSON(s: string): string {
    var s := ReplaceAll(s, '\\', "\\\\");
    var s := ReplaceAll(s, '"', "\\\"");
    var s := ReplaceAll(s, '\n', "\\n");
    var s := ReplaceAll(s, '\r', "\\r");
    ReplaceAll(s, '\t', "\\t")
  }

  /** The escape pairs: what stands behind the backslash, and what the pair stands for. */
  const LETTERS := "\\\"nrt"

  function Meaning(letter: char): char {
    match letter
    case 'n' => '\n'
    case 'r' => '\r'
    case 't' => '\t'
    case _ => letter
  }

  function EscapeChar(c: char): (r: string)
    ensures |r| == 1 ==> r == [c] && c !in "\\\"\n\r\t"
    ensures |r| != 1 ==> |r| == 2 && r[0] == '\\' && r[1] in LETTERS && Meaning(r[1]) == c
  {
    match c
    case '\\' => "\\\\"
    case '"' => "\\\""
    case '\n' => "\\n"
    case '\r' => "\\r"
    case '\t' => "\\t"
    case _ => [c]
  }

  function Escape(s: string): string {
    if s == "" then "" else EscapeChar(s[0]) + Escape(s[1..])
  }

  lemma {:induction false} ReplaceAllConcat(a: string, b: string, c: char, text: string)
    ensures ReplaceAll(a + b, c, text) == ReplaceAll(a, c, text) + ReplaceAll(b, c, text)
  {
    if a == "" {
      assert a + b == b;
    } else {
      assert (a + b)[1..] == a[1..] + b;
      ReplaceAllConcat(a[1..], b, c, text);
    }
  }

  lemma EscapeJSONConcat(a: string, b: string)
    ensures EscapeJSON(a + b) == EscapeJSON(a) + EscapeJSON(b)
  {
    ReplaceAllConcat(a, b, '\\', "\\\\");
    var a1, b1 := ReplaceAll(a, '\\', "\\\\"), ReplaceAll(b, '\\', "\\\\");
    ReplaceAllConcat(a1, b1, '"', "\\\"");
    var a2, b2 := ReplaceAll(a1, '"', "\\\""), ReplaceAll(b1, '"', "\\\"");
    ReplaceAllConcat(a2, b2, '\n', "\\n");
    var a3, b3 := ReplaceAll(a2, '\n', "\\n"), ReplaceAll(b2, '\n', "\\n");
    ReplaceAllConcat(a3, b3, '\r', "\\r");
    var a4, b4 := ReplaceAll(a3, '\r', "\\r"), ReplaceAll(b3, '\r', "\\r");
    ReplaceAllConcat(a4, b4, '\t', "\\t");
  }

  lemma ReplaceOne(d: char, c: char, text: string)
    ensures ReplaceAll([d], c, text) == if d == c then text else [d]
  {
    assert [d][1..] == "";
  }

  lemma ReplaceTwo(d: char, e: char, c: char, text: string)
    ensures d != c && e != c ==> ReplaceAll([d, e], c, text) == [d, e]
    ensures ReplaceAll([c, c], c, text) == text + text
    ensures d != c ==> ReplaceAll([d, c], c, text) == [d] + text
  {
    ReplaceOne(d, c, text);
    ReplaceOne(e, c, text);
    ReplaceOne(c, c, text);
    ReplaceAllConcat([d], [e], c, text);
    ReplaceAllConcat([d], [c], c, text);
    ReplaceAllConcat([c], [c], c, text);
    assert [d] + [e] == [d, e] && [c] + [c] == [c, c] && [d] + [c] == [d, c];
  }

  lemma EscapeJSONChar(c: char)
    ensures EscapeJSON([c]) == EscapeChar(c)
  {
    ReplaceOne(c, '\\', "\\\\");
    ReplaceOne(c, '"', "\\\"");
    ReplaceOne(c, '\n', "\\n");
    ReplaceOne(c, '\r', "\\r");
    ReplaceOne(c, '\t', "\\t");
    ReplaceTwo('\\', '\\', '"', "\\\"");
    ReplaceTwo('\\', '\\', '\n', "\\n");
    ReplaceTwo('\\', '\\', '\r', "\\r");
    ReplaceTwo('\\', '\\', '\t', "\\t");
    ReplaceTwo('\\', '"', '\n', "\\n");
    ReplaceTwo('\\', '"', '\r', "\\r");
    ReplaceTwo('\\', '"', '\t', "\\t");
    ReplaceTwo('\\', 'n', '\r', "\\r");
    ReplaceTwo('\\', 'n', '\t', "\\t");
    ReplaceTwo('\\', 'r', '\t', "\\t");
  }

  /** The five passes do what one pass over the characters does: no pass touches what an
      earlier one has written. */
  lemma {:induction false} FivePassesAreOne(s: string)
    ensures EscapeJSON(s) == Escape(s)
  {
    if s != "" {
      assert s == [s[0]] + s[1..];
      EscapeJSONConcat([s[0]], s[1..]);
      EscapeJSONChar(s[0]);
      FivePassesAreOne(s[1..]);
    }
  }

  /** Text in which the five special characters occur only inside escape pairs. */
  predicate WellEscaped(t: string) {
    t == "" ||
    if t[0] == '\\' then |t| > 1 && t[1] in LETTERS && WellEscaped(t[2..])
    else t[0] !in "\"\n\r\t" && WellEscaped(t[1..])
  }

  function Unescape(t: string): string
    requires WellEscaped(t)
  {
    if t == "" then ""
    else if t[0] == '\\' then [Meaning(t[1])] + Unescape(t[2..])
    else [t[0]] + Unescape(t[1..])
  }

  /** Every text survives the round trip, and so does every well-escaped one: escaping is
      a bijection onto the well-escaped texts. */
  lemma {:induction false} UnescapeInverts(s: string)
    ensures WellEscaped(Escape(s)) && Unescape(Escape(s)) == s
  {
    if s != "" {
      var e := EscapeChar(s[0]);
      var t := Escape(s[1..]);
      UnescapeInverts(s[1..]);
      assert (e + t)[|e|..] == t;
      assert s == [s[0]] + s[1..];
    }
  }

  lemma {:induction false} EscapeInverts(t: string)
    requires WellEscaped(t)
    ensures Escape(Unescape(t)) == t
  {
    if t != "" {
      var k := if t[0] == '\\' then 2 else 1;
      var s := Unescape(t);
      EscapeInverts(t[k..]);
      assert s[1..] == Unescape(t[k..]);
      assert t == t[..k] + t[k..];
      assert EscapeChar(s[0]) == t[..k];
    }
  }

  lemma EscapeIsBijective(t: string)
    ensures WellEscaped(t) <==> exists s :: EscapeJSON(s) == t
    ensures forall s, s' | EscapeJSON(s) == EscapeJSON(s') :: s == s'
  {
    if WellEscaped(t) {
      EscapeInverts(t);
      FivePassesAreOne(Unescape(t));
      assert EscapeJSON(Unescape(t)) == t;
    }
    forall s
      ensures WellEscaped(EscapeJSON(s)) && Unescape(EscapeJSON(s)) == s
    {
      FivePassesAreOne(s);
      UnescapeInverts(s);
    }
  }

  datatype Read = Text(text: string, rest: string) | Malformed

  /** How section 7 of RFC 8259 reads a string behind its opening quotation mark: up to
      the closing one, with control characters refused and the two-character escapes
      replaced. The \u escapes, which EscapeJSON never writes, are malformed here. */
  function ReadString(t: string): Read {
    if t == "" || t[0] < ' ' then Malformed
    else if t[0] == '"' then Text("", t[1..])
    else if t[0] != '\\' then Prepend(t[0], ReadString(t[1..]))
    else if |t| == 1 then Malformed
    else
      match t[1]
      case '"' => Prepend('"', ReadString(t[2..]))
      case '\\' => Prepend('\\', ReadString(t[2..]))
      case '/' => Prepend('/', ReadString(t[2..]))
      case 'b' => Prepend(8 as char, ReadString(t[2..]))
      case 'f' => Prepend(12 as char, ReadString(t[2..]))
      case 'n' => Prepend('\n', ReadString(t[2..]))
      case 'r' => Prepend('\r', ReadString(t[2..]))
      case 't' => Prepend('\t', ReadString(t[2..]))
      case _ => Malformed
  }

  function Prepend(c: char, r: Read): Read {
    if r.Text? then Text([c] + r.text, r.rest) else Malformed
  }

  /** Characters EscapeJSON writes in a form JSON does not allow: control characters other
      than newline, carriage return and tab, which it copies. */
  predicate CopiedControl(c: char) {
    c < ' ' && c !in "\n\r\t"
  }

  predicate Representable(s: string) {
    forall i :: 0 <= i < |s| ==> !CopiedControl(s[i])
  }

  lemma RepresentableFromFirst(s: string)
    requires s != ""
    ensures Representable(s) <==> !CopiedControl(s[0]) && Representable(s[1..])
  {
    forall i | 1 <= i < |s| && Representable(s[1..])
      ensures !CopiedControl(s[i])
    {
      assert s[1..][i - 1] == s[i];
    }
  }

  /** A reader of the surrounding JSON gets back exactly the text and stops exactly behind
      its closing quotation mark, unless the text holds another control character: then,
      and only then, the JSON is malformed. */
  lemma ReaderRecovers(s: string, rest: string)
    ensures ReadString(EscapeJSON(s) + "\"" + rest) == if Representable(s) then Text(s, rest) else Malformed
  {
    FivePassesAreOne(s);
    ReadEscaped(s, rest);
  }

  lemma {:induction false} ReadEscaped(s: string, rest: string)
    ensures ReadString(Escape(s) + "\"" + rest) == if Representable(s) then Text(s, rest) else Malformed
  {
    if s == "" {
      assert Escape(s) + "\"" + rest == "\"" + rest;
      assert ("\"" + rest)[1..] == rest;
    } else {
      ReadEscaped(s[1..], rest);
      var tail := Escape(s[1..]) + "\"" + rest;
      assert Escape(s) + "\"" + rest == EscapeChar(s[0]) + tail;
      ReadOne(s[0], tail);
      RepresentableFromFirst(s);
      assert s == [s[0]] + s[1..];
    }
  }

  lemma ReadOne(c: char, tail: string)
    ensures ReadString(EscapeChar(c) + tail) == if CopiedControl(c) then Malformed else Prepend(c, ReadString(tail))
  {
    var t := EscapeChar(c) + tail;
    assert t[|EscapeChar(c)|..] == tail;
  }
}
