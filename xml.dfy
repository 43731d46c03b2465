/**
 * `export/exporter.py`, XML side: `_safe_string` (escaping with the five
 * predefined entities of section 4.6 of XML 1.0, Fifth Edition) and the text
 * written by `_export_to_xml_manual`.
 */
module XmlExport {
  import opened Text
  import opened PyDict
  import opened Models
  import opened Exporter

  // ---------------------------------------------------------------------------
  // Escaping

  /** The predefined entity for one character, or the character itself. */
  function EscapeChar(c: char): string
  {
    if c == '&' then "&amp;"
    else if c == '<' then "&lt;"
    else if c == '>' then "&gt;"
    else if c == '"' then "&quot;"
    else if c == '\'' then "&apos;"
    else [c]
  }

  /** Character-by-character escaping: the reference the chained replaces are measured against. */
  function EscapeEach(s: string): string
    decreases |s|
  {
    if |s| == 0 then "" else EscapeChar(s[0]) + EscapeEach(s[1..])
  }

  /** The chain of `str.replace` calls, `&` first. */
  function Escape(s: string): string
  {
    ReplaceAll(ReplaceAll(ReplaceAll(ReplaceAll(ReplaceAll(
      s, '&', "&amp;"), '<', "&lt;"), '>', "&gt;"), '"', "&quot;"), '\'', "&apos;")
  }

  lemma EscapeConcat(a: string, b: string)
    ensures Escape(a + b) == Escape(a) + Escape(b)
  {
    var a1, b1 := ReplaceAll(a, '&', "&amp;"), ReplaceAll(b, '&', "&amp;");
    ReplaceAllConcat(a, b, '&', "&amp;");
    var a2, b2 := ReplaceAll(a1, '<', "&lt;"), ReplaceAll(b1, '<', "&lt;");
    ReplaceAllConcat(a1, b1, '<', "&lt;");
    var a3, b3 := ReplaceAll(a2, '>', "&gt;"), ReplaceAll(b2, '>', "&gt;");
    ReplaceAllConcat(a2, b2, '>', "&gt;");
    var a4, b4 := ReplaceAll(a3, '"', "&quot;"), ReplaceAll(b3, '"', "&quot;");
    ReplaceAllConcat(a3, b3, '"', "&quot;");
    ReplaceAllConcat(a4, b4, '\'', "&apos;");
  }

  lemma ReplaceAllSingle(x: char, c: char, rep: string)
    ensures ReplaceAll([x], c, rep) == if x == c then rep else [x]
  {
    assert [x][1..] == [];
  }

  /** Each of the five special characters is replaced by its entity and by nothing else. */
  lemma EscapeAmp(c: char)
    requires c == '&'
    ensures Escape([c]) == "&amp;"
  {
    var s1 := ReplaceAll([c], '&', "&amp;");
    ReplaceAllSingle(c, '&', "&amp;");
    assert s1 == "&amp;";
    var s2 := ReplaceAll(s1, '<', "&lt;");
    ReplaceAllAbsent(s1, '<', "&lt;");
    assert s2 == "&amp;";
    var s3 := ReplaceAll(s2, '>', "&gt;");
    ReplaceAllAbsent(s2, '>', "&gt;");
    assert s3 == "&amp;";
    var s4 := ReplaceAll(s3, '"', "&quot;");
    ReplaceAllAbsent(s3, '"', "&quot;");
    assert s4 == "&amp;";
    var s5 := ReplaceAll(s4, '\'', "&apos;");
    ReplaceAllAbsent(s4, '\'', "&apos;");
    assert s5 == "&amp;";
  }

  lemma EscapeLt(c: char)
    requires c == '<'
    ensures Escape([c]) == "&lt;"
  {
    var s1 := ReplaceAll([c], '&', "&amp;");
    ReplaceAllSingle(c, '&', "&amp;");
    assert s1 == [c];
    var s2 := ReplaceAll(s1, '<', "&lt;");
    ReplaceAllSingle(c, '<', "&lt;");
    assert s2 == "&lt;";
    var s3 := ReplaceAll(s2, '>', "&gt;");
    ReplaceAllAbsent(s2, '>', "&gt;");
    assert s3 == "&lt;";
    var s4 := ReplaceAll(s3, '"', "&quot;");
    ReplaceAllAbsent(s3, '"', "&quot;");
    assert s4 == "&lt;";
    var s5 := ReplaceAll(s4, '\'', "&apos;");
    ReplaceAllAbsent(s4, '\'', "&apos;");
    assert s5 == "&lt;";
  }

  lemma EscapeGt(c: char)
    requires c == '>'
    ensures Escape([c]) == "&gt;"
  {
    var s1 := ReplaceAll([c], '&', "&amp;");
    ReplaceAllSingle(c, '&', "&amp;");
    assert s1 == [c];
    var s2 := ReplaceAll(s1, '<', "&lt;");
    ReplaceAllSingle(c, '<', "&lt;");
    assert s2 == [c];
    var s3 := ReplaceAll(s2, '>', "&gt;");
    ReplaceAllSingle(c, '>', "&gt;");
    assert s3 == "&gt;";
    var s4 := ReplaceAll(s3, '"', "&quot;");
    ReplaceAllAbsent(s3, '"', "&quot;");
    assert s4 == "&gt;";
    var s5 := ReplaceAll(s4, '\'', "&apos;");
    ReplaceAllAbsent(s4, '\'', "&apos;");
    assert s5 == "&gt;";
  }

  lemma EscapeQuot(c: char)
    requires c == '"'
    ensures Escape([c]) == "&quot;"
  {
    var s1 := ReplaceAll([c], '&', "&amp;");
    ReplaceAllSingle(c, '&', "&amp;");
    assert s1 == [c];
    var s2 := ReplaceAll(s1, '<', "&lt;");
    ReplaceAllSingle(c, '<', "&lt;");
    assert s2 == [c];
    var s3 := ReplaceAll(s2, '>', "&gt;");
    ReplaceAllSingle(c, '>', "&gt;");
    assert s3 == [c];
    var s4 := ReplaceAll(s3, '"', "&quot;");
    ReplaceAllSingle(c, '"', "&quot;");
    assert s4 == "&quot;";
    var s5 := ReplaceAll(s4, '\'', "&apos;");
    ReplaceAllAbsent(s4, '\'', "&apos;");
    assert s5 == "&quot;";
  }

  lemma EscapeApos(c: char)
    requires c == '\''
    ensures Escape([c]) == "&apos;"
  {
    var s1 := ReplaceAll([c], '&', "&amp;");
    ReplaceAllSingle(c, '&', "&amp;");
    assert s1 == [c];
    var s2 := ReplaceAll(s1, '<', "&lt;");
    ReplaceAllSingle(c, '<', "&lt;");
    assert s2 == [c];
    var s3 := ReplaceAll(s2, '>', "&gt;");
    ReplaceAllSingle(c, '>', "&gt;");
    assert s3 == [c];
    var s4 := ReplaceAll(s3, '"', "&quot;");
    ReplaceAllSingle(c, '"', "&quot;");
    assert s4 == [c];
    var s5 := ReplaceAll(s4, '\'', "&apos;");
    ReplaceAllSingle(c, '\'', "&apos;");
    assert s5 == "&apos;";
  }

  lemma EscapeOrdinary(c: char)
    requires c != '&' && c != '<' && c != '>' && c != '"' && c != '\''
    ensures Escape([c]) == [c]
  {
    ReplaceAllSingle(c, '&', "&amp;");
    ReplaceAllSingle(c, '<', "&lt;");
    ReplaceAllSingle(c, '>', "&gt;");
    ReplaceAllSingle(c, '"', "&quot;");
    ReplaceAllSingle(c, '\'', "&apos;");
  }

  lemma EscapeOne(c: char)
    ensures Escape([c]) == EscapeChar(c)
  {
    if c == '&' {
      EscapeAmp(c);
    } else if c == '<' {
      EscapeLt(c);
    } else if c == '>' {
      EscapeGt(c);
    } else if c == '"' {
      EscapeQuot(c);
    } else if c == '\'' {
      EscapeApos(c);
    } else {
      EscapeOrdinary(c);
    }
  }

  /**
   * Replacing `&` first means no entity introduced by a later replace is
   * escaped again: the chain escapes each character exactly once.
   */
  lemma {:induction false} EscapeIsCharwise(s: string)
    ensures Escape(s) == EscapeEach(s)
    decreases |s|
  {
    if |s| == 0 {
    } else {
      assert s == [s[0]] + s[1..];
      EscapeConcat([s[0]], s[1..]);
      EscapeOne(s[0]);
      EscapeIsCharwise(s[1..]);
    }
  }

  /** None of `<`, `>`, `"` and `'` survives escaping. */
  ghost predicate NoMarkup(s: string)
  {
    forall i :: 0 <= i < |s| ==> s[i] != '<' && s[i] != '>' && s[i] != '"' && s[i] != '\''
  }

  lemma EscapeCharNoMarkup(c: char)
    ensures NoMarkup(EscapeChar(c))
  {
    var h := EscapeChar(c);
    if c == '&' || c == '<' || c == '>' || c == '"' || c == '\'' {
      assert h[0] == '&' && forall i :: 1 <= i < |h| ==> 'a' <= h[i] <= 'z' || h[i] == ';';
    }
  }

  lemma {:induction false} EscapeEachNoMarkup(s: string)
    ensures NoMarkup(EscapeEach(s))
    decreases |s|
  {
    if |s| > 0 {
      EscapeEachNoMarkup(s[1..]);
      var h := EscapeChar(s[0]);
      var t := EscapeEach(s[1..]);
      EscapeCharNoMarkup(s[0]);
      assert EscapeEach(s) == h + t;
      NoMarkupConcat(h, t);
    }
  }

  lemma NoMarkupConcat(a: string, b: string)
    requires NoMarkup(a) && NoMarkup(b)
    ensures NoMarkup(a + b)
  {
    var r := a + b;
    forall i | 0 <= i < |r| ensures r[i] != '<' && r[i] != '>' && r[i] != '"' && r[i] != '\'' {
      if i >= |a| {
        assert r[i] == b[i - |a|];
      }
    }
  }

  /** Reads the five entities back; every other character stands for itself. */
  function Unescape(s: string): string
    decreases |s|
  {
    if |s| == 0 then ""
    else if "&amp;" <= s then "&" + Unescape(s[5..])
    else if "&lt;" <= s then "<" + Unescape(s[4..])
    else if "&gt;" <= s then ">" + Unescape(s[4..])
    else if "&quot;" <= s then "\"" + Unescape(s[6..])
    else if "&apos;" <= s then "'" + Unescape(s[6..])
    else [s[0]] + Unescape(s[1..])
  }

  /**
   * Un-escaping reads one escaped character back and continues after it: an
   * entity is recognised by its first letters, and an ordinary character is not
   * `&`, so it is read as itself.
   */
  lemma UnescapeStep(c: char, rest: string)
    ensures Unescape(EscapeChar(c) + rest) == [c] + Unescape(rest)
  {
    var ent := EscapeChar(c);
    var e := ent + rest;
    assert e[|ent|..] == rest;
    if c == '&' {
      assert "&amp;" <= e;
    } else if c == '<' {
      assert e[1] == 'l';
      assert "&lt;" <= e;
    } else if c == '>' {
      assert e[1] == 'g';
      assert "&gt;" <= e;
    } else if c == '"' {
      assert e[1] == 'q';
      assert "&quot;" <= e;
    } else if c == '\'' {
      assert e[1] == 'a' && e[2] == 'p';
      assert "&apos;" <= e;
    } else {
      assert e[0] == c;
    }
  }

  /** Un-escaping recovers the original text. */
  lemma {:induction false} UnescapeEscapeEach(s: string)
    ensures Unescape(EscapeEach(s)) == s
    decreases |s|
  {
    if |s| > 0 {
      var c, tail := s[0], s[1..];
      var rest := EscapeEach(tail);
      calc {
        Unescape(EscapeEach(s));
        Unescape(EscapeChar(c) + rest);
        { UnescapeStep(c, rest); }
        [c] + Unescape(rest);
        { UnescapeEscapeEach(tail); }
        [c] + tail;
      }
      assert s == [c] + tail;
    }
  }

  /**
   * `_safe_string`: `None` is empty, booleans are `true`/`false`, anything else
   * is its `str` with the five special characters escaped. The result never holds
   * markup, and an integer's digits pass through unchanged.
   */
  function SafeString(v: Scalar): (r: string)
    ensures NoMarkup(r)
    ensures v.Int? ==> r == IntToString(v.i)
  {
    match v
    case Null => ""
    case Bool(b) => if b then "true" else "false"
    case Int(i) =>
      var s := IntToString(i);
      EscapeIsCharwise(s);
      EscapeEachNoMarkup(s);
      ReplaceAllAbsent(s, '&', "&amp;");
      ReplaceAllAbsent(s, '<', "&lt;");
      ReplaceAllAbsent(s, '>', "&gt;");
      ReplaceAllAbsent(s, '"', "&quot;");
      ReplaceAllAbsent(s, '\'', "&apos;");
      Escape(s)
    case Text(s) =>
      EscapeIsCharwise(s);
      EscapeEachNoMarkup(s);
      Escape(s)
  }

  /** A text value comes back from its element by un-escaping. */
  lemma SafeStringRoundTrip(v: Scalar)
    requires v.Text?
    ensures Unescape(SafeString(v)) == v.s
  {
    EscapeIsCharwise(v.s);
    UnescapeEscapeEach(v.s);
  }

  // ---------------------------------------------------------------------------
  // _export_to_xml_manual: the strings passed to `f.write`, in order

  const Declaration: string := "<?xml version=\"1.0\" encoding=\"UTF-8\"?>\n"
  const RecordOpen: string := "  <record>\n"
  const RecordClose: string := "  </record>\n"
  const RootClose: string := "</data>\n"

  function RootOpen(tableName: string, exportedAt: string, total: nat): string
  {
    "<data source_table=\"" + tableName + "\" exported_at=\"" + exportedAt
      + "\" total_records=\"" + IntToString(total) + "\">\n"
  }

  /** `<key>safe value</key>` on its own line, after `indent`. */
  function ElementLine(indent: string, key: string, v: Scalar): string
  {
    indent + ("<" + key + ">" + SafeString(v) + "</" + key + ">\n")
  }

  /** One child element per sub-field of a nested mapping. */
  function SubLines(sub: Dict<string, Scalar>): seq<string>
    decreases |sub|
  {
    if |sub| == 0 then []
    else SubLines(sub[..|sub| - 1]) + [ElementLine("      ", sub[|sub| - 1].0, sub[|sub| - 1].1)]
  }

  function RelationOpen(key: string): string
  {
    "    " + ("<" + key + " type=\"relation\">\n")
  }

  function RelationClose(key: string): string
  {
    "    " + ("</" + key + ">\n")
  }

  function FieldLines(e: (string, Field)): seq<string>
  {
    match e.1
    case Plain(v) => [ElementLine("    ", e.0, v)]
    case Nested(sub) => [RelationOpen(e.0)] + SubLines(sub) + [RelationClose(e.0)]
  }

  function FieldsLines(r: Record): seq<string>
    decreases |r|
  {
    if |r| == 0 then [] else FieldsLines(r[..|r| - 1]) + FieldLines(r[|r| - 1])
  }

  function RecordLines(r: Record): seq<string>
  {
    [RecordOpen] + FieldsLines(r) + [RecordClose]
  }

  function RecordsLines(data: seq<Record>): seq<string>
    decreases |data|
  {
    if |data| == 0 then [] else RecordsLines(data[..|data| - 1]) + RecordLines(data[|data| - 1])
  }

  /** The whole document, one string per `f.write`. */
  function XmlLines(data: seq<Record>, tableName: string, exportedAt: string): seq<string>
  {
    Header(tableName, exportedAt, |data|) + RecordsLines(data) + [RootClose]
  }

  /** The declaration and the opening tag of the root element. */
  function Header(tableName: string, exportedAt: string, total: nat): seq<string>
  {
    [Declaration, RootOpen(tableName, exportedAt, total)]
  }

  /**
   * `_export_to_xml_manual`; `exportedAt` is the clock reading. The record
   * elements are gathered in `body` and written between the header and the
   * closing tag.
   */
  method ExportToXmlManual(data: seq<Record>, tableName: string, exportedAt: string) returns (lines: seq<string>)
    ensures lines == XmlLines(data, tableName, exportedAt)
  {
    var body: seq<string> := [];
    var i := 0;
    while i < |data|
      invariant 0 <= i <= |data|
      invariant body == RecordsLines(data[..i])
    {
      var recordLines := WriteRecord(data[i]);
      assert data[..i + 1][..i] == data[..i];
      body := body + recordLines;
      i := i + 1;
    }
    assert data[..i] == data;
    lines := Header(tableName, exportedAt, |data|) + body + [RootClose];
  }

  /** The lines written for one record. */
  method WriteRecord(record: Record) returns (lines: seq<string>)
    ensures lines == RecordLines(record)
  {
    var body: seq<string> := [];
    var j := 0;
    while j < |record|
      invariant 0 <= j <= |record|
      invariant body == FieldsLines(record[..j])
    {
      assert record[..j + 1][..j] == record[..j];
      var field := WriteField(record[j]);
      body := body + field;
      j := j + 1;
    }
    assert record[..j] == record;
    lines := [RecordOpen] + body + [RecordClose];
  }

  /** The lines written for one field: an element, or a relation block. */
  method WriteField(e: (string, Field)) returns (lines: seq<string>)
    ensures lines == FieldLines(e)
  {
    var (key, value) := e;
    match value {
      case Nested(sub) =>
        var subLines := WriteRelation(sub);
        lines := [RelationOpen(key)] + subLines + [RelationClose(key)];
      case Plain(v) =>
        lines := [ElementLine("    ", key, v)];
    }
  }

  /** The child elements written for a nested mapping. */
  method WriteRelation(sub: Dict<string, Scalar>) returns (lines: seq<string>)
    ensures lines == SubLines(sub)
  {
    lines := [];
    var m := 0;
    while m < |sub|
      invariant 0 <= m <= |sub|
      invariant lines == SubLines(sub[..m])
    {
      assert sub[..m + 1][..m] == sub[..m];
      lines := lines + [ElementLine("      ", sub[m].0, sub[m].1)];
      m := m + 1;
    }
    assert sub[..m] == sub;
  }

  // ---------------------------------------------------------------------------
  // Properties of the document

  /** How many of the lines are exactly `l`. */
  function Count(lines: seq<string>, l: string): nat
    decreases |lines|
  {
    if |lines| == 0 then 0 else Count(lines[..|lines| - 1], l) + (if lines[|lines| - 1] == l then 1 else 0)
  }

  lemma {:induction false} CountConcat(a: seq<string>, b: seq<string>, l: string)
    ensures Count(a + b, l) == Count(a, l) + Count(b, l)
    decreases |b|
  {
    if |b| == 0 {
      assert a + b == a;
    } else {
      assert (a + b)[..|a + b| - 1] == a + b[..|b| - 1];
      CountConcat(a, b[..|b| - 1], l);
    }
  }

  /** Field and sub-field lines are indented by at least four spaces. */
  ghost predicate Indented(lines: seq<string>)
  {
    forall i :: 0 <= i < |lines| ==> |lines[i]| > 3 && lines[i][..4] == "    "
  }

  lemma {:induction false} IndentedCount(lines: seq<string>)
    requires Indented(lines)
    ensures Count(lines, RecordOpen) == 0 && Count(lines, RecordClose) == 0
    decreases |lines|
  {
    if |lines| > 0 {
      var last := lines[|lines| - 1];
      assert last[2] == ' ';
      assert last != RecordOpen && last != RecordClose by {
        assert RecordOpen[2] == '<' && RecordClose[2] == '<';
      }
      IndentedCount(lines[..|lines| - 1]);
    }
  }

  /** A line that begins with at least four spaces. */
  lemma IndentedLine(indent: string, rest: string)
    requires |indent| >= 4 && indent[..4] == "    "
    ensures |indent + rest| > 3 && (indent + rest)[..4] == "    "
  {
    assert (indent + rest)[..4] == indent[..4];
  }

  lemma {:induction false} SubLinesIndented(sub: Dict<string, Scalar>)
    ensures Indented(SubLines(sub))
    decreases |sub|
  {
    if |sub| > 0 {
      var init, last := sub[..|sub| - 1], sub[|sub| - 1];
      SubLinesIndented(init);
      assert "      "[..4] == "    ";
      IndentedLine("      ", "<" + last.0 + ">" + SafeString(last.1) + "</" + last.0 + ">\n");
      var l := ElementLine("      ", last.0, last.1);
      assert Indented([l]);
      assert SubLines(sub) == SubLines(init) + [l];
      IndentedConcat(SubLines(init), [l]);
    }
  }

  lemma IndentedConcat(a: seq<string>, b: seq<string>)
    requires Indented(a) && Indented(b)
    ensures Indented(a + b)
  {
    forall i | 0 <= i < |a + b| ensures |(a + b)[i]| > 3 && (a + b)[i][..4] == "    " {
      if i >= |a| { assert (a + b)[i] == b[i - |a|]; }
    }
  }

  lemma FieldLinesIndented(e: (string, Field))
    ensures Indented(FieldLines(e))
  {
    var key := e.0;
    match e.1
    case Plain(v) =>
      IndentedLine("    ", "<" + key + ">" + SafeString(v) + "</" + key + ">\n");
      assert Indented([ElementLine("    ", key, v)]);
    case Nested(sub) =>
      SubLinesIndented(sub);
      IndentedLine("    ", "<" + key + " type=\"relation\">\n");
      IndentedLine("    ", "</" + key + ">\n");
      assert Indented([RelationOpen(key)]) && Indented([RelationClose(key)]);
      IndentedConcat([RelationOpen(key)], SubLines(sub));
      IndentedConcat([RelationOpen(key)] + SubLines(sub), [RelationClose(key)]);
  }

  lemma {:induction false} FieldsLinesIndented(r: Record)
    ensures Indented(FieldsLines(r))
    decreases |r|
  {
    if |r| > 0 {
      FieldsLinesIndented(r[..|r| - 1]);
      FieldLinesIndented(r[|r| - 1]);
      IndentedConcat(FieldsLines(r[..|r| - 1]), FieldLines(r[|r| - 1]));
    }
  }

  lemma {:induction false} RecordsLinesCount(data: seq<Record>)
    ensures Count(RecordsLines(data), RecordOpen) == |data|
    ensures Count(RecordsLines(data), RecordClose) == |data|
    decreases |data|
  {
    if |data| > 0 {
      var init := data[..|data| - 1];
      var r := data[|data| - 1];
      RecordsLinesCount(init);
      FieldsLinesIndented(r);
      IndentedCount(FieldsLines(r));
      CountConcat(RecordsLines(init), RecordLines(r), RecordOpen);
      CountConcat(RecordsLines(init), RecordLines(r), RecordClose);
      CountConcat([RecordOpen] + FieldsLines(r), [RecordClose], RecordOpen);
      CountConcat([RecordOpen] + FieldsLines(r), [RecordClose], RecordClose);
      CountConcat([RecordOpen], FieldsLines(r), RecordOpen);
      CountConcat([RecordOpen], FieldsLines(r), RecordClose);
      assert RecordOpen != RecordClose;
    }
  }

  /**
   * The document has one `<record>` element per record, and its root element
   * declares `total_records` equal to the number of records.
   */
  lemma OneRecordPerRow(data: seq<Record>, tableName: string, exportedAt: string)
    ensures Count(XmlLines(data, tableName, exportedAt), RecordOpen) == |data|
    ensures Count(XmlLines(data, tableName, exportedAt), RecordClose) == |data|
    ensures XmlLines(data, tableName, exportedAt)[1] == RootOpen(tableName, exportedAt, |data|)
    ensures DecodeInt(IntToString(|data|)) == |data|
  {
    var head := Header(tableName, exportedAt, |data|);
    var body := RecordsLines(data);
    RecordsLinesCount(data);
    assert Declaration[0] == '<';
    assert RootOpen(tableName, exportedAt, |data|)[0] == '<';
    assert RootClose[0] == '<';
    TopLevelCount(head);
    TopLevelCount([RootClose]);
    CountConcat(head, body, RecordOpen);
    CountConcat(head, body, RecordClose);
    CountConcat(head + body, [RootClose], RecordOpen);
    CountConcat(head + body, [RootClose], RecordClose);
    IntToStringRoundTrip(|data|);
  }

  /** Lines that start with `<` are neither `<record>` nor `</record>` lines. */
  lemma {:induction false} TopLevelCount(lines: seq<string>)
    requires forall i :: 0 <= i < |lines| ==> |lines[i]| > 0 && lines[i][0] == '<'
    ensures Count(lines, RecordOpen) == 0 && Count(lines, RecordClose) == 0
    decreases |lines|
  {
    if |lines| > 0 {
      assert RecordOpen[0] == ' ' && RecordClose[0] == ' ';
      TopLevelCount(lines[..|lines| - 1]);
    }
  }

  /**
   * A nested mapping becomes an element marked `type="relation"` wrapping one
   * child element per sub-field, in order.
   */
  lemma RelationElement(key: string, sub: Dict<string, Scalar>)
    ensures var ls := FieldLines((key, Nested(sub)));
      && |ls| == |sub| + 2
      && ls[0] == RelationOpen(key)
      && ls[|ls| - 1] == RelationClose(key)
      && forall i :: 0 <= i < |sub| ==> ls[i + 1] == ElementLine("      ", sub[i].0, sub[i].1)
  {
    var sl := SubLines(sub);
    var ls := FieldLines((key, Nested(sub)));
    assert ls == [RelationOpen(key)] + sl + [RelationClose(key)];
    SubLinesAt(sub);
    forall i | 0 <= i < |sub| ensures ls[i + 1] == ElementLine("      ", sub[i].0, sub[i].1) {
      assert ls[i + 1] == sl[i];
    }
  }

  lemma {:induction false} SubLinesAt(sub: Dict<string, Scalar>)
    ensures |SubLines(sub)| == |sub|
    ensures forall i :: 0 <= i < |sub| ==> SubLines(sub)[i] == ElementLine("      ", sub[i].0, sub[i].1)
    decreases |sub|
  {
    if |sub| > 0 {
      var init := sub[..|sub| - 1];
      SubLinesAt(init);
      var ls := SubLines(sub);
      assert ls == SubLines(init) + [ElementLine("      ", sub[|sub| - 1].0, sub[|sub| - 1].1)];
      forall i | 0 <= i < |sub| ensures ls[i] == ElementLine("      ", sub[i].0, sub[i].1) {
        if i < |sub| - 1 {
          assert ls[i] == SubLines(init)[i] && init[i] == sub[i];
        }
      }
    }
  }
}
