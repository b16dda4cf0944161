/** The CSV text the responses export writes, and a reader for it.
    Every field is quoted with its inner quotes doubled, as rules 5 to 7 of
    section 2 of RFC 4180 describe; records end in a line feed rather than
    the CRLF of the RFC, and the document begins with a U+FEFF byte-order
    mark. The reader follows the same section (quoted or plain fields,
    `""` inside quotes) with the line feed as record separator; reading an
    exported document gives back every cell exactly. */
module Csv {
  import opened JsValues

  const Bom: char := '\U{FEFF}'

  /** `s.replace(/"/g, '""')`. */
  function EscapeQuotes(s: string): (r: string)
    ensures |r| >= |s|
    decreases |s|
  {
    if s == [] then ""
    else (if s[0] == '"' then "\"\"" else [s[0]]) + EscapeQuotes(s[1..])
  }

  /** One field: `"` + the cell with its quotes doubled + `"`. */
  function QuoteField(cell: string): string {
    "\"" + EscapeQuotes(cell) + "\""
  }

  function QuoteAll(cells: seq<string>): (r: seq<string>)
    ensures |r| == |cells|
    decreases |cells|
  {
    if cells == [] then [] else [QuoteField(cells[0])] + QuoteAll(cells[1..])
  }

  /** One line: the quoted cells joined by ",". */
  function Record(cells: seq<string>): string {
    Join(QuoteAll(cells), ",")
  }

  function RecordLines(records: seq<seq<string>>): (r: seq<string>)
    ensures |r| == |records|
    decreases |records|
  {
    if records == [] then [] else [Record(records[0])] + RecordLines(records[1..])
  }

  /** The whole file: the byte-order mark, then the lines joined by "\n". */
  function Document(records: seq<seq<string>>): string {
    [Bom] + Join(RecordLines(records), "\n")
  }

  // ---------------------------------------------------------------------
  // The reader

  /** Reads the inside of a quoted field, the opening quote already
      consumed: `""` stands for one quote and a lone `"` closes the field.
      Gives the cell and the text after the closing quote; None when the
      quote is never closed. */
  function ParseQuoted(s: string): (r: Option<(string, string)>)
    ensures r.Some? ==> |r.value.1| < |s|
    decreases |s|
  {
    if s == [] then None
    else if s[0] == '"' then
      if |s| >= 2 && s[1] == '"' then
        match ParseQuoted(s[2..])
        case None => None
        case Some((cell, rest)) => Some(("\"" + cell, rest))
      else Some(("", s[1..]))
    else
      match ParseQuoted(s[1..])
      case None => None
      case Some((cell, rest)) => Some(([s[0]] + cell, rest))
  }

  predicate IsPlainChar(c: char) {
    c != '"' && c != ',' && c != '\n' && c != '\r'
  }

  /** One field: quoted, or a run of characters other than a quote, a
      comma or a line break. After the field must come a comma, a line
      feed or the end of the text. */
  function ParseField(s: string): (r: Option<(string, string)>)
    ensures r.Some? ==> |r.value.1| <= |s|
  {
    var r := if |s| > 0 && s[0] == '"' then ParseQuoted(s[1..])
             else var plain := TakeWhile(s, IsPlainChar); Some((plain, s[|plain|..]));
    match r
    case None => None
    case Some((cell, rest)) =>
      if rest == [] || rest[0] == ',' || rest[0] == '\n' then r else None
  }

  /** A record read from the front of the text: its cells and what follows
      it, which is empty or begins with the line feed that ends it. */
  datatype Parsed = Parsed(cells: seq<string>, rest: string)

  function ParseRecord(s: string): (r: Option<Parsed>)
    ensures r.Some? ==> |r.value.cells| >= 1 && |r.value.rest| <= |s|
    ensures r.Some? ==> r.value.rest == [] || r.value.rest[0] == '\n'
    decreases |s|
  {
    match ParseField(s)
    case None => None
    case Some((cell, rest)) =>
      if rest != [] && rest[0] == ',' then
        match ParseRecord(rest[1..])
        case None => None
        case Some(p) => Some(Parsed([cell] + p.cells, p.rest))
      else Some(Parsed([cell], rest))
  }

  /** The records of a text without the byte-order mark. */
  function ParseRecords(s: string): (r: Option<seq<seq<string>>>)
    ensures r.Some? ==> |r.value| >= 1
    decreases |s|
  {
    match ParseRecord(s)
    case None => None
    case Some(p) =>
      if p.rest == [] then Some([p.cells])
      else
        match ParseRecords(p.rest[1..])
        case None => None
        case Some(more) => Some([p.cells] + more)
  }

  /** Reads a document that starts with the byte-order mark. */
  function Parse(doc: string): Option<seq<seq<string>>> {
    if |doc| > 0 && doc[0] == Bom then ParseRecords(doc[1..]) else None
  }

  // ---------------------------------------------------------------------
  // Round trip

  /** The inside of a quoted cell reads back as the cell, whatever follows
      the closing quote, as long as that is not another quote. */
  lemma {:induction false} ParseQuotedEscaped(cell: string, rest: string)
    requires rest == [] || rest[0] != '"'
    ensures ParseQuoted(EscapeQuotes(cell) + "\"" + rest) == Some((cell, rest))
    decreases |cell|
  {
    var s := EscapeQuotes(cell) + "\"" + rest;
    if cell == [] {
      assert s == "\"" + rest;
      assert s[1..] == rest;
    } else {
      ParseQuotedEscaped(cell[1..], rest);
      var tail := EscapeQuotes(cell[1..]) + "\"" + rest;
      if cell[0] == '"' {
        assert s == "\"\"" + tail;
        assert s[2..] == tail;
        assert "\"" + cell[1..] == cell;
      } else {
        assert s == [cell[0]] + tail;
        assert s[1..] == tail;
        assert [cell[0]] + cell[1..] == cell;
      }
    }
  }

  lemma ParseFieldQuoted(cell: string, rest: string)
    requires rest == [] || rest[0] == ',' || rest[0] == '\n'
    ensures ParseField(QuoteField(cell) + rest) == Some((cell, rest))
  {
    var s := QuoteField(cell) + rest;
    assert s[1..] == EscapeQuotes(cell) + "\"" + rest;
    ParseQuotedEscaped(cell, rest);
  }

  /** A record of two or more cells, and whatever follows it, is the
      first field, a comma and the record of the rest. */
  lemma RecordCons(cells: seq<string>, rest: string)
    requires |cells| >= 2
    ensures Record(cells) + rest == QuoteField(cells[0]) + ("," + (Record(cells[1..]) + rest))
  {
    assert QuoteAll(cells)[1..] == QuoteAll(cells[1..]);
  }

  /** A record of one cell reads back as that cell. */
  lemma ParseRecordOne(cell: string, rest: string)
    requires rest == [] || rest[0] == '\n'
    ensures ParseRecord(Record([cell]) + rest) == Some(Parsed([cell], rest))
  {
    ParseFieldQuoted(cell, rest);
  }

  /** A quoted field followed by a comma: the record goes on after it. */
  lemma ParseRecordComma(cell: string, tail: string, cells: seq<string>, rest: string)
    requires ParseRecord(tail) == Some(Parsed(cells, rest))
    ensures ParseRecord(QuoteField(cell) + ("," + tail)) == Some(Parsed([cell] + cells, rest))
  {
    ParseFieldQuoted(cell, "," + tail);
    assert ("," + tail)[1..] == tail;
  }

  /** A record reads back as its cells, followed by the end of the text or
      the line feed of the next record. */
  lemma {:induction false} ParseRecordOfRecord(cells: seq<string>, rest: string)
    requires |cells| >= 1
    requires rest == [] || rest[0] == '\n'
    ensures ParseRecord(Record(cells) + rest) == Some(Parsed(cells, rest))
    decreases |cells|
  {
    if |cells| == 1 {
      ParseRecordOne(cells[0], rest);
      assert cells == [cells[0]];
    } else {
      ParseRecordOfRecord(cells[1..], rest);
      ParseRecordStep(cells, rest);
    }
  }

  /** The inductive step: a record reads back if the record of its tail does. */
  lemma ParseRecordStep(cells: seq<string>, rest: string)
    requires |cells| >= 2
    requires ParseRecord(Record(cells[1..]) + rest) == Some(Parsed(cells[1..], rest))
    ensures ParseRecord(Record(cells) + rest) == Some(Parsed(cells, rest))
  {
    RecordCons(cells, rest);
    ParseRecordComma(cells[0], Record(cells[1..]) + rest, cells[1..], rest);
    assert [cells[0]] + cells[1..] == cells;
  }

  /** The lines of two or more records: the first record, a line feed and
      the lines of the rest. */
  lemma LinesCons(records: seq<seq<string>>)
    requires |records| >= 2
    ensures Join(RecordLines(records), "\n") == Record(records[0]) + ("\n" + Join(RecordLines(records[1..]), "\n"))
  {
    var lines, tail := RecordLines(records), RecordLines(records[1..]);
    assert lines == [Record(records[0])] + tail;
    assert lines[1..] == tail;
    assert Join(lines, "\n") == Record(records[0]) + "\n" + Join(tail, "\n");
  }

  /** A record followed by a line feed: the records go on after it. */
  lemma ParseRecordsNewline(cells: seq<string>, tail: string)
    requires |cells| >= 1
    ensures ParseRecords(Record(cells) + ("\n" + tail)) ==
      match ParseRecords(tail)
      case None => None
      case Some(more) => Some([cells] + more)
  {
    ParseRecordOfRecord(cells, "\n" + tail);
    assert ("\n" + tail)[1..] == tail;
  }

  lemma {:induction false} ParseRecordsOfLines(records: seq<seq<string>>)
    requires |records| >= 1
    requires forall i :: 0 <= i < |records| ==> |records[i]| >= 1
    ensures ParseRecords(Join(RecordLines(records), "\n")) == Some(records)
    decreases |records|
  {
    if |records| == 1 {
      assert Join(RecordLines(records), "\n") == Record(records[0]) + "";
      ParseRecordOfRecord(records[0], "");
      assert records == [records[0]];
    } else {
      LinesCons(records);
      ParseRecordsNewline(records[0], Join(RecordLines(records[1..]), "\n"));
      ParseRecordsOfLines(records[1..]);
      assert [records[0]] + records[1..] == records;
    }
  }

  /** Reading a written document gives back every record and every cell,
      provided there is at least one record and no record is empty. */
  lemma ParseDocument(records: seq<seq<string>>)
    requires |records| >= 1
    requires forall i :: 0 <= i < |records| ==> |records[i]| >= 1
    ensures Parse(Document(records)) == Some(records)
  {
    assert Document(records)[1..] == Join(RecordLines(records), "\n");
    ParseRecordsOfLines(records);
  }
}
