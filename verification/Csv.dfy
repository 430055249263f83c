/**
 CSV exports (apps/api/src/common/csv.ts), and a reader of section 2 of RFC 4180, with
 `;` as the separator, to read them back with.
 */
module Csv {
  import opened Text

  const BOM := '\U{FEFF}'
  const LINE_BREAK := "\r\n"

  datatype Cell = Str(text: string) | Number(n: int) | Nothing

  // ------------------------------------------------------------------- printing

  function CellText(c: Cell): string {
    match c
    case Str(s) => s
    case Number(n) => if n < 0 then "-" + Decimal(-n) else Decimal(n)
    case Nothing => ""
  }

  function Texts(cells: seq<Cell>): (r: seq<string>)
    ensures |r| == |cells| && forall i :: 0 <= i < |r| ==> r[i] == CellText(cells[i])
  {
    seq(|cells|, i requires 0 <= i < |cells| => CellText(cells[i]))
  }

  predicate IsSpecial(c: char) {
    c == ';' || c == '"' || c == '\r' || c == '\n'
  }

  predicate NeedsQuotes(s: string) {
    exists i :: 0 <= i < |s| && IsSpecial(s[i])
  }

  function Doubled(c: char): string {
    if c == '"' then "\"\"" else [c]
  }

  function Double(s: string): string {
    if s == "" then "" else Doubled(s[0]) + Double(s[1..])
  }

  function Field(s: string): string {
    if NeedsQuotes(s) then "\"" + Double(s) + "\"" else s
  }

  /** The fields of a line, separated by `;`. */
  function Line(fields: seq<string>): string {
    if fields == [] then ""
    else if |fields| == 1 then Field(fields[0])
    else Field(fields[0]) + ";" + Line(fields[1..])
  }

  function Lines(lines: seq<seq<string>>): string {
    if lines == [] then ""
    else if |lines| == 1 then Line(lines[0])
    else Line(lines[0]) + LINE_BREAK + Lines(lines[1..])
  }

  /** The texts of the header and of every row. */
  function Table(header: seq<string>, rows: seq<seq<Cell>>): (t: seq<seq<string>>)
    ensures |t| == |rows| + 1 && t[0] == header
    ensures forall i :: 0 <= i < |rows| ==> t[i + 1] == Texts(rows[i])
  {
    [header] + seq(|rows|, i requires 0 <= i < |rows| => Texts(rows[i]))
  }

  function ToCsv(header: seq<string>, rows: seq<seq<Cell>>): string {
    [BOM] + Lines(Table(header, rows))
  }

  // -------------------------------------------------------------------- reading

  /** Where the reader is: before a field, inside one, or after a quote in a quoted one. */
  datatype Mode = Before | Inside | Quoted | QuoteSeen

  /** What was read so far: the current field, the record it belongs to, the records before. */
  datatype Seen = Seen(field: string, record: seq<string>, records: seq<seq<string>>)

  function EndField(seen: Seen): Seen {
    Seen("", seen.record + [seen.field], seen.records)
  }

  function EndRecord(seen: Seen): Seen {
    Seen("", [], seen.records + [seen.record + [seen.field]])
  }

  function Add(seen: Seen, c: char): Seen {
    seen.(field := seen.field + [c])
  }

  predicate StartsBreak(s: string) {
    |s| >= 2 && s[0] == '\r' && s[1] == '\n'
  }

  function Scan(s: string, mode: Mode, seen: Seen): Option<seq<seq<string>>>
    decreases |s|
  {
    if mode == Quoted then
      if s == "" then None
      else if s[0] == '"' then Scan(s[1..], QuoteSeen, seen)
      else Scan(s[1..], Quoted, Add(seen, s[0]))
    else if s == "" then Some(EndRecord(seen).records)
    else if s[0] == ';' then Scan(s[1..], Before, EndField(seen))
    else if StartsBreak(s) then Scan(s[2..], Before, EndRecord(seen))
    else if s[0] == '"' then
      if mode == Before then Scan(s[1..], Quoted, seen)
      else if mode == QuoteSeen then Scan(s[1..], Quoted, Add(seen, '"'))
      else None
    else if mode == QuoteSeen || s[0] == '\r' || s[0] == '\n' then None
    else Scan(s[1..], Inside, Add(seen, s[0]))
  }

  function WithoutBom(s: string): string {
    if s != "" && s[0] == BOM then s[1..] else s
  }

  /** Line breaks separate records. */
  function Parse(s: string): Option<seq<seq<string>>> {
    Scan(WithoutBom(s), Before, Seen("", [], []))
  }

  /** A line break at the very end is taken for the end of the last record. */
  function ParseTerminated(s: string): Option<seq<seq<string>>> {
    Scan(WithoutFinalBreak(WithoutBom(s)), Before, Seen("", [], []))
  }

  function WithoutFinalBreak(s: string): string {
    if |s| >= 2 && s[|s| - 2..] == LINE_BREAK then s[..|s| - 2] else s
  }

  // ------------------------------------------------------------- reading fields

  /** What may follow a field. */
  predicate IsDelimited(rest: string) {
    rest == "" || rest[0] == ';' || StartsBreak(rest)
  }

  function AddAll(seen: Seen, s: string): Seen {
    seen.(field := seen.field + s)
  }

  lemma AddThenAll(seen: Seen, s: string)
    requires s != ""
    ensures AddAll(Add(seen, s[0]), s[1..]) == AddAll(seen, s)
  {
    assert seen.field + [s[0]] + s[1..] == seen.field + s;
  }

  lemma {:induction false} ScanPlain(s: string, rest: string, mode: Mode, seen: Seen)
    requires mode == Before || mode == Inside
    requires !NeedsQuotes(s) && s != ""
    ensures Scan(s + rest, mode, seen) == Scan(rest, Inside, AddAll(seen, s))
    decreases |s|
  {
    assert !IsSpecial(s[0]);
    assert (s + rest)[1..] == s[1..] + rest;
    AddThenAll(seen, s);
    if |s| > 1 {
      assert forall i :: 0 <= i < |s[1..]| ==> s[1..][i] == s[i + 1];
      ScanPlain(s[1..], rest, Inside, Add(seen, s[0]));
    } else {
      assert s[1..] + rest == rest;
      assert AddAll(Add(seen, s[0]), "") == Add(seen, s[0]);
    }
  }

  lemma ScanDoubled(c: char, tail: string, seen: Seen)
    ensures Scan(Doubled(c) + tail, Quoted, seen) == Scan(tail, Quoted, Add(seen, c))
  {
    if c == '"' {
      var once := "\"" + tail;
      assert Doubled(c) + tail == "\"" + once;
      assert ("\"" + once)[1..] == once && once[1..] == tail;
      assert Scan(once, QuoteSeen, seen) == Scan(tail, Quoted, Add(seen, '"'));
    } else {
      assert ([c] + tail)[1..] == tail;
    }
  }

  lemma {:induction false} ScanQuoted(s: string, rest: string, seen: Seen)
    requires rest == "" || rest[0] != '"'
    ensures Scan(Double(s) + "\"" + rest, Quoted, seen) == Scan(rest, QuoteSeen, AddAll(seen, s))
    decreases |s|
  {
    if s == "" {
      assert Double(s) + "\"" + rest == "\"" + rest;
      assert ("\"" + rest)[1..] == rest;
      assert AddAll(seen, "") == seen;
    } else {
      var tail := Double(s[1..]) + "\"" + rest;
      assert Double(s) + "\"" + rest == Doubled(s[0]) + tail;
      ScanDoubled(s[0], tail, seen);
      ScanQuoted(s[1..], rest, Add(seen, s[0]));
      AddThenAll(seen, s);
    }
  }

  /** At the end of a field it no longer matters how it was written. */
  lemma ModeIsIrrelevant(rest: string, m1: Mode, m2: Mode, seen: Seen)
    requires IsDelimited(rest) && m1 != Quoted && m2 != Quoted
    ensures Scan(rest, m1, seen) == Scan(rest, m2, seen)
  {
  }

  lemma ScanQuotedField(s: string, rest: string, seen: Seen)
    requires rest == "" || rest[0] != '"'
    ensures Scan("\"" + Double(s) + "\"" + rest, Before, seen) == Scan(rest, QuoteSeen, AddAll(seen, s))
  {
    var body := Double(s) + "\"" + rest;
    assert "\"" + Double(s) + "\"" + rest == "\"" + body;
    assert ("\"" + body)[1..] == body;
    ScanQuoted(s, rest, seen);
  }

  lemma ScanField(s: string, rest: string, seen: Seen)
    requires IsDelimited(rest) && seen.field == ""
    ensures Scan(Field(s) + rest, Before, seen) == Scan(rest, Inside, seen.(field := s))
  {
    assert AddAll(seen, s) == seen.(field := s);
    if NeedsQuotes(s) {
      ScanQuotedField(s, rest, seen);
      ModeIsIrrelevant(rest, QuoteSeen, Inside, seen.(field := s));
    } else if s == "" {
      assert Field(s) + rest == rest;
      ModeIsIrrelevant(rest, Before, Inside, seen);
    } else {
      ScanPlain(s, rest, Before, seen);
    }
  }

  // ------------------------------------------------------ reading lines and tables

  /** A line of no fields reads as one empty field. */
  function Shape(fields: seq<string>): seq<string> {
    if fields == [] then [""] else fields
  }

  predicate IsEndOfLine(rest: string) {
    rest == "" || StartsBreak(rest)
  }

  lemma {:induction false} ScanLine(fields: seq<string>, rest: string, record: seq<string>, records: seq<seq<string>>)
    requires fields != [] && IsEndOfLine(rest)
    ensures Scan(Line(fields) + rest, Before, Seen("", record, records)) ==
            Scan(rest, Inside, Seen(fields[|fields| - 1], record + fields[..|fields| - 1], records))
    decreases |fields|
  {
    var seen := Seen("", record, records);
    if |fields| == 1 {
      ScanField(fields[0], rest, seen);
      assert record + fields[..0] == record;
    } else {
      var tail := Line(fields[1..]) + rest;
      assert Line(fields) + rest == Field(fields[0]) + (";" + tail);
      ScanField(fields[0], ";" + tail, seen);
      assert (";" + tail)[1..] == tail;
      ScanLine(fields[1..], rest, record + [fields[0]], records);
      assert record + [fields[0]] + fields[1..][..|fields| - 2] == record + fields[..|fields| - 1];
    }
  }

  lemma EndOfRecord(rest: string, mode: Mode, field: string, record: seq<string>, records: seq<seq<string>>)
    requires IsEndOfLine(rest) && mode != Quoted
    ensures Scan(rest, mode, Seen(field, record, records)) ==
            if rest == "" then Some(records + [record + [field]])
            else Scan(rest[2..], Before, Seen("", [], records + [record + [field]]))
  {
  }

  lemma ScanRecord(fields: seq<string>, rest: string, records: seq<seq<string>>)
    requires IsEndOfLine(rest)
    ensures Scan(Line(fields) + rest, Before, Seen("", [], records)) ==
            if rest == "" then Some(records + [Shape(fields)])
            else Scan(rest[2..], Before, Seen("", [], records + [Shape(fields)]))
  {
    if fields == [] {
      assert Line(fields) + rest == rest;
      EndOfRecord(rest, Before, "", [], records);
      assert [] + [""] == [""];
    } else {
      ScanLine(fields, rest, [], records);
      EndOfRecord(rest, Inside, fields[|fields| - 1], [] + fields[..|fields| - 1], records);
      assert [] + fields[..|fields| - 1] + [fields[|fields| - 1]] == fields;
    }
  }

  function Shapes(lines: seq<seq<string>>): seq<seq<string>> {
    if lines == [] then [] else [Shape(lines[0])] + Shapes(lines[1..])
  }

  lemma {:induction false} ScanLines(lines: seq<seq<string>>, records: seq<seq<string>>)
    requires lines != []
    ensures Scan(Lines(lines), Before, Seen("", [], records)) == Some(records + Shapes(lines))
    decreases |lines|
  {
    if |lines| == 1 {
      ScanRecord(lines[0], "", records);
      assert Line(lines[0]) + "" == Line(lines[0]);
      assert Shapes(lines[1..]) == [];
      assert Shapes(lines) == [Shape(lines[0])] + [] == [Shape(lines[0])];
    } else {
      var tail := Lines(lines[1..]);
      assert Lines(lines) == Line(lines[0]) + (LINE_BREAK + tail);
      ScanRecord(lines[0], LINE_BREAK + tail, records);
      assert (LINE_BREAK + tail)[2..] == tail;
      ScanLines(lines[1..], records + [Shape(lines[0])]);
      assert records + [Shape(lines[0])] + Shapes(lines[1..]) == records + Shapes(lines);
    }
  }

  lemma {:induction false} ShapesAt(lines: seq<seq<string>>)
    ensures |Shapes(lines)| == |lines|
    ensures forall i :: 0 <= i < |lines| ==> Shapes(lines)[i] == Shape(lines[i])
  {
    if lines != [] {
      ShapesAt(lines[1..]);
    }
  }

  lemma ScanTable(header: seq<string>, rows: seq<seq<Cell>>)
    ensures Parse(ToCsv(header, rows)) == Some(Shapes(Table(header, rows)))
  {
    var table := Table(header, rows);
    assert ToCsv(header, rows)[1..] == Lines(table);
    ScanLines(table, []);
    assert [] + Shapes(table) == Shapes(table);
  }

  predicate NoEmptyLine(lines: seq<seq<string>>) {
    forall i :: 0 <= i < |lines| ==> lines[i] != []
  }

  lemma ShapesSame(lines: seq<seq<string>>)
    ensures Shapes(lines) == lines <==> NoEmptyLine(lines)
  {
    ShapesAt(lines);
    if NoEmptyLine(lines) {
      forall k | 0 <= k < |lines| ensures Shapes(lines)[k] == lines[k] {
      }
    } else {
      var i :| 0 <= i < |lines| && lines[i] == [];
      assert Shapes(lines)[i] == [""];
    }
  }

  lemma TableLines(header: seq<string>, rows: seq<seq<Cell>>)
    ensures NoEmptyLine(Table(header, rows)) <==> header != [] && forall i :: 0 <= i < |rows| ==> rows[i] != []
  {
    var table := Table(header, rows);
    assert table[0] == header;
    forall i | 0 <= i < |rows| ensures table[i + 1] == [] <==> rows[i] == [] {
      assert table[i + 1] == Texts(rows[i]);
    }
    forall k | 0 <= k < |table| ensures k == 0 || table[k] == Texts(rows[k - 1]) {
    }
  }

  // ------------------------------------------------------------------ theorems

  /**
   Reading an export back gives every cell's text, for arbitrary texts, whatever quotes,
   separators and line breaks they hold; a line without cells comes back as one empty
   cell, so that the whole table comes back exactly when no line is empty.
   */
  lemma ParseUndoesPrint(header: seq<string>, rows: seq<seq<Cell>>)
    ensures Parse(ToCsv(header, rows)) == Some(Shapes(Table(header, rows)))
    ensures Parse(ToCsv(header, rows)) == Some(Table(header, rows)) <==>
            header != [] && forall i :: 0 <= i < |rows| ==> rows[i] != []
  {
    ScanTable(header, rows);
    ShapesSame(Table(header, rows));
    TableLines(header, rows);
  }

  /** What a cell's text should be: itself, a number in decimal, or nothing. */
  predicate IsTextOf(s: string, c: Cell) {
    match c
    case Str(text) => s == text
    case Number(n) => if n < 0 then |s| > 1 && s[0] == '-' && IsDecimal(s[1..], -n) else IsDecimal(s, n)
    case Nothing => s == ""
  }

  /** `s` is the number `n`, without leading zeros. */
  predicate IsDecimal(s: string, n: int) {
    s != "" && AllDigits(s) && NatOf(s) == n && (|s| > 1 ==> s[0] != '0')
  }

  /** Read back, row `i` of the table is there, and cell `j` of it holds what the cell held. */
  lemma CellsComeBack(header: seq<string>, rows: seq<seq<Cell>>, i: nat, j: nat)
    requires i < |rows| && j < |rows[i]| && header != []
    ensures var r := Parse(ToCsv(header, rows));
            && r.Some? && |r.value| == |rows| + 1 && r.value[0] == header
            && |r.value[i + 1]| == |rows[i]| && IsTextOf(r.value[i + 1][j], rows[i][j])
  {
    ScanTable(header, rows);
    ShapesAt(Table(header, rows));
    assert Table(header, rows)[i + 1] == Texts(rows[i]);
    TextOf(rows[i][j]);
  }

  lemma TextOf(c: Cell)
    ensures IsTextOf(CellText(c), c)
  {
    if c.Number? {
      NatOfDecimal(if c.n < 0 then -c.n else c.n);
      if c.n < 0 {
        assert ("-" + Decimal(-c.n))[1..] == Decimal(-c.n);
      }
    }
  }

  /** A file begins with the byte order mark, and a text is quoted only where it must be. */
  lemma PlainWherePossible(header: seq<string>, rows: seq<seq<Cell>>, s: string)
    ensures ToCsv(header, rows)[0] == '\U{FEFF}'
    ensures Field(s) == s <==> ';' !in s && '"' !in s && '\r' !in s && '\n' !in s
    ensures Field(s) != s ==> |Field(s)| >= |s| + 2 && Field(s)[0] == '"' == Field(s)[|Field(s)| - 1]
  {
    DoubleIsLonger(s);
    if NeedsQuotes(s) {
      var i :| 0 <= i < |s| && IsSpecial(s[i]);
      assert s[i] in s;
    }
  }

  lemma {:induction false} DoubleIsLonger(s: string)
    ensures |Double(s)| >= |s|
  {
    if s != "" {
      DoubleIsLonger(s[1..]);
    }
  }

  lemma {:induction false} LinesLast(lines: seq<seq<string>>)
    requires |lines| > 1
    ensures Lines(lines) == Lines(lines[..|lines| - 1]) + LINE_BREAK + Line(lines[|lines| - 1])
    decreases |lines|
  {
    if |lines| == 2 {
      assert lines[..1] == [lines[0]];
    } else {
      LinesLast(lines[1..]);
      assert lines[1..][..|lines| - 2] == lines[..|lines| - 1][1..];
    }
  }

  lemma FieldEnd(s: string)
    ensures Field(s) == "" <==> s == ""
    ensures Field(s) != "" ==> Field(s)[|Field(s)| - 1] != '\n'
  {
    if !NeedsQuotes(s) && s != "" {
      assert !IsSpecial(s[|s| - 1]);
    }
  }

  lemma {:induction false} LineEnd(fields: seq<string>)
    ensures Line(fields) == "" <==> fields == [] || fields == [""]
    ensures Line(fields) != "" ==> Line(fields)[|Line(fields)| - 1] != '\n'
  {
    if |fields| == 1 {
      FieldEnd(fields[0]);
    } else if fields != [] {
      LineEnd(fields[1..]);
    }
  }

  lemma FinalBreakOf(lines: seq<seq<string>>)
    requires |lines| > 1 && lines[|lines| - 1] != []
    ensures WithoutFinalBreak(Lines(lines)) ==
            if lines[|lines| - 1] == [""] then Lines(lines[..|lines| - 1]) else Lines(lines)
  {
    var front, last := Lines(lines[..|lines| - 1]), Line(lines[|lines| - 1]);
    LinesLast(lines);
    LineEnd(lines[|lines| - 1]);
    FinalBreakText(front, last);
  }

  lemma FinalBreakText(front: string, last: string)
    requires last != "" ==> last[|last| - 1] != '\n'
    ensures WithoutFinalBreak(front + LINE_BREAK + last) == if last == "" then front else front + LINE_BREAK + last
  {
    var t := front + LINE_BREAK + last;
    if last == "" {
      assert t[|t| - 2..] == LINE_BREAK && t[..|t| - 2] == front;
    } else {
      assert t[|t| - 2..][1] == last[|last| - 1];
      assert LINE_BREAK[1] == '\n';
    }
  }

  /**
   RFC 4180 lets the last record end with a line break or not. A reader that takes a
   final break for such an end loses the last row exactly when it is one empty cell.
   */
  lemma FinalBreakIsAmbiguous(header: seq<string>, rows: seq<seq<Cell>>)
    requires header != [] && rows != [] && forall i :: 0 <= i < |rows| ==> rows[i] != []
    ensures ParseTerminated(ToCsv(header, rows)) ==
            if Texts(rows[|rows| - 1]) == [""] then Some(Table(header, rows[..|rows| - 1]))
            else Some(Table(header, rows))
  {
    var table := Table(header, rows);
    TableFront(header, rows);
    FinalBreakOf(table);
    ReadBack(header, rows);
    ReadBack(header, rows[..|rows| - 1]);
  }

  lemma TableFront(header: seq<string>, rows: seq<seq<Cell>>)
    requires rows != []
    ensures var table := Table(header, rows);
            table[..|table| - 1] == Table(header, rows[..|rows| - 1])
            && table[|table| - 1] == Texts(rows[|rows| - 1])
            && (rows[|rows| - 1] != [] ==> table[|table| - 1] != [])
  {
  }

  lemma ReadBack(header: seq<string>, rows: seq<seq<Cell>>)
    requires header != [] && forall i :: 0 <= i < |rows| ==> rows[i] != []
    ensures WithoutBom(ToCsv(header, rows)) == Lines(Table(header, rows))
    ensures Scan(Lines(Table(header, rows)), Before, Seen("", [], [])) == Some(Table(header, rows))
  {
    assert ToCsv(header, rows)[1..] == Lines(Table(header, rows));
    ParseUndoesPrint(header, rows);
  }
}
