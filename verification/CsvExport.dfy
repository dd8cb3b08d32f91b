/** The CSV export of aggregates: how cells are guarded, quoted and joined, and what a reader of
    section 2 of RFC 4180 gets back. */
module CsvExport {
  import opened Wrappers
  import opened JsonText
  import opened Sequences

  const APOSTROPHE: CodeUnit := 39
  const CR: CodeUnit := 13
  const LF: CodeUnit := 10
  const CRLF: Text := [13, 10]

  /** A cell is a string, a missing value, or another value with the text `JSON.stringify` gives it. */
  datatype Cell = Str(text: Text) | Missing | Value(json: Text)

  /** A missing value is taken for the empty string, but quoted as JSON. */
  function CellText(c: Cell): Text {
    match c
    case Str(t) => t
    case Missing => [QUOTE, QUOTE]
    case Value(json) => json
  }

  /** What a spreadsheet would start a formula with. */
  predicate Active(t: Text) {
    t != [] && t[0] in {61, 43, 45, 64, 9, 13}
  }

  function Guard(t: Text): Text {
    if Active(t) then [APOSTROPHE] + t else t
  }

  function Doubled(t: Text): Text {
    if t == [] then []
    else if t[0] == QUOTE then [QUOTE, QUOTE] + Doubled(t[1..])
    else [t[0]] + Doubled(t[1..])
  }

  predicate Plain(c: CodeUnit) {
    c != COMMA && c != QUOTE && c != CR && c != LF
  }

  function Escape(t: Text): Text {
    if forall i | 0 <= i < |t| :: Plain(t[i]) then t else [QUOTE] + Doubled(t) + [QUOTE]
  }

  function EscapeCsvCell(c: Cell): Text {
    Escape(Guard(CellText(c)))
  }

  function PrintRow(row: seq<Cell>): Text {
    if row == [] then []
    else if |row| == 1 then EscapeCsvCell(row[0])
    else EscapeCsvCell(row[0]) + [COMMA] + PrintRow(row[1..])
  }

  function PrintRows(rows: seq<seq<Cell>>): Text {
    if rows == [] then []
    else if |rows| == 1 then PrintRow(rows[0])
    else PrintRow(rows[0]) + CRLF + PrintRows(rows[1..])
  }

  function PrintTable(rows: seq<seq<Cell>>): Text {
    PrintRows(rows) + CRLF
  }

  // ----- The reader -----

  /** Up to the closing quote; a doubled quote stands for one. */
  function ReadQuoted(t: Text): (r: Option<(Text, Text)>)
    ensures r.Some? ==> |r.value.1| < |t|
  {
    if t == [] then None
    else if t[0] != QUOTE then
      match ReadQuoted(t[1..])
      case None => None
      case Some((field, rest)) => Some(([t[0]] + field, rest))
    else if |t| > 1 && t[1] == QUOTE then
      match ReadQuoted(t[2..])
      case None => None
      case Some((field, rest)) => Some(([QUOTE] + field, rest))
    else Some(([], t[1..]))
  }

  function ReadPlain(t: Text): (r: (Text, Text))
    ensures |r.1| <= |t|
  {
    if t != [] && Plain(t[0]) then
      var (field, rest) := ReadPlain(t[1..]);
      ([t[0]] + field, rest)
    else ([], t)
  }

  function ReadField(t: Text): (r: Option<(Text, Text)>)
    ensures r.Some? ==> |r.value.1| <= |t|
  {
    if t != [] && t[0] == QUOTE then ReadQuoted(t[1..]) else Some(ReadPlain(t))
  }

  function ReadRecord(t: Text): (r: Option<(seq<Text>, Text)>)
    ensures r.Some? ==> |r.value.1| <= |t|
    decreases |t|
  {
    match ReadField(t)
    case None => None
    case Some((field, rest)) =>
      if rest == [] || rest[0] != COMMA then Some(([field], rest))
      else
        match ReadRecord(rest[1..])
        case None => None
        case Some((fields, after)) => Some(([field] + fields, after))
  }

  /** Records separated by line breaks, with or without one at the end. */
  function ReadTable(t: Text): Option<seq<seq<Text>>>
    decreases |t|
  {
    match ReadRecord(t)
    case None => None
    case Some((fields, rest)) =>
      if rest == [] || rest == CRLF then Some([fields])
      else if |rest| > 1 && rest[..2] == CRLF then
        match ReadTable(rest[2..])
        case None => None
        case Some(records) => Some([fields] + records)
      else None
  }

  // ----- Reading what was printed -----

  function Guarded(row: seq<Cell>): (r: seq<Text>)
    ensures |r| == |row| && forall i | 0 <= i < |r| :: r[i] == Guard(CellText(row[i]))
  {
    seq(|row|, i requires 0 <= i < |row| => Guard(CellText(row[i])))
  }

  /** A row without cells reads as one empty cell, a table without rows as one such row. */
  function Record(row: seq<Cell>): seq<Text> {
    if row == [] then [[]] else Guarded(row)
  }

  function Records(rows: seq<seq<Cell>>): (r: seq<seq<Text>>)
    ensures |r| == |rows| && forall i | 0 <= i < |r| :: r[i] == Record(rows[i])
  {
    seq(|rows|, i requires 0 <= i < |rows| => Record(rows[i]))
  }

  predicate Stops(rest: Text) {
    rest == [] || rest[0] == COMMA || rest[0] == CR
  }

  lemma {:induction false} PlainReads(t: Text, rest: Text)
    requires (forall i | 0 <= i < |t| :: Plain(t[i])) && Stops(rest)
    ensures ReadPlain(t + rest) == (t, rest)
  {
    if t == [] {
      assert t + rest == rest;
    } else {
      PlainReads(t[1..], rest);
      assert (t + rest)[1..] == t[1..] + rest;
      assert [t[0]] + t[1..] == t;
    }
  }

  lemma {:induction false} DoubledReads(t: Text, rest: Text)
    requires Stops(rest)
    ensures ReadQuoted(Doubled(t) + ([QUOTE] + rest)) == Some((t, rest))
  {
    var whole := Doubled(t) + ([QUOTE] + rest);
    if t == [] {
      assert whole[1..] == rest;
    } else {
      DoubledReads(t[1..], rest);
      var n := if t[0] == QUOTE then 2 else 1;
      assert whole[n..] == Doubled(t[1..]) + ([QUOTE] + rest);
      assert [t[0]] + t[1..] == t;
    }
  }

  lemma FieldReads(t: Text, rest: Text)
    requires Stops(rest)
    ensures ReadField(Escape(t) + rest) == Some((t, rest))
  {
    if forall i | 0 <= i < |t| :: Plain(t[i]) {
      PlainReads(t, rest);
      assert t != [] ==> Plain(t[0]);
    } else {
      DoubledReads(t, rest);
      Regroup([QUOTE], Doubled(t), [QUOTE], rest);
      assert ([QUOTE] + (Doubled(t) + ([QUOTE] + rest)))[1..] == Doubled(t) + ([QUOTE] + rest);
    }
  }

  lemma RecordStep(text: Text, field: Text, rest: Text, fields: seq<Text>, after: Text)
    requires ReadField(text) == Some((field, [COMMA] + rest)) && ReadRecord(rest) == Some((fields, after))
    ensures ReadRecord(text) == Some(([field] + fields, after))
  {
    assert ([COMMA] + rest)[1..] == rest;
  }

  lemma LongRow(row: seq<Cell>, rest: Text)
    requires |row| > 1
    ensures PrintRow(row) + rest == EscapeCsvCell(row[0]) + ([COMMA] + (PrintRow(row[1..]) + rest))
    ensures Record(row) == [Guard(CellText(row[0]))] + Record(row[1..])
  {
    Regroup(EscapeCsvCell(row[0]), [COMMA], PrintRow(row[1..]), rest);
  }

  lemma {:induction false} RowReads(row: seq<Cell>, rest: Text)
    requires rest == [] || rest[0] == CR
    ensures ReadRecord(PrintRow(row) + rest) == Some((Record(row), rest))
  {
    if row == [] {
      FieldReads([], rest);
      assert PrintRow(row) == Escape([]);
    } else if |row| == 1 {
      FieldReads(Guard(CellText(row[0])), rest);
      assert Record(row) == [Guard(CellText(row[0]))];
    } else {
      var after := PrintRow(row[1..]) + rest;
      LongRow(row, rest);
      RowReads(row[1..], rest);
      FieldReads(Guard(CellText(row[0])), [COMMA] + after);
      RecordStep(PrintRow(row) + rest, Guard(CellText(row[0])), after, Record(row[1..]), rest);
    }
  }

  /** A table without rows prints like one with a single empty row. */
  function Printed(rows: seq<seq<Cell>>): seq<seq<Cell>> {
    if rows == [] then [[]] else rows
  }

  lemma TableStep(text: Text, fields: seq<Text>, rest: Text)
    requires ReadRecord(text) == Some((fields, CRLF + rest)) && rest != []
    ensures ReadTable(text) == match ReadTable(rest) case None => None case Some(records) => Some([fields] + records)
  {
    assert (CRLF + rest)[..2] == CRLF && (CRLF + rest)[2..] == rest;
    assert |CRLF + rest| > 2;
  }

  lemma LongTable(rows: seq<seq<Cell>>)
    requires |rows| > 1
    ensures PrintTable(rows) == PrintRow(rows[0]) + (CRLF + PrintTable(rows[1..]))
    ensures Records(rows) == [Record(rows[0])] + Records(rows[1..])
  {
    Regroup(PrintRow(rows[0]), CRLF, PrintRows(rows[1..]), CRLF);
  }

  lemma {:induction false} RowsRead(rows: seq<seq<Cell>>)
    requires rows != []
    ensures ReadTable(PrintTable(rows)) == Some(Records(rows))
  {
    if |rows| == 1 {
      RowReads(rows[0], CRLF);
      assert Records(rows) == [Record(rows[0])];
    } else {
      LongTable(rows);
      RowReads(rows[0], CRLF + PrintTable(rows[1..]));
      RowsRead(rows[1..]);
      TableStep(PrintTable(rows), Record(rows[0]), PrintTable(rows[1..]));
    }
  }

  /** Every export reads as a table, and the cells come back exactly as guarded. */
  lemma ExportReads(rows: seq<seq<Cell>>)
    ensures ReadTable(PrintTable(rows)) == Some(Records(Printed(rows)))
  {
    RowsRead(Printed(rows));
    assert PrintTable(rows) == PrintTable(Printed(rows));
  }

  function GuardedTable(rows: seq<seq<Cell>>): (r: seq<seq<Text>>)
    ensures |r| == |rows| && forall i | 0 <= i < |r| :: r[i] == Guarded(rows[i])
  {
    seq(|rows|, i requires 0 <= i < |rows| => Guarded(rows[i]))
  }

  /** The table comes back with all its rows and columns exactly when it has a row and every row a cell. */
  lemma RoundTripExactly(rows: seq<seq<Cell>>)
    ensures ReadTable(PrintTable(rows)) == Some(GuardedTable(rows)) <==> rows != [] && [] !in rows
  {
    ExportReads(rows);
    if rows != [] {
      if [] in rows {
        var i :| 0 <= i < |rows| && rows[i] == [];
        assert Records(rows)[i] != GuardedTable(rows)[i];
      } else {
        assert Records(rows) == GuardedTable(rows);
      }
    }
  }

  /** Starts with `=`, `+`, `-`, `@`, a tab or a carriage return. */
  predicate StartsFormula(t: Text) {
    t != [] && exists c | c in "=+-@\t\r" :: t[0] == c as int
  }

  lemma ActiveExactly(t: Text)
    ensures Active(t) <==> StartsFormula(t)
  {
    var formula := "=+-@\t\r";
    assert formula[0] == '=' && formula[1] == '+' && formula[2] == '-' && formula[3] == '@' && formula[4] == '\t'
           && formula[5] == '\r' && |formula| == 6;
    if Active(t) {
      assert formula[0] in formula && formula[1] in formula && formula[2] in formula && formula[3] in formula
             && formula[4] in formula && formula[5] in formula;
    }
  }

  /** Nothing a reader gets back starts a formula. */
  lemma NoCellIsActive(rows: seq<seq<Cell>>, i: nat, j: nat)
    requires ReadTable(PrintTable(rows)).Some?
    requires i < |ReadTable(PrintTable(rows)).value| && j < |ReadTable(PrintTable(rows)).value[i]|
    ensures !StartsFormula(ReadTable(PrintTable(rows)).value[i][j])
  {
    ExportReads(rows);
    assert Records(Printed(rows))[i] == Record(Printed(rows)[i]);
    ActiveExactly(ReadTable(PrintTable(rows)).value[i][j]);
  }

  /** A string or the text of another value comes back as it is, behind an apostrophe if it starts a
      formula; a missing value comes back as two quotes. */
  lemma CellComesBack(rows: seq<seq<Cell>>, i: nat, j: nat)
    requires [] !in rows && i < |rows| && j < |rows[i]|
    ensures ReadTable(PrintTable(rows)).Some?
    ensures var read := ReadTable(PrintTable(rows)).value;
            && |read| == |rows| && |read[i]| == |rows[i]|
            && read[i][j] == match rows[i][j]
                             case Missing => [34, 34]
                             case Str(t) => if StartsFormula(t) then [39] + t else t
                             case Value(json) => if StartsFormula(json) then [39] + json else json
  {
    RoundTripExactly(rows);
    ActiveExactly(CellText(rows[i][j]));
  }

  /** Two texts are exported alike only if they are equal or one is the other with an apostrophe
      put before a formula. */
  lemma GuardCollides(a: Text, b: Text)
    ensures Guard(a) == Guard(b)
       <==> a == b || (Active(a) && b == [APOSTROPHE] + a) || (Active(b) && a == [APOSTROPHE] + b)
  {
    if Guard(a) == Guard(b) {
      assert Active(a) ==> Guard(a)[1..] == a;
      assert Active(b) ==> Guard(b)[1..] == b;
    }
  }

  predicate Unquoted(c: Cell) {
    CellText(c) == [] || CellText(c)[0] != APOSTROPHE
  }

  /** Different tables of cells that start with no apostrophe are exported differently. */
  lemma ExportIsInjective(a: seq<seq<Cell>>, b: seq<seq<Cell>>, i: nat, j: nat)
    requires a != [] && [] !in a && b != [] && [] !in b && PrintTable(a) == PrintTable(b)
    ensures |a| == |b| && (i < |a| ==> |a[i]| == |b[i]|)
    ensures i < |a| && j < |a[i]| && Unquoted(a[i][j]) && Unquoted(b[i][j]) ==> CellText(a[i][j]) == CellText(b[i][j])
  {
    RoundTripExactly(a);
    RoundTripExactly(b);
    if i < |a| {
      assert GuardedTable(a)[i] == GuardedTable(b)[i];
      if j < |a[i]| {
        assert Guarded(a[i])[j] == Guarded(b[i])[j];
        GuardCollides(CellText(a[i][j]), CellText(b[i][j]));
      }
    }
  }
}
