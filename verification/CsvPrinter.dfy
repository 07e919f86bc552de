/** The CSV output of the analytics exporter, and a reader for RFC 4180 section 2 with LF between
    records. */
module CsvPrinter {
  import opened Basics
  import opened JsText
  import opened OrderedMap

  const QUOTE: Unit := 34
  const COMMA: Unit := 44
  const LF: Unit := 10
  const CR: Unit := 13

  /** A cell: null or undefined, or a value with its string form. */
  datatype Value = Absent | Present(text: Text)

  /** A dashboard row, with its keys in `Object.keys` order. */
  type Row = OMap<Text, Value>

  predicate NeedsQuotes(t: Text) {
    exists i :: 0 <= i < |t| && (t[i] == QUOTE || t[i] == COMMA || t[i] == LF || t[i] == CR)
  }

  function DoubleQuotes(t: Text): Text {
    if t == [] then [] else (if t[0] == QUOTE then [QUOTE, QUOTE] else [t[0]]) + DoubleQuotes(t[1..])
  }

  function EscapeText(t: Text): Text {
    if NeedsQuotes(t) then [QUOTE] + DoubleQuotes(t) + [QUOTE] else t
  }

  function EscapeCsvValue(v: Value): Text {
    match v
    case Absent => []
    case Present(text) => EscapeText(text)
  }

  function Cell(row: Row, column: Text): Value {
    if column in row.vals then row.vals[column] else Absent
  }

  /** What a cell says: a missing one says nothing. */
  function TextOf(v: Value): Text {
    if v.Absent? then [] else v.text
  }

  /** `parts.join(glue)`, also for an empty array. */
  function JoinAll(parts: seq<Text>, glue: Text): Text {
    if parts == [] then [] else Join(parts, glue)
  }

  function HeaderCells(columns: seq<Text>): seq<Text> {
    seq(|columns|, i requires 0 <= i < |columns| => EscapeCsvValue(Present(columns[i])))
  }

  function RowCells(row: Row, columns: seq<Text>): seq<Text> {
    seq(|columns|, i requires 0 <= i < |columns| => EscapeCsvValue(Cell(row, columns[i])))
  }

  function ToCsv(rows: seq<Row>, columns: seq<Text>): Text {
    var header := JoinAll(HeaderCells(columns), [COMMA]);
    var body := seq(|rows|, i requires 0 <= i < |rows| => JoinAll(RowCells(rows[i], columns), [COMMA]));
    Join([header] + body, [LF])
  }

  // ---------------------------------------------------------------------------
  // The reader

  datatype Field = Field(text: Text, rest: Text)

  /** The inside of a quoted field, after its opening quote. */
  function ReadQuoted(s: Text): (r: Option<Field>)
    ensures r.Some? ==> |r.value.rest| < |s|
    decreases |s|
  {
    if s == [] then None
    else if s[0] != QUOTE then
      match ReadQuoted(s[1..])
      case None => None
      case Some(f) => Some(Field([s[0]] + f.text, f.rest))
    else if |s| > 1 && s[1] == QUOTE then
      match ReadQuoted(s[2..])
      case None => None
      case Some(f) => Some(Field([QUOTE] + f.text, f.rest))
    else Some(Field([], s[1..]))
  }

  /** An unquoted field ends before a comma, a line feed or the end, and holds no quote or CR. */
  function ReadPlain(s: Text): (r: Option<Field>)
    ensures r.Some? ==> |r.value.rest| <= |s|
  {
    if s == [] || s[0] == COMMA || s[0] == LF then Some(Field([], s))
    else if s[0] == QUOTE || s[0] == CR then None
    else
      match ReadPlain(s[1..])
      case None => None
      case Some(f) => Some(Field([s[0]] + f.text, f.rest))
  }

  function ReadField(s: Text): (r: Option<Field>)
    ensures r.Some? ==> |r.value.rest| <= |s|
  {
    if s != [] && s[0] == QUOTE then ReadQuoted(s[1..]) else ReadPlain(s)
  }

  /** A reader to which every line feed outside quotes separates two records. */
  function ReadSeparated(s: Text): (r: Option<seq<seq<Text>>>)
    ensures r.Some? ==> r.value != [] && r.value[0] != []
    decreases |s|
  {
    match ReadField(s)
    case None => None
    case Some(f) =>
      if f.rest == [] then Some([[f.text]])
      else if f.rest[0] == COMMA then
        match ReadSeparated(f.rest[1..])
        case None => None
        case Some(more) => Some([[f.text] + more[0]] + more[1..])
      else if f.rest[0] == LF then
        match ReadSeparated(f.rest[1..])
        case None => None
        case Some(more) => Some([[f.text]] + more)
      else None
  }

  /** The reader of section 2: the last record may or may not have an ending line break. */
  function ReadCsv(s: Text): (r: Option<seq<seq<Text>>>)
    ensures r.Some? ==> r.value != [] && r.value[0] != []
    decreases |s|
  {
    match ReadField(s)
    case None => None
    case Some(f) =>
      if f.rest == [] || f.rest == [LF] then Some([[f.text]])
      else if f.rest[0] == COMMA then
        match ReadCsv(f.rest[1..])
        case None => None
        case Some(more) => Some([[f.text] + more[0]] + more[1..])
      else if f.rest[0] == LF then
        match ReadCsv(f.rest[1..])
        case None => None
        case Some(more) => Some([[f.text]] + more)
      else None
  }

  // ---------------------------------------------------------------------------
  // How the two readers differ

  predicate EndsWithLf(s: Text) {
    s != [] && s[|s| - 1] == LF
  }

  /** What a field leaves is the rest of the input, and a field never ends in a line feed. */
  lemma {:induction false} QuotedLeaves(s: Text)
    ensures var r := ReadQuoted(s);
            r.Some? ==>
              && |r.value.rest| < |s| && r.value.rest == s[|s| - |r.value.rest|..]
              && (r.value.rest == [] ==> !EndsWithLf(s))
    decreases |s|
  {
    if s != [] {
      var skipped := if s[0] == QUOTE && |s| > 1 && s[1] == QUOTE then 2 else 1;
      var r := ReadQuoted(s);
      if !(s[0] == QUOTE && skipped == 1) {
        QuotedLeaves(s[skipped..]);
        if r.Some? { EndOfRest(s, skipped, |r.value.rest|); }
      }
    }
  }

  lemma EndOfRest(s: Text, k: nat, n: nat)
    requires k + n <= |s|
    ensures s[k..][|s| - k - n..] == s[|s| - n..]
    ensures k < |s| ==> (EndsWithLf(s[k..]) <==> EndsWithLf(s))
  {
    SuffixOf(s, k, |s| - k - n);
  }

  lemma SuffixOf(s: Text, k: nat, m: nat)
    requires k + m <= |s|
    ensures s[k..][m..] == s[k + m..]
  {
  }

  lemma {:induction false} PlainLeaves(s: Text)
    ensures var r := ReadPlain(s);
            r.Some? ==>
              && |r.value.rest| <= |s| && r.value.rest == s[|s| - |r.value.rest|..]
              && (r.value.rest == [] ==> !EndsWithLf(s))
  {
    if s != [] {
      PlainLeaves(s[1..]);
      var r := ReadPlain(s);
      if r.Some? && |r.value.rest| < |s| { EndOfRest(s, 1, |r.value.rest|); }
    }
  }

  lemma FieldLeaves(s: Text)
    ensures var r := ReadField(s);
            r.Some? ==>
              && |r.value.rest| <= |s| && r.value.rest == s[|s| - |r.value.rest|..]
              && (r.value.rest == [] ==> !EndsWithLf(s))
  {
    if s != [] && s[0] == QUOTE {
      hide ReadQuoted;
      QuotedLeaves(s[1..]);
      var r := ReadField(s);
      if r.Some? {
        assert s[1..][|s| - 1 - |r.value.rest|..] == s[|s| - |r.value.rest|..];
      }
    } else {
      PlainLeaves(s);
    }
  }

  /** A text ends like any non-empty end of it. */
  lemma EndOfEnd(s: Text, n: nat)
    requires n < |s|
    ensures EndsWithLf(s) <==> EndsWithLf(s[n..])
    ensures EndsWithLf(s[n..]) <==> s[n..] == [LF] || EndsWithLf(s[n..][1..])
  {
    var rest := s[n..];
    assert rest[|rest| - 1] == s[|s| - 1];
    if |rest| == 1 {
      assert rest == [rest[0]] && rest[1..] == [];
    } else {
      assert rest[1..][|rest| - 2] == rest[|rest| - 1];
    }
  }

  lemma ReadNothing()
    ensures ReadSeparated([]) == Some([[[]]]) && ReadCsv([]) == Some([[[]]])
  {
  }

  /** A final line feed is one empty record more to the separating reader, and no other input makes
      a difference. */
  lemma {:induction false} ReadersDiffer(s: Text)
    ensures ReadCsv(s).Some? <==> ReadSeparated(s).Some?
    ensures ReadSeparated(s).Some? ==>
              var r := ReadSeparated(s).value;
              if EndsWithLf(s) then |r| > 1 && r[|r| - 1] == [[]] && ReadCsv(s) == Some(r[..|r| - 1])
              else ReadCsv(s) == Some(r)
    decreases |s|
  {
    hide EndsWithLf, ReadField, ReadCsv, ReadSeparated;
    FieldLeaves(s);
    ReaderSteps(s);
    ReadNothing();
    var field := ReadField(s);
    if field.Some? && field.value.rest != [] {
      var rest := field.value.rest;
      EndOfEnd(s, |s| - |rest|);
      LoneFeed(rest);
      ReadersDiffer(rest[1..]);
      var more := ReadSeparated(rest[1..]);
      if more.Some? { WithoutLast(field.value.text, more.value); }
    }
  }

  type Table = Option<seq<seq<Text>>>

  /** The field is the first one of the record that follows. */
  function FieldBefore(t: Text, more: Table): Table
    requires more.Some? ==> more.value != []
  {
    match more case None => None case Some(records) => Some([[t] + records[0]] + records[1..])
  }

  /** The field is a record by itself. */
  function RecordBefore(t: Text, more: Table): Table {
    match more case None => None case Some(records) => Some([[t]] + records)
  }

  lemma ReaderSteps(s: Text)
    ensures match ReadField(s)
            case None => ReadSeparated(s).None? && ReadCsv(s).None?
            case Some(f) =>
              && |f.rest| <= |s|
              && (f.rest == [] ==> ReadSeparated(s) == Some([[f.text]]) && ReadCsv(s) == Some([[f.text]]))
              && (f.rest != [] ==>
                    var more := f.rest[1..];
                    if f.rest[0] == COMMA then
                      && ReadSeparated(s) == FieldBefore(f.text, ReadSeparated(more))
                      && ReadCsv(s) == FieldBefore(f.text, ReadCsv(more))
                    else if f.rest[0] == LF then
                      && ReadSeparated(s) == RecordBefore(f.text, ReadSeparated(more))
                      && ReadCsv(s) == if more == [] then Some([[f.text]]) else RecordBefore(f.text, ReadCsv(more))
                    else ReadSeparated(s).None? && ReadCsv(s).None?)
  {
    hide ReadField;
    var field := ReadField(s);
    if field.Some? && field.value.rest != [] { LoneFeed(field.value.rest); }
  }

  lemma WithoutLast(t: Text, more: seq<seq<Text>>)
    requires more != []
    ensures |more| > 1 ==> ([[t] + more[0]] + more[1..])[..|more| - 1] == [[t] + more[..|more| - 1][0]] + more[..|more| - 1][1..]
    ensures ([[t]] + more)[..|more|] == [[t]] + more[..|more| - 1]
    ensures |more| == 1 ==> [[t]] + more[..|more| - 1] == [[t]]
  {
  }

  lemma LoneFeed(rest: Text)
    requires rest != []
    ensures rest == [LF] <==> rest[0] == LF && rest[1..] == []
    ensures !EndsWithLf([])
  {
  }

  // ---------------------------------------------------------------------------
  // Reading undoes printing

  predicate EndsField(rest: Text) {
    rest == [] || rest[0] == COMMA || rest[0] == LF
  }

  lemma QuotedSteps(u: Unit, tail: Text)
    ensures u != QUOTE ==> ReadQuoted([u] + tail) == Prepend(u, ReadQuoted(tail))
    ensures ReadQuoted([QUOTE, QUOTE] + tail) == Prepend(QUOTE, ReadQuoted(tail))
    ensures EndsField(tail) ==> ReadQuoted([QUOTE] + tail) == Some(Field([], tail))
  {
    assert ([u] + tail)[1..] == tail && ([QUOTE] + tail)[1..] == tail;
    assert ([QUOTE, QUOTE] + tail)[2..] == tail;
  }

  function Prepend(u: Unit, f: Option<Field>): Option<Field> {
    match f case None => None case Some(field) => Some(Field([u] + field.text, field.rest))
  }

  lemma {:induction false} ReadDoubled(t: Text, rest: Text)
    requires EndsField(rest)
    ensures ReadQuoted(DoubleQuotes(t) + [QUOTE] + rest) == Some(Field(t, rest))
  {
    hide ReadQuoted, EndsField;
    var s := DoubleQuotes(t) + [QUOTE] + rest;
    if t == [] {
      QuotedSteps(QUOTE, rest);
      assert s == [QUOTE] + rest;
    } else {
      var tail := DoubleQuotes(t[1..]) + [QUOTE] + rest;
      ReadDoubled(t[1..], rest);
      QuotedSteps(t[0], tail);
      assert t == [t[0]] + t[1..];
      assert s == (if t[0] == QUOTE then [QUOTE, QUOTE] else [t[0]]) + tail;
    }
  }

  lemma {:induction false} ReadUnquoted(t: Text, rest: Text)
    requires EndsField(rest) && !NeedsQuotes(t)
    ensures ReadPlain(t + rest) == Some(Field(t, rest))
  {
    if t == [] {
      assert t + rest == rest;
    } else {
      var s := t + rest;
      assert s[0] == t[0] && s[1..] == t[1..] + rest;
      assert !NeedsQuotes(t[1..]);
      ReadUnquoted(t[1..], rest);
      assert t == [t[0]] + t[1..];
    }
  }

  /** A printed field reads back as its text, whatever it contains. */
  lemma ReadEscaped(t: Text, rest: Text)
    requires EndsField(rest)
    ensures ReadField(EscapeText(t) + rest) == Some(Field(t, rest))
  {
    hide ReadQuoted, ReadPlain, DoubleQuotes;
    var s := EscapeText(t) + rest;
    if NeedsQuotes(t) {
      var tail := DoubleQuotes(t) + [QUOTE] + rest;
      assert s == [QUOTE] + tail;
      assert s[1..] == tail;
      ReadDoubled(t, rest);
    } else {
      ReadUnquoted(t, rest);
      if t == [] {
        assert s == rest;
      } else {
        assert s[0] == t[0] && t[0] != QUOTE;
      }
    }
  }

  /** A field is quoted exactly if it holds a comma, a quote, a line feed or a carriage return. */
  lemma QuotedExactly(t: Text)
    ensures EscapeText(t) == t <==> 34 !in t && 44 !in t && 10 !in t && 13 !in t
    ensures EscapeText(t) != t ==>
              |EscapeText(t)| >= 2 && EscapeText(t)[0] == 34 && EscapeText(t)[|EscapeText(t)| - 1] == 34
  {
    DoubledIsLonger(t);
    assert NeedsQuotes(t) ==> |EscapeText(t)| > |t|;
  }

  lemma {:induction false} DoubledIsLonger(t: Text)
    ensures |DoubleQuotes(t)| >= |t|
  {
    if t != [] { DoubledIsLonger(t[1..]); }
  }

  function Escaped(texts: seq<Text>): (r: seq<Text>)
    ensures |r| == |texts| && forall i :: 0 <= i < |texts| ==> r[i] == EscapeText(texts[i])
  {
    seq(|texts|, i requires 0 <= i < |texts| => EscapeText(texts[i]))
  }

  lemma EscapedCons(texts: seq<Text>)
    requires texts != []
    ensures Escaped(texts) == [EscapeText(texts[0])] + Escaped(texts[1..])
  {
  }

  /** A printed record, at the end of the input or before a line feed, reads back as its fields. */
  lemma {:induction false} ReadLine(texts: seq<Text>, more: Text)
    requires texts != []
    ensures ReadSeparated(Join(Escaped(texts), [COMMA])) == Some([texts])
    ensures ReadSeparated(more).Some? ==>
            ReadSeparated(Join(Escaped(texts), [COMMA]) + [LF] + more) == Some([texts] + ReadSeparated(more).value)
    decreases |texts|
  {
    hide ReadField, EscapeText, Escaped, ReadSeparated;
    var t, others := texts[0], texts[1..];
    EscapedCons(texts);
    assert texts == [t] + others;
    if others == [] {
      assert texts == [t] && Escaped(texts) == [EscapeText(t)];
      JoinOne(EscapeText(t), [COMMA]);
      ReadLastField(t);
      ReadFieldThenLf(t, more);
    } else {
      var line := Join(Escaped(others), [COMMA]);
      JoinEscaped(t, others);
      ReadLine(others, more);
      ReadFieldThenComma(t, line);
      assert [texts] + [others][1..] == [texts];
      ReadFieldThenComma(t, line + [LF] + more);
      if ReadSeparated(more).Some? {
        assert ([others] + ReadSeparated(more).value)[1..] == ReadSeparated(more).value;
      }
      assert Join(Escaped(texts), [COMMA]) + [LF] + more == EscapeText(t) + [COMMA] + (line + [LF] + more);
    }
  }

  lemma JoinEscaped(t: Text, others: seq<Text>)
    requires others != []
    ensures Join([EscapeText(t)] + Escaped(others), [COMMA]) == EscapeText(t) + [COMMA] + Join(Escaped(others), [COMMA])
  {
    assert ([EscapeText(t)] + Escaped(others))[1..] == Escaped(others);
  }

  lemma ReadLastField(t: Text)
    ensures ReadSeparated(EscapeText(t)) == Some([[t]])
  {
    ReadEscaped(t, []);
    assert EscapeText(t) + [] == EscapeText(t);
  }

  lemma ReadFieldThenLf(t: Text, more: Text)
    ensures ReadSeparated(EscapeText(t) + [LF] + more) ==
            if ReadSeparated(more).Some? then Some([[t]] + ReadSeparated(more).value) else None
  {
    hide EscapeText, ReadField;
    ReadEscaped(t, [LF] + more);
    assert EscapeText(t) + ([LF] + more) == EscapeText(t) + [LF] + more;
    assert ([LF] + more)[1..] == more;
  }

  lemma ReadFieldThenComma(t: Text, more: Text)
    ensures ReadSeparated(EscapeText(t) + [COMMA] + more) ==
            if ReadSeparated(more).Some?
            then Some([[t] + ReadSeparated(more).value[0]] + ReadSeparated(more).value[1..]) else None
  {
    hide EscapeText, ReadField;
    ReadEscaped(t, [COMMA] + more);
    assert EscapeText(t) + ([COMMA] + more) == EscapeText(t) + [COMMA] + more;
    assert ([COMMA] + more)[1..] == more;
  }

  /** The texts of a table, header first. */
  function TableTexts(rows: seq<Row>, columns: seq<Text>): seq<seq<Text>> {
    [columns] + seq(|rows|, i requires 0 <= i < |rows| => RowTexts(rows[i], columns))
  }

  function RowTexts(row: Row, columns: seq<Text>): (r: seq<Text>)
    ensures |r| == |columns|
  {
    seq(|columns|, i requires 0 <= i < |columns| => TextOf(Cell(row, columns[i])))
  }

  function Lines(records: seq<seq<Text>>): (r: seq<Text>)
    ensures |r| == |records| && forall i :: 0 <= i < |records| ==> r[i] == JoinAll(Escaped(records[i]), [COMMA])
  {
    seq(|records|, i requires 0 <= i < |records| => JoinAll(Escaped(records[i]), [COMMA]))
  }

  lemma {:induction false} ReadLines(records: seq<seq<Text>>)
    requires records != [] && forall i :: 0 <= i < |records| ==> records[i] != []
    ensures ReadSeparated(Join(Lines(records), [LF])) == Some(records)
    decreases |records|
  {
    hide ReadSeparated, Escaped, Join, Lines;
    var first, others := records[0], records[1..];
    var line := Join(Escaped(first), [COMMA]);
    assert Lines(records) == [line] + Lines(others);
    assert records == [first] + others;
    ReadLine(first, if others == [] then [] else Join(Lines(others), [LF]));
    if others == [] {
      assert records == [first] && Lines(records) == [line];
      JoinOne(line, [LF]);
    } else {
      ReadLines(others);
      JoinCons(line, Lines(others));
    }
  }

  lemma JoinCons(line: Text, lines: seq<Text>)
    requires lines != []
    ensures Join([line] + lines, [LF]) == line + [LF] + Join(lines, [LF])
  {
    assert ([line] + lines)[1..] == lines;
  }

  lemma PrintedAsLines(rows: seq<Row>, columns: seq<Text>)
    ensures ToCsv(rows, columns) == Join(Lines(TableTexts(rows, columns)), [LF])
  {
    hide Join, JoinAll, EscapeText;
    AbsentPrintsEmpty();
    assert HeaderCells(columns) == Escaped(columns);
    var records := TableTexts(rows, columns);
    var body := seq(|rows|, i requires 0 <= i < |rows| => JoinAll(RowCells(rows[i], columns), [COMMA]));
    forall i | 0 <= i < |rows| ensures body[i] == JoinAll(Escaped(records[i + 1]), [COMMA]) {
      assert RowCells(rows[i], columns) == Escaped(RowTexts(rows[i], columns));
    }
    assert [JoinAll(HeaderCells(columns), [COMMA])] + body == Lines(records);
  }

  lemma AbsentPrintsEmpty()
    ensures EscapeText([]) == []
  {
  }

  /** To the separating reader, the printed table is the table if and only if it has a column. */
  lemma SeparatedRoundTrip(rows: seq<Row>, columns: seq<Text>)
    ensures ReadSeparated(ToCsv(rows, columns)) == Some(TableTexts(rows, columns)) <==> columns != []
  {
    hide ReadSeparated, ToCsv, Lines;
    PrintedAsLines(rows, columns);
    var records := TableTexts(rows, columns);
    if columns != [] {
      ReadLines(records);
    } else {
      assert records[0] == [];
    }
  }

  /** The last line of the output is empty. */
  predicate LastLineEmpty(rows: seq<Row>, columns: seq<Text>) {
    |columns| == 1 && rows != [] && TextOf(Cell(rows[|rows| - 1], columns[0])) == []
  }

  /** MAIN RESULT. The reader of RFC 4180 section 2 gets the header and every field text back exactly
      if and only if there is a column and the last line is not empty: the line break before an
      empty last line is the optional one after the record before it. */
  lemma CsvRoundTrip(rows: seq<Row>, columns: seq<Text>)
    ensures ReadCsv(ToCsv(rows, columns)) == Some(TableTexts(rows, columns)) <==>
            columns != [] && !LastLineEmpty(rows, columns)
    ensures LastLineEmpty(rows, columns) ==>
              ReadCsv(ToCsv(rows, columns)) == Some(TableTexts(rows[..|rows| - 1], columns))
  {
    hide ReadSeparated, ReadCsv, ToCsv, EndsWithLf;
    SeparatedRoundTrip(rows, columns);
    ReadersDiffer(ToCsv(rows, columns));
    var records := TableTexts(rows, columns);
    if columns == [] {
      assert records[0] == [];
    } else {
      LastRecord(rows, columns);
      PrintedAsLines(rows, columns);
      LastLine(records);
    }
  }

  lemma LastRecord(rows: seq<Row>, columns: seq<Text>)
    ensures var records := TableTexts(rows, columns);
            && (LastLineEmpty(rows, columns) <==> |records| > 1 && records[|records| - 1] == [[]])
            && (rows != [] ==> records[..|records| - 1] == TableTexts(rows[..|rows| - 1], columns))
  {
    if rows != [] {
      var last := RowTexts(rows[|rows| - 1], columns);
      assert last == [[]] <==> |columns| == 1 && last[0] == [];
    }
  }

  /** An empty last line is what follows a final line feed. */
  lemma {:induction false} LastLine(records: seq<seq<Text>>)
    requires records != []
    ensures |records| > 1 && records[|records| - 1] == [[]] ==> EndsWithLf(Join(Lines(records), [LF]))
  {
    hide Join, JoinAll, Lines, Escaped, EndsWithLf;
    if |records| > 1 && records[|records| - 1] == [[]] {
      var others := records[1..];
      var line := LinesCons(records);
      JoinCons(line, Lines(others));
      if |others| == 1 {
        assert others == [[[]]];
        EmptyLine();
      } else {
        LastLine(others);
      }
      LfStays(line, Join(Lines(others), [LF]));
    }
  }

  lemma LinesCons(records: seq<seq<Text>>) returns (line: Text)
    requires records != []
    ensures Lines(records) == [line] + Lines(records[1..])
  {
    line := Lines(records)[0];
  }

  lemma EmptyLine()
    ensures Join(Lines([[[]]]), [LF]) == []
  {
    AbsentPrintsEmpty();
    assert Lines([[[]]]) == [[]];
  }

  lemma LfStays(line: Text, rest: Text)
    requires rest == [] || EndsWithLf(rest)
    ensures EndsWithLf(line + [LF] + rest)
  {
  }

  /** Tables that print alike have the same texts, whatever their last lines are. */
  lemma CsvInjective(rows: seq<Row>, rows': seq<Row>, columns: seq<Text>, columns': seq<Text>)
    requires columns != [] && columns' != [] && ToCsv(rows, columns) == ToCsv(rows', columns')
    ensures TableTexts(rows, columns) == TableTexts(rows', columns')
  {
    SeparatedRoundTrip(rows, columns);
    SeparatedRoundTrip(rows', columns');
  }

  // ---------------------------------------------------------------------------
  // Columns

  function AllKeys(rows: seq<Row>): seq<Text> {
    if rows == [] then [] else AllKeys(rows[..|rows| - 1]) + rows[|rows| - 1].keys
  }

  /** Given columns win when there are any; otherwise all row keys, in order of first appearance. */
  method ResolveColumns(rows: seq<Row>, columns: seq<Text>) returns (resolved: seq<Text>)
    ensures resolved == if columns != [] then columns else FirstSeen(AllKeys(rows))
  {
    if |columns| > 0 {
      return columns;
    }
    hide AllKeys, FirstSeen;
    resolved := [];
    AllKeysNext(rows, 0);
    ghost var seen: seq<Text> := [];
    for i := 0 to |rows|
      invariant seen == AllKeys(rows[..i]) && resolved == FirstSeen(seen)
    {
      AllKeysNext(rows, i);
      resolved := AddNewKeys(resolved, rows[i].keys, seen);
      seen := seen + rows[i].keys;
    }
    assert rows[..|rows|] == rows;
  }

  lemma AllKeysNext(rows: seq<Row>, i: nat)
    requires i <= |rows|
    ensures AllKeys(rows[..0]) == [] && FirstSeen<Text>([]) == []
    ensures i < |rows| ==> AllKeys(rows[..i + 1]) == AllKeys(rows[..i]) + rows[i].keys
  {
    if i < |rows| { assert rows[..i + 1][..i] == rows[..i]; }
  }

  /** The inner loop: each key joins the set unless it is in it. */
  method AddNewKeys(before: seq<Text>, keys: seq<Text>, ghost seen: seq<Text>) returns (resolved: seq<Text>)
    requires before == FirstSeen(seen)
    ensures resolved == FirstSeen(seen + keys)
  {
    hide FirstSeen;
    resolved := before;
    ghost var all := seen;
    for j := 0 to |keys|
      invariant all == seen + keys[..j] && resolved == FirstSeen(all)
    {
      FirstSeenAppend(all, keys[j]);
      FirstSeenMembers(all);
      if keys[j] !in resolved {
        resolved := resolved + [keys[j]];
      }
      all := all + [keys[j]];
    }
    assert keys[..|keys|] == keys;
  }
}
