/**
 The lead export (apps/api/src/routes/ownerLeads.ts) and a reader for the format of
 section 2 of RFC 4180: records separated by CRLF, the last one's CRLF optional, fields
 separated by commas, quoted fields with doubled quotes inside.
 */
module Csv {
  import opened Common

  type Record = seq<string>

  const MAX_EXPORT_ROWS := 1000
  const HEADER: Record := ["createdAt", "status", "source", "name", "email", "phone", "portal", "listing", "message"]

  // --------------------------------------------------------------------- printer

  /** `\s` of the formula test: the ECMAScript white space and line terminators. */
  predicate IsSpace(c: char) {
    || c == '\t' || c == '\n' || c == '\r' || c == ' ' || c == '\U{000B}' || c == '\U{000C}' || c == '\U{00A0}'
    || c == '\U{1680}' || ('\U{2000}' <= c <= '\U{200A}') || c == '\U{2028}' || c == '\U{2029}' || c == '\U{202F}'
    || c == '\U{205F}' || c == '\U{3000}' || c == '\U{FEFF}'
  }

  /** By code point. */
  lemma IsSpaceIff(c: char)
    ensures
      var n := c as int;
      IsSpace(c) <==>
        || 0x9 <= n <= 0xD || n == 0x20 || n == 0xA0 || n == 0x1680 || 0x2000 <= n <= 0x200A
        || n == 0x2028 || n == 0x2029 || n == 0x202F || n == 0x205F || n == 0x3000 || n == 0xFEFF
  {
  }

  predicate IsTrigger(c: char) { c == '=' || c == '+' || c == '-' || c == '@' }

  /** A spreadsheet would read the text as a formula: optional white space, then a trigger. */
  predicate IsFormula(text: string) {
    text != [] && (IsTrigger(text[0]) || (IsSpace(text[0]) && IsFormula(text[1..])))
  }

  /** The source's regular expression matches here: nothing but white space before one of four characters. */
  predicate TriggerAt(text: string, k: int) {
    0 <= k < |text| && text[k] in "=+-@" && forall j :: 0 <= j < k ==> IsSpace(text[j])
  }

  lemma {:induction false} FormulaHasTrigger(text: string) returns (k: nat)
    requires IsFormula(text)
    ensures TriggerAt(text, k)
  {
    if IsTrigger(text[0]) {
      k := 0;
    } else {
      var at := FormulaHasTrigger(text[1..]);
      k := at + 1;
      forall j | 0 <= j < k ensures IsSpace(text[j]) {
        assert j > 0 ==> text[j] == text[1..][j - 1];
      }
    }
  }

  lemma {:induction false} TriggerMakesFormula(text: string, k: nat)
    requires TriggerAt(text, k)
    ensures IsFormula(text)
  {
    if k > 0 {
      TriggerMakesFormula(text[1..], k - 1);
      assert IsSpace(text[0]);
    }
  }

  lemma IsFormulaIff(text: string)
    ensures IsFormula(text) <==> exists k :: TriggerAt(text, k)
  {
    if IsFormula(text) {
      var k := FormulaHasTrigger(text);
    }
    forall k | TriggerAt(text, k) ensures IsFormula(text) {
      TriggerMakesFormula(text, k);
    }
  }

  function Guard(text: string): (r: string)
    ensures !IsFormula(r)
  {
    if IsFormula(text) then ['\''] + text else text
  }

  function DoubleQuotes(text: string): string {
    if text == [] then []
    else (if text[0] == '"' then ['"', '"'] else [text[0]]) + DoubleQuotes(text[1..])
  }

  /** What a cell's value is meant to read back as: null as empty text, formulas defused. */
  function CellText(value: Option<string>): string {
    Guard(if value.Some? then value.value else [])
  }

  /** Null prints as nothing, a text that is no formula as itself, and a formula behind a single quote. */
  lemma CellTextMeans(value: Option<string>)
    ensures value == None ==> CellText(value) == ""
    ensures value.Some? && (exists k :: TriggerAt(value.value, k)) ==> CellText(value) == "'" + value.value
    ensures value.Some? && !(exists k :: TriggerAt(value.value, k)) ==> CellText(value) == value.value
  {
    if value.Some? {
      IsFormulaIff(value.value);
    }
  }

  function Quote(text: string): string {
    ['"'] + DoubleQuotes(text) + ['"']
  }

  function CsvCell(value: Option<string>): string {
    Quote(CellText(value))
  }

  function PrintRecord(cells: seq<Option<string>>): string {
    if cells == [] then []
    else if |cells| == 1 then CsvCell(cells[0])
    else CsvCell(cells[0]) + [','] + PrintRecord(cells[1..])
  }

  function PrintTable(rows: seq<seq<Option<string>>>): string {
    if rows == [] then []
    else if |rows| == 1 then PrintRecord(rows[0])
    else PrintRecord(rows[0]) + (['\r', '\n'] + PrintTable(rows[1..]))
  }

  function HeaderCells(): seq<Option<string>> {
    seq(|HEADER|, i requires 0 <= i < |HEADER| => Some(HEADER[i]))
  }

  /** One exported lead, its time already printed; the phone may be missing, and so may the listing. */
  datatype Lead = Lead(
    createdAt: string, status: string, source: string, visitorName: string, visitorEmail: string,
    visitorPhone: Option<string>, portalName: string, listingAddress: Option<string>, message: string)

  function Cells(lead: Lead): seq<Option<string>> {
    [Some(lead.createdAt), Some(lead.status), Some(lead.source), Some(lead.visitorName), Some(lead.visitorEmail),
     lead.visitorPhone, Some(lead.portalName), lead.listingAddress, Some(lead.message)]
  }

  function Rows(leads: seq<Lead>): (rows: seq<seq<Option<string>>>)
    ensures |rows| == |leads| && forall i :: 0 <= i < |leads| ==> rows[i] == Cells(leads[i])
  {
    seq(|leads|, i requires 0 <= i < |leads| => Cells(leads[i]))
  }

  /** A header and at most a thousand leads. */
  function Sheet(leads: seq<Lead>): (rows: seq<seq<Option<string>>>)
    ensures |rows| == 1 + Min(|leads|, MAX_EXPORT_ROWS) && rows[0] == HeaderCells()
    ensures forall i :: 1 <= i < |rows| ==> rows[i] == Cells(leads[i - 1])
  {
    [HeaderCells()] + Rows(leads[..Min(|leads|, MAX_EXPORT_ROWS)])
  }

  /** The response body. */
  function ExportCsv(leads: seq<Lead>): string {
    PrintTable(Sheet(leads))
  }

  // ---------------------------------------------------------------------- reader

  /** The rest of a quoted field: its text, and what follows the closing quote. */
  function ReadQuoted(s: string): (r: Option<(string, string)>)
    ensures r.Some? ==> |r.value.1| < |s|
  {
    if s == [] then None
    else if s[0] != '"' then
      match ReadQuoted(s[1..])
      case None => None
      case Some(p) => Some(([s[0]] + p.0, p.1))
    else if |s| >= 2 && s[1] == '"' then
      match ReadQuoted(s[2..])
      case None => None
      case Some(p) => Some((['"'] + p.0, p.1))
    else Some(([], s[1..]))
  }

  /** An unquoted field: everything up to a comma, a quote or a line break. */
  function ReadBare(s: string): (r: (string, string))
    ensures |r.1| <= |s|
  {
    if s == [] || s[0] == ',' || s[0] == '"' || s[0] == '\r' || s[0] == '\n' then ([], s)
    else
      var p := ReadBare(s[1..]);
      ([s[0]] + p.0, p.1)
  }

  function ReadField(s: string): (r: Option<(string, string)>)
    ensures r.Some? ==> |r.value.1| <= |s|
  {
    if s != [] && s[0] == '"' then ReadQuoted(s[1..]) else Some(ReadBare(s))
  }

  /** One field, then a comma and more of the record, or its end; what is left starts after the record. */
  function ReadRecord(s: string): (r: Option<(Record, string)>)
    ensures r.Some? ==> |r.value.1| <= |s| && r.value.0 != []
    decreases |s|
  {
    match ReadField(s)
    case None => None
    case Some((field, rest)) =>
      if rest != [] && rest[0] == ',' then
        match ReadRecord(rest[1..])
        case None => None
        case Some((more, after)) => Some(([field] + more, after))
      else Some(([field], rest))
  }

  /** Records separated by CRLF, with an optional last one; anything else is not CSV. */
  function ReadTable(s: string): Option<seq<Record>>
    decreases |s|
  {
    match ReadRecord(s)
    case None => None
    case Some((record, rest)) =>
      if rest == [] || rest == ['\r', '\n'] then Some([record])
      else if |rest| >= 2 && rest[0] == '\r' && rest[1] == '\n' then
        match ReadTable(rest[2..])
        case None => None
        case Some(more) => Some([record] + more)
      else None
  }

  // ------------------------------------------------------------------ round trip

  /** A quoted text reads back as itself, provided no quote follows the closing one. */
  lemma {:induction false} QuotedRoundTrip(text: string, after: string)
    requires after == [] || after[0] != '"'
    ensures ReadQuoted(DoubleQuotes(text) + ['"'] + after) == Some((text, after))
  {
    var s := DoubleQuotes(text) + ['"'] + after;
    if text == [] {
      assert s == ['"'] + after;
    } else {
      QuotedRoundTrip(text[1..], after);
      var tail := DoubleQuotes(text[1..]) + ['"'] + after;
      if text[0] == '"' {
        assert s == ['"', '"'] + tail;
        assert s[2..] == tail;
      } else {
        assert s == [text[0]] + tail;
        assert s[1..] == tail;
      }
      assert text == [text[0]] + text[1..];
    }
  }

  lemma FieldRoundTrip(text: string, after: string)
    requires after == [] || after[0] != '"'
    ensures ReadField(Quote(text) + after) == Some((text, after))
  {
    QuotedRoundTrip(text, after);
    var s := Quote(text) + after;
    assert s[1..] == DoubleQuotes(text) + ['"'] + after;
  }

  function Texts(cells: seq<Option<string>>): Record {
    seq(|cells|, i requires 0 <= i < |cells| => CellText(cells[i]))
  }

  lemma ReadRecordGoesOn(s: string, field: string, rest: string, more: Record, after: string)
    requires ReadField(s) == Some((field, rest)) && rest != [] && rest[0] == ','
    requires ReadRecord(rest[1..]) == Some((more, after))
    ensures ReadRecord(s) == Some(([field] + more, after))
  {
  }

  lemma Regroup(a: string, b: string, c: string)
    ensures a + [','] + b + c == a + ([','] + (b + c))
  {
  }

  lemma {:induction false} RecordRoundTrip(cells: seq<Option<string>>, after: string)
    requires cells != [] && (after == [] || after[0] == '\r')
    ensures ReadRecord(PrintRecord(cells) + after) == Some((Texts(cells), after))
  {
    if |cells| == 1 {
      FieldRoundTrip(CellText(cells[0]), after);
      assert Texts(cells) == [CellText(cells[0])];
    } else {
      RecordRoundTrip(cells[1..], after);
      var tail := PrintRecord(cells[1..]) + after;
      var rest := [','] + tail;
      FieldRoundTrip(CellText(cells[0]), rest);
      Regroup(CsvCell(cells[0]), PrintRecord(cells[1..]), after);
      assert rest[1..] == tail;
      ReadRecordGoesOn(PrintRecord(cells) + after, CellText(cells[0]), rest, Texts(cells[1..]), after);
      assert Texts(cells) == [CellText(cells[0])] + Texts(cells[1..]);
    }
  }

  ghost function TableTexts(rows: seq<seq<Option<string>>>): seq<Record> {
    seq(|rows|, i requires 0 <= i < |rows| => Texts(rows[i]))
  }

  lemma PrintedIsNotEmpty(rows: seq<seq<Option<string>>>)
    requires rows != [] && rows[0] != []
    ensures |PrintTable(rows)| >= 2 && PrintTable(rows)[0] == '"'
  {
    assert |PrintRecord(rows[0])| >= 2 && PrintRecord(rows[0])[0] == '"';
  }

  lemma TableTextsCons(rows: seq<seq<Option<string>>>)
    requires rows != []
    ensures TableTexts(rows) == [Texts(rows[0])] + TableTexts(rows[1..])
  {
  }

  lemma ReadTableGoesOn(s: string, record: Record, rest: string, more: seq<Record>)
    requires ReadRecord(s) == Some((record, rest)) && |rest| > 2 && rest[0] == '\r' && rest[1] == '\n'
    requires ReadTable(rest[2..]) == Some(more)
    ensures ReadTable(s) == Some([record] + more)
  {
  }

  /** Reading a printed table gives every cell's guarded text back, whatever the cells contain. */
  lemma {:induction false} TableRoundTrip(rows: seq<seq<Option<string>>>)
    requires rows != [] && forall i :: 0 <= i < |rows| ==> rows[i] != []
    ensures ReadTable(PrintTable(rows)) == Some(TableTexts(rows))
  {
    if |rows| == 1 {
      RecordRoundTrip(rows[0], []);
      assert PrintRecord(rows[0]) + [] == PrintRecord(rows[0]);
      assert TableTexts(rows) == [Texts(rows[0])];
    } else {
      TableRoundTrip(rows[1..]);
      PrintedIsNotEmpty(rows[1..]);
      var rest := ['\r', '\n'] + PrintTable(rows[1..]);
      RecordRoundTrip(rows[0], rest);
      assert rest[2..] == PrintTable(rows[1..]);
      ReadTableGoesOn(PrintTable(rows), Texts(rows[0]), rest, TableTexts(rows[1..]));
      TableTextsCons(rows);
    }
  }

  predicate NoFormula(table: seq<Record>) {
    forall i, j :: 0 <= i < |table| && 0 <= j < |table[i]| ==> !IsFormula(table[i][j])
  }

  lemma GuardedNeverFormula(rows: seq<seq<Option<string>>>)
    ensures NoFormula(TableTexts(rows))
  {
    forall i, j | 0 <= i < |rows| && 0 <= j < |rows[i]| ensures !IsFormula(TableTexts(rows)[i][j]) {
      assert TableTexts(rows)[i][j] == CellText(rows[i][j]);
    }
  }

  predicate PrintsAs(lead: Lead, record: Record) {
    && |record| == 9
    && record[0] == Guard(lead.createdAt) && record[1] == Guard(lead.status) && record[2] == Guard(lead.source)
    && record[3] == Guard(lead.visitorName) && record[4] == Guard(lead.visitorEmail)
    && record[5] == (if lead.visitorPhone.Some? then Guard(lead.visitorPhone.value) else "")
    && record[6] == Guard(lead.portalName)
    && record[7] == (if lead.listingAddress.Some? then Guard(lead.listingAddress.value) else "")
    && record[8] == Guard(lead.message)
  }

  lemma CellsPrint(lead: Lead)
    ensures PrintsAs(lead, Texts(Cells(lead)))
  {
    var cells, record := Cells(lead), Texts(Cells(lead));
    assert |record| == 9;
    forall i | 0 <= i < 9 ensures record[i] == CellText(cells[i]) {
    }
  }

  /**
   The export of any leads reads back as the header and the first thousand leads, column by
   column, with every text guarded, nothing for what is missing, and no cell a formula.
   */
  lemma ExportRoundTrip(leads: seq<Lead>) returns (table: seq<Record>)
    ensures ReadTable(ExportCsv(leads)) == Some(table) && NoFormula(table)
    ensures |table| == 1 + Min(|leads|, 1000)
    ensures table[0] == ["createdAt", "status", "source", "name", "email", "phone", "portal", "listing", "message"]
    ensures forall i :: 0 <= i < Min(|leads|, 1000) ==> PrintsAs(leads[i], table[1 + i])
  {
    HeaderIsPlain();
    SheetIsFull(leads);
    TableRead(Sheet(leads));
    LeadsPrint(leads);
    table := TableTexts(Sheet(leads));
  }

  lemma SheetIsFull(leads: seq<Lead>)
    ensures forall i :: 0 <= i < |Sheet(leads)| ==> Sheet(leads)[i] != []
  {
    HeaderIsPlain();
  }

  lemma LeadsPrint(leads: seq<Lead>)
    ensures forall i :: 0 <= i < Min(|leads|, 1000) ==> PrintsAs(leads[i], TableTexts(Sheet(leads))[1 + i])
  {
    forall i | 0 <= i < Min(|leads|, 1000) ensures PrintsAs(leads[i], TableTexts(Sheet(leads))[1 + i]) {
      CellsPrint(leads[i]);
    }
  }

  lemma TableRead(rows: seq<seq<Option<string>>>)
    requires rows != [] && forall i :: 0 <= i < |rows| ==> rows[i] != []
    ensures ReadTable(PrintTable(rows)) == Some(TableTexts(rows)) && NoFormula(TableTexts(rows))
  {
    TableRoundTrip(rows);
    GuardedNeverFormula(rows);
  }

  lemma HeaderIsPlain()
    ensures HeaderCells() != [] && Texts(HeaderCells()) == HEADER
  {
    forall i | 0 <= i < |HEADER| ensures Guard(HEADER[i]) == HEADER[i] {
      assert !IsTrigger(HEADER[i][0]) && !IsSpace(HEADER[i][0]);
    }
  }

  /**
   What the guard loses, exactly: two texts collide when one is a formula and the other is
   it with a quote in front.
   */
  lemma GuardCollidesIff(a: string, b: string)
    ensures Guard(a) == Guard(b) <==>
      a == b || (IsFormula(a) && b == ['\''] + a) || (IsFormula(b) && a == ['\''] + b)
  {
    assert !IsFormula(['\''] + a) && !IsFormula(['\''] + b);
    if IsFormula(a) && IsFormula(b) && Guard(a) == Guard(b) {
      assert Guard(a)[1..] == a && Guard(b)[1..] == b;
    }
  }
}
