// The import page's CSV parser, over UTF-16 code units.
module Csv {
  import opened Wrappers

  type Text = seq<nat>
  type Record = seq<Text>

  const QUOTE: nat := 0x22
  const COMMA: nat := 0x2C
  const CR: nat := 0x0D
  const LF: nat := 0x0A
  const BOM: nat := 0xFEFF

  // ------------------------------------------------------------------- trim

  // What String.prototype.trim strips.
  predicate IsSpace(c: nat) {
    || 9 <= c <= 13 || c == 0x20 || c == 0xA0 || c == 0x1680 || 0x2000 <= c <= 0x200A
    || c == 0x2028 || c == 0x2029 || c == 0x202F || c == 0x205F || c == 0x3000 || c == BOM
  }

  predicate AllSpace(t: Text) {
    forall i | 0 <= i < |t| :: IsSpace(t[i])
  }

  function Trim(t: Text): Text {
    if t == [] then t
    else if IsSpace(t[0]) then Trim(t[1..])
    else if IsSpace(t[|t| - 1]) then Trim(t[..|t| - 1])
    else t
  }

  // The one text without space at its ends that is left when space is removed
  // from both ends of t.
  lemma {:induction false} TrimMeaning(left: Text, kept: Text, right: Text)
    requires AllSpace(left) && AllSpace(right)
    requires kept != [] ==> !IsSpace(kept[0]) && !IsSpace(kept[|kept| - 1])
    ensures Trim(left + kept + right) == kept
  {
    var t := left + kept + right;
    if left != [] {
      assert t[1..] == left[1..] + kept + right;
      TrimMeaning(left[1..], kept, right);
    } else if kept == [] && right != [] {
      assert t[1..] == left + kept + right[1..];
      TrimMeaning(left, kept, right[1..]);
    } else if right != [] {
      assert t[..|t| - 1] == left + kept + right[..|right| - 1];
      TrimMeaning(left, kept, right[..|right| - 1]);
    } else {
      assert t == kept;
    }
  }

  lemma {:induction false} TrimSplits(t: Text) returns (left: Text, right: Text)
    ensures Splits(t, left, Trim(t), right)
  {
    left, right := [], [];
    if t != [] {
      if IsSpace(t[0]) {
        left, right := TrimSplits(t[1..]);
        TrimGrows(t, t[1..], [t[0]], [], left, Trim(t[1..]), right);
        left := [t[0]] + left;
      } else if IsSpace(t[|t| - 1]) {
        left, right := TrimSplits(t[..|t| - 1]);
        TrimGrows(t, t[..|t| - 1], [], [t[|t| - 1]], left, Trim(t[..|t| - 1]), right);
        right := right + [t[|t| - 1]];
      }
    }
  }

  predicate Splits(t: Text, left: Text, kept: Text, right: Text) {
    && t == left + kept + right && AllSpace(left) && AllSpace(right)
    && (kept != [] ==> !IsSpace(kept[0]) && !IsSpace(kept[|kept| - 1]))
  }

  lemma TrimGrows(t: Text, inner: Text, first: Text, last: Text, left: Text, kept: Text, right: Text)
    requires Splits(inner, left, kept, right) && t == first + inner + last && AllSpace(first) && AllSpace(last)
    ensures Splits(t, first + left, kept, right + last)
    ensures first == [] ==> first + left == left
    ensures last == [] ==> right + last == right
  {
  }

  // What counts as space, code by code: ECMAScript's white space and line ends.
  lemma SpaceCodes(c: nat)
    ensures Trim([c]) == [] <==>
              c in {9, 10, 11, 12, 13, 32, 160, 5760, 8192, 8193, 8194, 8195, 8196, 8197, 8198, 8199, 8200, 8201, 8202,
                    8232, 8233, 8239, 8287, 12288, 65279}
    ensures Trim([c]) != [] ==> Trim([c]) == [c]
  {
  }

  // ------------------------------------------------------------------- scan

  // The scanner's variables.
  datatype Scanner = Scanner(records: seq<Record>, cur: Record, field: Text, inQuotes: bool)

  function Scan(s: Scanner, t: Text): Scanner
    decreases |t|
  {
    if t == [] then s
    else if s.inQuotes then
      if t[0] == QUOTE then
        if 1 < |t| && t[1] == QUOTE then Scan(s.(field := s.field + [QUOTE]), t[2..])
        else Scan(s.(inQuotes := false), t[1..])
      else Scan(s.(field := s.field + [t[0]]), t[1..])
    else if t[0] == QUOTE then Scan(s.(inQuotes := true), t[1..])
    else if t[0] == COMMA then Scan(s.(cur := s.cur + [s.field], field := []), t[1..])
    else if t[0] == CR then Scan(s, t[1..])
    else if t[0] == LF then Scan(Scanner(s.records + [s.cur + [s.field]], [], [], false), t[1..])
    else Scan(s.(field := s.field + [t[0]]), t[1..])
  }

  // The last record, when no line break ends it.
  function Finish(s: Scanner): seq<Record> {
    if s.field != [] || s.cur != [] then s.records + [s.cur + [s.field]] else s.records
  }

  function DropTrailing(records: seq<Record>): seq<Record> {
    if records != [] && records[|records| - 1] == [[]] then DropTrailing(records[..|records| - 1]) else records
  }

  function Unmarked(t: Text): Text {
    if t != [] && t[0] == BOM then t[1..] else t
  }

  function Records(t: Text): seq<Record> {
    DropTrailing(Finish(Scan(Scanner([], [], [], false), Unmarked(t))))
  }

  // -------------------------------------------------------------- documents

  // Section 2 of RFC 4180: a field is quoted, its quotes doubled, or bare. A
  // record's fields are separated by commas and its line ends in CRLF; the last
  // line break is optional. The parser also accepts bare text around the quotes,
  // LF alone, and carriage returns anywhere in bare text, which it drops.
  datatype Cell = Bare(text: Text) | Quoted(before: Text, inner: Text, after: Text)
  datatype Line = Line(cells: seq<Cell>, crlf: bool)
  datatype Document = Document(lines: seq<Line>, lastBreak: bool, bom: bool)

  predicate Special(c: nat) {
    c == '"' as int || c == ',' as int || c == '\n' as int
  }

  predicate PlainText(t: Text) {
    forall i | 0 <= i < |t| :: !Special(t[i])
  }

  predicate ValidCell(c: Cell) {
    match c
    case Bare(text) => PlainText(text)
    case Quoted(before, _, after) => PlainText(before) && PlainText(after)
  }

  predicate ValidCells(cells: seq<Cell>) {
    cells != [] && forall i | 0 <= i < |cells| :: ValidCell(cells[i])
  }

  predicate ValidLines(lines: seq<Line>) {
    forall i | 0 <= i < |lines| :: ValidCells(lines[i].cells)
  }

  function Doubled(t: Text): Text {
    if t == [] then [] else (if t[0] == '"' as int then ['"' as int, '"' as int] else [t[0]]) + Doubled(t[1..])
  }

  function PrintCell(c: Cell): Text {
    match c
    case Bare(text) => text
    case Quoted(before, inner, after) => before + (['"' as int] + Doubled(inner) + ['"' as int] + after)
  }

  function WithoutReturns(t: Text): Text {
    if t == [] then [] else (if t[0] == '\r' as int then [] else [t[0]]) + WithoutReturns(t[1..])
  }

  function TextOf(c: Cell): Text {
    match c
    case Bare(text) => WithoutReturns(text)
    case Quoted(before, inner, after) => WithoutReturns(before) + inner + WithoutReturns(after)
  }

  function PrintCells(cells: seq<Cell>): Text
    requires cells != []
  {
    if |cells| == 1 then PrintCell(cells[0]) else PrintCell(cells[0]) + [',' as int] + PrintCells(cells[1..])
  }

  function LineBreak(l: Line): Text {
    if l.crlf then ['\r' as int, '\n' as int] else ['\n' as int]
  }

  function PrintLines(lines: seq<Line>, lastBreak: bool): Text
    requires ValidLines(lines)
  {
    if lines == [] then []
    else
      PrintCells(lines[0].cells)
      + (if |lines| > 1 || lastBreak then LineBreak(lines[0]) + PrintLines(lines[1..], lastBreak) else [])
  }

  function Print(d: Document): Text
    requires ValidLines(d.lines)
  {
    (if d.bom then [0xFEFF] else []) + PrintLines(d.lines, d.lastBreak)
  }

  function Values(cells: seq<Cell>): (r: Record)
    ensures |r| == |cells|
  {
    seq(|cells|, i requires 0 <= i < |cells| => TextOf(cells[i]))
  }

  function AllValues(lines: seq<Line>): (r: seq<Record>)
    ensures |r| == |lines|
  {
    seq(|lines|, i requires 0 <= i < |lines| => Values(lines[i].cells))
  }

  // ------------------------------------------------------------ parse∘print

  lemma {:induction false} ScanDoubled(s: Scanner, t: Text, rest: Text)
    requires s.inQuotes && (rest == [] || rest[0] != QUOTE)
    ensures Scan(s, Doubled(t) + ([QUOTE] + rest)) == Scan(s.(field := s.field + t, inQuotes := false), rest)
    decreases |t|
  {
    var all := Doubled(t) + ([QUOTE] + rest);
    if t == [] {
      assert all == [QUOTE] + rest;
      assert all[1..] == rest;
      assert s.field + t == s.field;
    } else {
      var tail := Doubled(t[1..]) + ([QUOTE] + rest);
      var next := s.(field := s.field + [t[0]]);
      if t[0] == QUOTE {
        assert all == [QUOTE, QUOTE] + tail;
        assert all[2..] == tail;
      } else {
        assert all == [t[0]] + tail;
        assert all[1..] == tail;
      }
      assert Scan(s, all) == Scan(next, tail);
      ScanDoubled(next, t[1..], rest);
      assert s.field + [t[0]] + t[1..] == s.field + t;
    }
  }

  lemma {:induction false} ScanBare(s: Scanner, t: Text, rest: Text)
    requires !s.inQuotes && PlainText(t)
    ensures Scan(s, t + rest) == Scan(s.(field := s.field + WithoutReturns(t)), rest)
    decreases |t|
  {
    if t == [] {
      assert t + rest == rest;
      assert s.field + t == s.field;
    } else {
      var head := if t[0] == CR then [] else [t[0]];
      assert (t + rest)[1..] == t[1..] + rest;
      assert (t + rest)[0] == t[0] && !Special(t[0]);
      ScanBare(s.(field := s.field + head), t[1..], rest);
      Reassociate(s.field, head, WithoutReturns(t[1..]));
      assert s.field + [] == s.field;
    }
  }

  // Quotes open quoting wherever they come in a field.
  lemma {:induction false} ScanQuoted(s: Scanner, inner: Text, rest: Text)
    requires !s.inQuotes && (rest == [] || rest[0] != QUOTE)
    ensures Scan(s, [QUOTE] + Doubled(inner) + [QUOTE] + rest) == Scan(s.(field := s.field + inner), rest)
  {
    var all := [QUOTE] + Doubled(inner) + [QUOTE] + rest;
    assert all[1..] == Doubled(inner) + ([QUOTE] + rest);
    ScanDoubled(s.(inQuotes := true), inner, rest);
  }

  lemma {:induction false} ScanCell(s: Scanner, c: Cell, rest: Text)
    requires !s.inQuotes && s.field == [] && ValidCell(c)
    requires rest == [] || rest[0] != QUOTE
    ensures Scan(s, PrintCell(c) + rest) == Scan(s.(field := TextOf(c)), rest)
  {
    match c
    case Bare(text) =>
      assert [] + WithoutReturns(text) == WithoutReturns(text);
      ScanBare(s, text, rest);
    case Quoted(before, inner, after) =>
      var quoted, kept := [QUOTE] + Doubled(inner) + [QUOTE], WithoutReturns(before);
      assert [] + kept == kept;
      assert PrintCell(c) + rest == before + (quoted + (after + rest));
      ScanBare(s, before, quoted + (after + rest));
      assert after + rest == [] || (after + rest)[0] != QUOTE;
      ScanQuoted(s.(field := kept), inner, after + rest);
      ScanBare(s.(field := kept + inner), after, rest);
  }

  lemma ValuesTail(cells: seq<Cell>)
    requires cells != []
    ensures Values(cells)[0] == TextOf(cells[0]) && Values(cells)[1..] == Values(cells[1..])
  {
  }

  lemma PrintSplits(cells: seq<Cell>, rest: Text)
    requires |cells| > 1
    ensures PrintCells(cells) + rest == PrintCell(cells[0]) + ([COMMA] + (PrintCells(cells[1..]) + rest))
  {
    Reassociate(PrintCell(cells[0]) + [COMMA], PrintCells(cells[1..]), rest);
    Reassociate(PrintCell(cells[0]), [COMMA], PrintCells(cells[1..]) + rest);
  }

  // The scanner after a record's cells, whose values are v: all but the last
  // are pushed.
  function CellsRead(s: Scanner, v: Record): Scanner
    requires v != []
  {
    s.(cur := s.cur + v[..|v| - 1], field := v[|v| - 1])
  }

  lemma {:induction false} ScanCells(s: Scanner, cells: seq<Cell>, v: Record, rest: Text)
    requires !s.inQuotes && s.field == [] && ValidCells(cells) && v == Values(cells)
    requires rest == [] || rest[0] != QUOTE
    ensures Scan(s, PrintCells(cells) + rest) == Scan(CellsRead(s, v), rest)
    decreases |cells|
  {
    if |cells| == 1 {
      OneCellScanned(s, cells, v, rest);
    } else {
      var next := s.(cur := s.cur + [v[0]], field := []);
      ValuesTail(cells);
      ScanCells(next, cells[1..], v[1..], rest);
      FirstCellScanned(s, cells, next, rest);
      FirstCellRead(s, v, next);
    }
  }

  lemma FirstCellRead(s: Scanner, v: Record, next: Scanner)
    requires |v| > 1 && next == s.(cur := s.cur + [v[0]], field := [])
    ensures CellsRead(next, v[1..]) == CellsRead(s, v)
  {
    assert s.cur + [v[0]] + v[1..][..|v| - 2] == s.cur + v[..|v| - 1];
  }

  lemma {:induction false} FirstCellScanned(s: Scanner, cells: seq<Cell>, next: Scanner, rest: Text)
    requires !s.inQuotes && s.field == [] && ValidCells(cells) && |cells| > 1
    requires next == s.(cur := s.cur + [TextOf(cells[0])], field := [])
    ensures Scan(s, PrintCells(cells) + rest) == Scan(next, PrintCells(cells[1..]) + rest)
  {
    ScanFirstCell(s, cells[0], PrintCells(cells[1..]) + rest);
    PrintSplits(cells, rest);
  }

  lemma {:induction false} OneCellScanned(s: Scanner, cells: seq<Cell>, v: Record, rest: Text)
    requires !s.inQuotes && s.field == [] && ValidCells(cells) && |cells| == 1 && v == Values(cells)
    requires rest == [] || rest[0] != QUOTE
    ensures Scan(s, PrintCells(cells) + rest) == Scan(CellsRead(s, v), rest)
  {
    ScanCell(s, cells[0], rest);
    assert s.cur + v[..0] == s.cur;
  }

  lemma {:induction false} ScanFirstCell(s: Scanner, c: Cell, tail: Text)
    requires !s.inQuotes && s.field == [] && ValidCell(c)
    ensures Scan(s, PrintCell(c) + ([COMMA] + tail)) == Scan(s.(cur := s.cur + [TextOf(c)], field := []), tail)
  {
    ScanCell(s, c, [COMMA] + tail);
    assert ([COMMA] + tail)[1..] == tail;
  }

  lemma {:induction false} ScanBreak(s: Scanner, l: Line, rest: Text)
    requires !s.inQuotes
    ensures Scan(s, LineBreak(l) + rest) == Scan(Scanner(s.records + [s.cur + [s.field]], [], [], false), rest)
  {
    var all := LineBreak(l) + rest;
    if l.crlf {
      assert all[1..] == [LF] + rest;
    }
    assert ([LF] + rest)[1..] == rest;
  }

  lemma {:induction false} ScanLines(records: seq<Record>, lines: seq<Line>, lastBreak: bool)
    requires ValidLines(lines)
    ensures DropTrailing(Finish(Scan(Scanner(records, [], [], false), PrintLines(lines, lastBreak))))
         == DropTrailing(records + AllValues(lines))
    decreases |lines|
  {
    var s := Scanner(records, [], [], false);
    if lines == [] {
      assert records + AllValues(lines) == records;
    } else {
      var v := Values(lines[0].cells);
      if |lines| > 1 || lastBreak {
        var rest := PrintLines(lines[1..], lastBreak);
        ScanLine(s, lines[0], rest);
        ScanLines(records + [v], lines[1..], lastBreak);
        AllValuesCons(lines, v, records);
      } else {
        ScanLastCells(s, lines[0].cells);
        assert PrintCells(lines[0].cells) + [] == PrintLines(lines, lastBreak);
        assert AllValues(lines) == [v];
      }
    }
  }

  lemma AllValuesCons(lines: seq<Line>, v: Record, records: seq<Record>)
    requires lines != [] && v == Values(lines[0].cells)
    ensures records + AllValues(lines) == records + [v] + AllValues(lines[1..])
  {
    assert AllValues(lines) == [v] + AllValues(lines[1..]);
    Reassociate(records, [v], AllValues(lines[1..]));
  }

  lemma {:induction false} ScanLine(s: Scanner, l: Line, rest: Text)
    requires !s.inQuotes && s.field == [] && s.cur == [] && ValidCells(l.cells)
    ensures Scan(s, PrintCells(l.cells) + (LineBreak(l) + rest))
         == Scan(Scanner(s.records + [Values(l.cells)], [], [], false), rest)
  {
    var v, n := Values(l.cells), |l.cells| - 1;
    ScanCells(s, l.cells, v, LineBreak(l) + rest);
    ScanBreak(s.(cur := [] + v[..n], field := v[n]), l, rest);
    assert [] + v[..n] + [v[n]] == v;
  }

  // A last record without a line break is still pushed, unless it is a single
  // empty field.
  lemma {:induction false} ScanLastCells(s: Scanner, cells: seq<Cell>)
    requires !s.inQuotes && s.field == [] && s.cur == [] && ValidCells(cells)
    ensures DropTrailing(Finish(Scan(s, PrintCells(cells) + []))) == DropTrailing(s.records + [Values(cells)])
  {
    var v := Values(cells);
    ScanCells(s, cells, v, []);
    FinishLast(s, v);
  }

  lemma FinishLast(s: Scanner, v: Record)
    requires s.cur == [] && v != []
    ensures DropTrailing(Finish(CellsRead(s, v))) == DropTrailing(s.records + [v])
  {
    var n := |v| - 1;
    assert [] + v[..n] + [v[n]] == v;
    if n == 0 && v[n] == [] {
      assert v == [[]] && (s.records + [v])[..|s.records|] == s.records;
    }
  }

  lemma {:induction false} ParsesTo(t: Text, lines: seq<Line>, lastBreak: bool)
    requires ValidLines(lines) && Unmarked(t) == PrintLines(lines, lastBreak)
    ensures Records(t) == DropTrailing(AllValues(lines))
  {
    ScanLines([], lines, lastBreak);
    assert [] + AllValues(lines) == AllValues(lines);
  }

  // Parsing a printed document gives its records back, whatever their fields
  // contain, except for trailing records of a single empty field. The one
  // thing a document without a mark must not do is start with one.
  lemma {:induction false} ParsePrinted(d: Document)
    requires ValidLines(d.lines)
    ensures Records(Print(d)) == DropTrailing(AllValues(d.lines)) <==> d.bom || !StartsWithMark(d)
  {
    var printed := PrintLines(d.lines, d.lastBreak);
    StartOfLines(d.lines, d.lastBreak);
    if d.bom {
      assert ([BOM] + printed)[1..] == printed;
      ParsesTo(Print(d), d.lines, d.lastBreak);
    } else if StartsWithMark(d) {
      MarkIsLost(d);
    } else {
      assert Print(d) == printed;
      ParsesTo(Print(d), d.lines, d.lastBreak);
    }
  }

  // The text before any quote.
  function Opening(c: Cell): Text {
    match c
    case Bare(text) => text
    case Quoted(before, _, _) => before
  }

  predicate StartsWithMark(d: Document) {
    && d.lines != [] && d.lines[0].cells != []
    && var text := Opening(d.lines[0].cells[0]); text != [] && text[0] == 0xFEFF
  }

  lemma StartOfCells(cells: seq<Cell>)
    requires ValidCells(cells)
    ensures PrintCells(cells) != [] && PrintCells(cells)[0] == BOM
       <==> Opening(cells[0]) != [] && Opening(cells[0])[0] == BOM
  {
  }

  lemma StartOfLines(lines: seq<Line>, lastBreak: bool)
    requires ValidLines(lines)
    ensures PrintLines(lines, lastBreak) != [] && PrintLines(lines, lastBreak)[0] == BOM
       <==> StartsWithMark(Document(lines, lastBreak, false))
  {
    if lines != [] {
      StartOfCells(lines[0].cells);
    }
  }

  // The document that a stripped mark leaves.
  function CellWithoutMark(c: Cell): Cell
    requires Opening(c) != []
  {
    match c
    case Bare(text) => Bare(text[1..])
    case Quoted(before, inner, after) => Quoted(before[1..], inner, after)
  }

  function WithoutMark(lines: seq<Line>): seq<Line>
    requires lines != [] && lines[0].cells != [] && Opening(lines[0].cells[0]) != []
  {
    lines[0 := lines[0].(cells := lines[0].cells[0 := CellWithoutMark(lines[0].cells[0])])]
  }

  // Trailing records of a single empty field are dropped, and nothing else.
  lemma {:induction false} DropTrailingMeaning(records: seq<Record>)
    ensures var kept := DropTrailing(records);
            && kept <= records && (kept != [] ==> kept[|kept| - 1] != [[]])
            && forall i | |kept| <= i < |records| :: records[i] == [[]]
  {
    if records != [] && records[|records| - 1] == [[]] {
      DropTrailingMeaning(records[..|records| - 1]);
    }
  }

  lemma OneWithoutMark(c: Cell)
    requires ValidCell(c) && Opening(c) != [] && Opening(c)[0] == 0xFEFF
    ensures ValidCell(CellWithoutMark(c)) && PrintCell(c) == [Opening(c)[0]] + PrintCell(CellWithoutMark(c))
    ensures |TextOf(c)| == |TextOf(CellWithoutMark(c))| + 1
  {
    match c
    case Bare(text) =>
      HeadOff(text, []);
      assert [text[0]] + (text[1..] + []) == [text[0]] + text[1..] && text + [] == text;
    case Quoted(before, inner, after) =>
      HeadOff(before, ['"' as int] + Doubled(inner) + ['"' as int] + after);
  }

  lemma HeadOff(t: Text, rest: Text)
    requires t != []
    ensures t + rest == [t[0]] + (t[1..] + rest)
    ensures PlainText(t) ==> PlainText(t[1..])
  {
  }

  lemma CellsWithoutMark(cells: seq<Cell>, less: seq<Cell>, c: Cell)
    requires ValidCells(cells) && Opening(cells[0]) != [] && Opening(cells[0])[0] == 0xFEFF
    requires c == CellWithoutMark(cells[0]) && less == cells[0 := c]
    ensures ValidCells(less) && PrintCells(less) == PrintCells(cells)[1..]
  {
    OneWithoutMark(cells[0]);
    if |cells| > 1 {
      var rest := [',' as int] + PrintCells(cells[1..]);
      assert less[1..] == cells[1..];
      HeadOff([Opening(cells[0])[0]] + PrintCell(c), rest);
      Reassociate(PrintCell(cells[0]), [',' as int], PrintCells(cells[1..]));
      Reassociate(PrintCell(c), [',' as int], PrintCells(cells[1..]));
    }
  }

  lemma PrintWithoutMark(lines: seq<Line>, lastBreak: bool)
    requires ValidLines(lines) && StartsWithMark(Document(lines, lastBreak, false))
    ensures ValidLines(WithoutMark(lines))
    ensures PrintLines(WithoutMark(lines), lastBreak) == PrintLines(lines, lastBreak)[1..]
  {
    var less := WithoutMark(lines);
    CellsWithoutMark(lines[0].cells, less[0].cells, less[0].cells[0]);
    assert less[1..] == lines[1..];
    var cells := PrintCells(lines[0].cells);
    var tail := if |lines| > 1 || lastBreak then LineBreak(lines[0]) + PrintLines(lines[1..], lastBreak) else [];
    assert PrintLines(lines, lastBreak) == cells + tail && PrintLines(less, lastBreak) == cells[1..] + tail;
    StartOfCells(lines[0].cells);
    HeadOff(cells, tail);
  }

  lemma {:induction false} MarkIsLost(d: Document)
    requires ValidLines(d.lines) && !d.bom && StartsWithMark(d)
    ensures Records(Print(d)) != DropTrailing(AllValues(d.lines))
  {
    var less := WithoutMark(d.lines);
    PrintWithoutMark(d.lines, d.lastBreak);
    StartOfLines(d.lines, d.lastBreak);
    assert Print(d) == PrintLines(d.lines, d.lastBreak);
    ParsesTo(Print(d), less, d.lastBreak);
    FirstFieldDiffers(d.lines);
    DropTrailingApart(AllValues(d.lines), AllValues(less));
  }

  lemma FirstFieldDiffers(lines: seq<Line>)
    requires ValidLines(lines) && StartsWithMark(Document(lines, false, false))
    ensures AllValues(lines)[0] != AllValues(WithoutMark(lines))[0] && AllValues(lines)[0] != [[]]
  {
    var full, short := AllValues(lines)[0], AllValues(WithoutMark(lines))[0];
    OneWithoutMark(lines[0].cells[0]);
    assert |full[0]| == |short[0]| + 1;
  }

  lemma DropTrailingApart(a: seq<Record>, b: seq<Record>)
    requires a != [] && b != [] && a[0] != b[0] && a[0] != [[]]
    ensures DropTrailing(a) != DropTrailing(b)
  {
    DropTrailingMeaning(a);
    DropTrailingMeaning(b);
  }

  // ------------------------------------------------------------- the table

  datatype ParseResult = ParseResult(header: seq<Text>, rows: seq<map<Text, Text>>)

  function TrimAll(r: Record): (h: seq<Text>)
    ensures |h| == |r|
  {
    seq(|r|, i requires 0 <= i < |r| => Trim(r[i]))
  }

  function FieldAt(r: Record, k: nat): Text {
    if k < |r| then Trim(r[k]) else Trim([])
  }

  // A row's object after its first n columns.
  function RowObject(header: seq<Text>, r: Record, n: nat): map<Text, Text>
    requires n <= |header|
  {
    if n == 0 then map[] else RowObject(header, r, n - 1)[header[n - 1] := FieldAt(r, n - 1)]
  }

  function Table(records: seq<Record>): ParseResult {
    if records == [] then ParseResult([], [])
    else
      var header := TrimAll(records[0]);
      var n := |records| - 1;
      ParseResult(header, seq(n, i requires 0 <= i < n => RowObject(header, records[i + 1], |header|)))
  }

  // A column's value is the row's trimmed field there, empty when the row is
  // too short; of columns with the same name the last one counts.
  lemma {:induction false} RowColumns(header: seq<Text>, r: Record, n: nat, k: nat)
    requires k < n <= |header| && forall j | k < j < n :: header[j] != header[k]
    ensures header[k] in RowObject(header, r, n) && RowObject(header, r, n)[header[k]] == FieldAt(r, k)
  {
    if k < n - 1 {
      RowColumns(header, r, n - 1, k);
    }
  }

  lemma {:induction false} RowKeys(header: seq<Text>, r: Record, n: nat, name: Text)
    requires n <= |header|
    ensures name in RowObject(header, r, n) <==> name in header[..n]
  {
    if n > 0 {
      RowKeys(header, r, n - 1, name);
      assert header[..n] == header[..n - 1] + [header[n - 1]];
    }
  }

  predicate Distinct(header: seq<Text>) {
    forall i, k | 0 <= i < k < |header| :: header[i] != header[k]
  }

  // The whole parser, inverted: header and rows of a printed document are its
  // trimmed fields by column.
  lemma {:induction false} TableOfPrinted(d: Document, i: nat, k: nat)
    requires ValidLines(d.lines) && (d.bom || !StartsWithMark(d))
    requires var records := DropTrailing(AllValues(d.lines));
             1 <= i < |records| && k < |records[0]| && Distinct(TrimAll(records[0]))
    ensures var records := DropTrailing(AllValues(d.lines)); var result := Table(Records(Print(d)));
            && |result.rows| == |records| - 1 && |result.header| == |records[0]|
            && result.header[k] == Trim(records[0][k])
            && result.header[k] in result.rows[i - 1]
            && result.rows[i - 1][result.header[k]] == (if k < |records[i]| then Trim(records[i][k]) else [])
  {
    ParsePrinted(d);
    TableColumns(DropTrailing(AllValues(d.lines)), i, k);
  }

  lemma {:induction false} TableColumns(records: seq<Record>, i: nat, k: nat)
    requires 1 <= i < |records| && k < |records[0]| && Distinct(TrimAll(records[0]))
    ensures var result := Table(records);
            && |result.rows| == |records| - 1 && |result.header| == |records[0]|
            && result.header[k] == Trim(records[0][k])
            && result.header[k] in result.rows[i - 1]
            && result.rows[i - 1][result.header[k]] == (if k < |records[i]| then Trim(records[i][k]) else [])
  {
    RowColumns(TrimAll(records[0]), records[i], |records[0]|, k);
  }

  // ------------------------------------------------------------- the parser

  method ParseRecords(text: Text) returns (records: seq<Record>)
    ensures records == Records(text)
  {
    var t := text;
    if t != [] && t[0] == BOM {
      t := t[1..];
    }
    records := [];
    var cur: Record, field: Text, inQuotes := [], [], false;
    var i := 0;
    ghost var end := Scan(Scanner([], [], [], false), t);
    while i < |t|
      invariant i <= |t|
      invariant Scan(Scanner(records, cur, field, inQuotes), t[i..]) == end
      decreases |t| - i
    {
      var c := t[i];
      assert t[i..][1..] == t[i + 1..];
      if inQuotes {
        if c == QUOTE {
          if i + 1 < |t| && t[i + 1] == QUOTE {
            assert t[i..][2..] == t[i + 2..];
            field := field + [QUOTE];
            i := i + 2;
            continue;
          }
          inQuotes := false;
          i := i + 1;
          continue;
        }
        field := field + [c];
        i := i + 1;
        continue;
      }
      if c == QUOTE {
        inQuotes := true;
        i := i + 1;
        continue;
      }
      if c == COMMA {
        cur := cur + [field];
        field := [];
        i := i + 1;
        continue;
      }
      if c == CR {
        i := i + 1;
        continue;
      }
      if c == LF {
        cur := cur + [field];
        field := [];
        records := records + [cur];
        cur := [];
        i := i + 1;
        continue;
      }
      field := field + [c];
      i := i + 1;
    }
    assert t[i..] == [];
    if |field| > 0 || |cur| > 0 {
      cur := cur + [field];
      records := records + [cur];
    }
    while |records| > 0
      invariant DropTrailing(records) == Records(text)
      decreases |records|
    {
      var last := records[|records| - 1];
      if |last| == 1 && last[0] == [] {
        assert last == [[]];
        records := records[..|records| - 1];
      } else {
        break;
      }
    }
  }

  method MapRow(header: seq<Text>, r: Record) returns (obj: map<Text, Text>)
    ensures obj == RowObject(header, r, |header|)
  {
    obj := map[];
    for k := 0 to |header|
      invariant obj == RowObject(header, r, k)
    {
      obj := obj[header[k] := Trim(if k < |r| then r[k] else [])];
    }
  }

  method ParseCsv(text: Text) returns (result: ParseResult)
    ensures result == Table(Records(text))
  {
    var records := ParseRecords(text);
    if |records| == 0 {
      return ParseResult([], []);
    }
    var header := TrimAll(records[0]);
    var rows: seq<map<Text, Text>> := [];
    for i := 1 to |records|
      invariant |rows| == i - 1
      invariant forall n | 0 <= n < |rows| :: rows[n] == RowObject(header, records[n + 1], |header|)
    {
      var obj := MapRow(header, records[i]);
      rows := rows + [obj];
    }
    return ParseResult(header, rows);
  }
}
