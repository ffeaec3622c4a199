// One line of Prometheus text format: name{label="v",...} value
module PromText {
  import opened Wrappers

  // A parsed line: a comment or malformed line, or one sample of a series.
  datatype Line = NoSample | Series(name: string, labels: map<string, string>, value: real)

  // strconv.ParseFloat of a sample's value; None where it fails.
  type ParseValue = string -> Option<real>

  // ---------------------------------------------------------------- strings

  // unicode.IsSpace
  predicate IsSpace(c: char) {
    || '\t' <= c <= '\r' || c == ' ' || c == '\U{85}' || c == '\U{A0}' || c == '\U{1680}'
    || '\U{2000}' <= c <= '\U{200A}' || c == '\U{2028}' || c == '\U{2029}' || c == '\U{202F}' || c == '\U{205F}'
    || c == '\U{3000}'
  }

  predicate IsQuote(c: char) {
    c == '"'
  }

  // strings.TrimFunc
  function TrimBy(s: string, strip: char -> bool): string {
    if s == "" then ""
    else if strip(s[0]) then TrimBy(s[1..], strip)
    else if strip(s[|s| - 1]) then TrimBy(s[..|s| - 1], strip)
    else s
  }

  function TrimSpace(s: string): string {
    TrimBy(s, IsSpace)
  }

  // The first position of c, or the length.
  function IndexOf(s: string, c: char): (i: nat)
    ensures i <= |s| && c !in s[..i]
    ensures i < |s| ==> s[i] == c
  {
    if s == "" || s[0] == c then 0 else 1 + IndexOf(s[1..], c)
  }

  // The last position of c.
  function LastIndexOf(s: string, c: char): (i: Option<nat>)
    ensures i.Some? ==> i.value < |s| && s[i.value] == c && c !in s[i.value + 1..]
    ensures i.None? ==> c !in s
  {
    if s == "" then None
    else if s[|s| - 1] == c then Some(|s| - 1)
    else LastIndexOf(s[..|s| - 1], c)
  }

  // strings.Split by one character.
  function Split(s: string, c: char): (parts: seq<string>)
    ensures parts != []
    decreases |s|
  {
    var i := IndexOf(s, c);
    if i == |s| then [s] else [s[..i]] + Split(s[i + 1..], c)
  }

  // ------------------------------------------------------------------- line

  // One item of the label list, added to those before it.
  function AddLabel(labels: map<string, string>, item: string): map<string, string> {
    var i := IndexOf(item, '=');
    if i == |item| then labels
    else labels[TrimSpace(item[..i]) := TrimBy(TrimSpace(item[i + 1..]), IsQuote)]
  }

  function AddLabels(items: seq<string>): map<string, string> {
    if items == [] then map[] else AddLabel(AddLabels(items[..|items| - 1]), items[|items| - 1])
  }

  // strings.TrimSuffix of a closing brace.
  function WithoutBrace(blob: string): string {
    if blob != "" && blob[|blob| - 1] == '}' then blob[..|blob| - 1] else blob
  }

  function LabelsIn(blob: string): map<string, string> {
    if blob == "" then map[] else AddLabels(Split(WithoutBrace(blob), ','))
  }

  function ParseLine(raw: string, parse: ParseValue): Line {
    var line := TrimSpace(raw);
    if line == "" || line[0] == '#' then NoSample
    else
      match LastIndexOf(line, ' ')
      case None => NoSample
      case Some(idx) => FromParts(TrimSpace(line[..idx]), TrimSpace(line[idx + 1..]), parse)
  }

  // The series of a metric part and a value.
  function FromParts(part: string, valueStr: string, parse: ParseValue): Line {
    match parse(valueStr)
    case None => NoSample
    case Some(value) =>
      var i := IndexOf(part, '{');
      Series(part[..i], LabelsIn(if i == |part| then "" else part[i + 1..]), value)
  }

  method ReadLabel(labels: map<string, string>, item: string) returns (more: map<string, string>)
    ensures more == AddLabel(labels, item)
  {
    more := labels;
    var eq := IndexOf(item, '=');
    if eq == |item| {
      return;
    }
    more := labels[TrimSpace(item[..eq]) := TrimBy(TrimSpace(item[eq + 1..]), IsQuote)];
  }

  method ReadLabels(labelBlob: string) returns (labels: map<string, string>)
    ensures labels == LabelsIn(labelBlob)
  {
    labels := map[];
    if labelBlob != "" {
      var items := Split(WithoutBrace(labelBlob), ',');
      for n := 0 to |items|
        invariant labels == AddLabels(items[..n])
      {
        assert items[..n + 1][..n] == items[..n];
        labels := ReadLabel(labels, items[n]);
      }
      assert items[..|items|] == items;
    }
  }

  method ParsePromLine(raw: string, parse: ParseValue) returns (r: Line)
    ensures r == ParseLine(raw, parse)
  {
    var line := TrimSpace(raw);
    if line == "" || line[0] == '#' {
      return NoSample;
    }
    var idx := LastIndexOf(line, ' ');
    if idx.None? {
      return NoSample;
    }
    var metricPart, valueStr := TrimSpace(line[..idx.value]), TrimSpace(line[idx.value + 1..]);
    var value := parse(valueStr);
    if value.None? {
      return NoSample;
    }
    var brace := IndexOf(metricPart, '{');
    var labels := ReadLabels(if brace == |metricPart| then "" else metricPart[brace + 1..]);
    return Series(metricPart[..brace], labels, value.value);
  }

  // -------------------------------------------------------------- rendering

  datatype Label = Label(key: string, text: string)
  datatype Metric = Metric(name: string, labels: seq<Label>, value: string)

  predicate Without(s: string, c: char) {
    c !in s
  }

  predicate NoSpace(s: string) {
    forall i | 0 <= i < |s| :: !IsSpace(s[i])
  }

  predicate ValidKey(key: string) {
    key != "" && NoSpace(key) && Without(key, '=') && Without(key, ',')
  }

  // Nothing is asked of the label texts: the format allows any.
  predicate ValidMetric(m: Metric) {
    && m.name != "" && m.name[0] != '#' && NoSpace(m.name) && Without(m.name, '{')
    && m.value != "" && NoSpace(m.value)
    && forall i | 0 <= i < |m.labels| :: ValidKey(m.labels[i].key)
  }

  predicate DistinctKeys(ls: seq<Label>) {
    forall i, k | 0 <= i < k < |ls| :: ls[i].key != ls[k].key
  }

  // In a label text backslash, quote and line feed are escaped.
  function EscapeChar(c: char): string {
    if c == '\\' then "\\\\" else if c == '"' then "\\\"" else if c == '\n' then "\\n" else [c]
  }

  function Escape(t: string): string {
    if t == "" then "" else Escape(t[..|t| - 1]) + EscapeChar(t[|t| - 1])
  }

  function Item(l: Label): string {
    l.key + "=\"" + Escape(l.text) + "\""
  }

  function Items(ls: seq<Label>): string
    requires ls != []
  {
    if |ls| == 1 then Item(ls[0]) else Item(ls[0]) + "," + Items(ls[1..])
  }

  function MetricPart(m: Metric): string {
    if m.labels == [] then m.name else m.name + "{" + Items(m.labels) + "}"
  }

  function Render(m: Metric): string {
    MetricPart(m) + " " + m.value
  }

  // The labels as a map; of equal keys the last counts.
  function LabelMap(ls: seq<Label>): map<string, string> {
    if ls == [] then map[] else LabelMap(ls[..|ls| - 1])[ls[|ls| - 1].key := ls[|ls| - 1].text]
  }

  // ---------------------------------------------------------- string lemmas

  lemma Untrimmed(s: string, strip: char -> bool)
    requires s != "" ==> !strip(s[0]) && !strip(s[|s| - 1])
    ensures TrimBy(s, strip) == s
  {
  }

  lemma {:induction false} IndexOfFirst(a: string, c: char, b: string)
    requires c !in a
    ensures IndexOf(a + [c] + b, c) == |a|
  {
    var s := a + [c] + b;
    if a != "" {
      assert s[1..] == a[1..] + [c] + b;
      IndexOfFirst(a[1..], c, b);
    }
  }

  lemma {:induction false} IndexOfNone(s: string, c: char)
    requires c !in s
    ensures IndexOf(s, c) == |s|
  {
    if s != "" {
      IndexOfNone(s[1..], c);
    }
  }

  lemma {:induction false} LastIndexOfLast(a: string, c: char, b: string)
    requires c !in b
    ensures LastIndexOf(a + [c] + b, c) == Some(|a|)
  {
    var s := a + [c] + b;
    if b != "" {
      assert s[..|s| - 1] == a + [c] + b[..|b| - 1];
      LastIndexOfLast(a, c, b[..|b| - 1]);
    }
  }

  lemma SplitFirst(s: string, c: char, head: string, tail: string)
    requires c !in head && s == head + [c] + tail
    ensures Split(s, c) == [head] + Split(tail, c)
  {
    IndexOfFirst(head, c, tail);
    assert s[..|head|] == head && s[|head| + 1..] == tail;
  }

  // Splitting distributes over joining with the separator.
  lemma {:induction false} SplitJoin(a: string, c: char, b: string)
    ensures Split(a + [c] + b, c) == Split(a, c) + Split(b, c)
    decreases |a|
  {
    var i := IndexOf(a, c);
    if i == |a| {
      assert a[..i] == a;
      SplitFirst(a + [c] + b, c, a, b);
    } else {
      var head, rest := a[..i], a[i + 1..];
      assert a == head + [c] + rest;
      assert a + [c] + b == head + [c] + (rest + [c] + b);
      SplitFirst(a + [c] + b, c, head, rest + [c] + b);
      SplitFirst(a, c, head, rest);
      SplitJoin(rest, c, b);
      Reassociate([head], Split(rest, c), Split(b, c));
    }
  }

  // What counts as space, code by code: Unicode's White_Space.
  lemma SpaceCodes(c: char)
    ensures TrimSpace([c]) == "" <==>
              c as int in {9, 10, 11, 12, 13, 32, 133, 160, 5760, 8192, 8193, 8194, 8195, 8196, 8197, 8198, 8199, 8200,
                           8201, 8202, 8232, 8233, 8239, 8287, 12288}
  {
    assert [c][0] == c && [c][1..] == "";
    assert TrimBy("", IsSpace) == "";
    assert !IsSpace(c) ==> TrimBy([c], IsSpace) == [c];
  }

  // ---------------------------------------------------------------- escaping

  predicate IsEscaped(c: char) {
    c == '\\' || c == '"' || c == '\n'
  }

  // A label text that the code reads as it is written.
  predicate Plain(text: string) {
    forall i | 0 <= i < |text| :: text[i] != ',' && !IsEscaped(text[i])
  }

  // What the code reads for an escaped text.
  function Raw(text: string): string {
    TrimBy("\"" + Escape(text) + "\"", IsQuote)
  }

  lemma {:induction false} EscapeCommas(t: string)
    ensures ',' in Escape(t) <==> ',' in t
  {
    if t != "" {
      var init, c := t[..|t| - 1], t[|t| - 1];
      EscapeCommas(init);
      assert t == init + [c] && Escape(t) == Escape(init) + EscapeChar(c);
      assert ',' in EscapeChar(c) <==> c == ',';
    }
  }

  lemma {:induction false} EscapeStarts(t: string)
    requires t != ""
    ensures Escape(t) != "" && Escape(t)[0] != '"'
  {
    if |t| > 1 {
      EscapeStarts(t[..|t| - 1]);
    }
  }

  lemma {:induction false} EscapeLength(t: string)
    ensures |Escape(t)| >= |t|
    ensures Escape(t) == t <==> forall i | 0 <= i < |t| :: !IsEscaped(t[i])
    ensures Escape(t) == t <==> |Escape(t)| == |t|
  {
    if t != "" {
      var init, c := t[..|t| - 1], t[|t| - 1];
      EscapeLength(init);
      assert t == init + [c];
    }
  }

  lemma TrimOuter(inner: string)
    ensures TrimBy("\"" + inner + "\"", IsQuote) == TrimBy(inner + "\"", IsQuote)
  {
    assert ("\"" + inner + "\"")[1..] == inner + "\"";
  }

  lemma TrimEnd(inner: string)
    requires inner != "" && !IsQuote(inner[0])
    ensures TrimBy(inner + "\"", IsQuote) == TrimBy(inner, IsQuote)
  {
    assert (inner + "\"")[..|inner|] == inner;
  }

  lemma RawEmpty()
    ensures Raw("") == ""
  {
    TrimOuter("");
    assert "" + "\"" == "\"" && "\""[1..] == "";
  }

  // A text that ends in a quote loses that quote and keeps its backslash; any
  // other is read with its escapes.
  lemma {:induction false} RawMeaning(text: string)
    requires text != ""
    ensures var e := Escape(text);
            Raw(text) == if text[|text| - 1] == '"' then e[..|e| - 1] else e
    ensures text[|text| - 1] == '"' ==> Raw(text) != "" && Raw(text)[|Raw(text)| - 1] == '\\'
  {
    var e := Escape(text);
    EscapeStarts(text);
    TrimOuter(e);
    TrimEnd(e);
    if text[|text| - 1] == '"' {
      var kept := Escape(text[..|text| - 1]) + "\\";
      assert e == kept + "\"" && e[..|e| - 1] == kept;
      assert kept[0] == e[0];
      TrimEnd(kept);
      Untrimmed(kept, IsQuote);
    } else {
      Untrimmed(e, IsQuote);
    }
  }

  lemma {:induction false} RawIsPlain(text: string)
    requires ',' !in text
    ensures Raw(text) == text <==> Plain(text)
  {
    if text == "" {
      RawEmpty();
    } else {
      RawMeaning(text);
      EscapeLength(text);
    }
  }

  // ------------------------------------------------------------------ labels

  lemma {:induction false} SplitItems(ls: seq<Label>)
    requires ls != [] && forall i | 0 <= i < |ls| :: ValidKey(ls[i].key) && ',' !in ls[i].text
    ensures Split(Items(ls), ',') == seq(|ls|, i requires 0 <= i < |ls| => Item(ls[i]))
  {
    EscapeCommas(ls[0].text);
    assert ',' !in Item(ls[0]);
    IndexOfNone(Item(ls[0]), ',');
    if |ls| > 1 {
      SplitItems(ls[1..]);
      SplitJoin(Item(ls[0]), ',', Items(ls[1..]));
      assert Items(ls) == Item(ls[0]) + [','] + Items(ls[1..]);
    }
  }

  lemma ItemCut(l: Label)
    requires ValidKey(l.key)
    ensures IndexOf(Item(l), '=') == |l.key| < |Item(l)|
    ensures Item(l)[..|l.key|] == l.key && Item(l)[|l.key| + 1..] == "\"" + Escape(l.text) + "\""
  {
    var quoted := "\"" + Escape(l.text) + "\"";
    assert Item(l) == l.key + ['='] + quoted;
    IndexOfFirst(l.key, '=', quoted);
  }

  lemma {:induction false} LabelRead(labels: map<string, string>, l: Label)
    requires ValidKey(l.key)
    ensures AddLabel(labels, Item(l)) == labels[l.key := Raw(l.text)]
  {
    ItemCut(l);
    Untrimmed(l.key, IsSpace);
    Untrimmed("\"" + Escape(l.text) + "\"", IsSpace);
  }

  // An item is cut at its first equals sign.
  lemma LabelCut(labels: map<string, string>, item: string, key: string, quoted: string)
    requires '=' !in key && item == key + ['='] + quoted
    ensures AddLabel(labels, item) == labels[TrimSpace(key) := TrimBy(TrimSpace(quoted), IsQuote)]
  {
    IndexOfFirst(key, '=', quoted);
    assert item[..|key|] == key && item[|key| + 1..] == quoted;
  }

  // Margins around an item count for nothing.
  lemma {:induction false} ItemMargins(labels: map<string, string>, left: string, l: Label, right: string)
    requires ValidKey(l.key) && Margin(left) && Margin(right)
    ensures AddLabel(labels, left + Item(l) + right) == AddLabel(labels, Item(l))
  {
    var quoted := "\"" + Escape(l.text) + "\"";
    LabelCut(labels, Item(l), l.key, quoted);
    LabelCut(labels, left + Item(l) + right, left + l.key, quoted + right);
    LeftMarginTrimmed(left, l.key);
    RightMarginTrimmed(quoted, right);
  }

  function ReadBack(ls: seq<Label>): map<string, string> {
    if ls == [] then map[] else AddLabels(Split(Items(ls), ','))
  }

  lemma {:induction false} LabelsRead(ls: seq<Label>, i: nat)
    requires i < |ls| && DistinctKeys(ls)
    requires forall k | 0 <= k < |ls| :: ValidKey(ls[k].key)
    ensures var labels := AddLabels(seq(|ls|, k requires 0 <= k < |ls| => Item(ls[k])));
            ls[i].key in labels && labels[ls[i].key] == Raw(ls[i].text)
  {
    var n := |ls| - 1;
    var items := seq(|ls|, k requires 0 <= k < |ls| => Item(ls[k]));
    assert items[..n] == seq(n, k requires 0 <= k < n => Item(ls[..n][k]));
    LabelRead(AddLabels(items[..n]), ls[n]);
    if i < n {
      LabelsRead(ls[..n], i);
    }
  }

  lemma {:induction false} LabelMapAt(ls: seq<Label>, i: nat)
    requires i < |ls| && DistinctKeys(ls)
    ensures ls[i].key in LabelMap(ls) && LabelMap(ls)[ls[i].key] == ls[i].text
  {
    if i < |ls| - 1 {
      LabelMapAt(ls[..|ls| - 1], i);
    }
  }

  lemma {:induction false} PlainLabelsRead(ls: seq<Label>)
    requires forall k | 0 <= k < |ls| :: ValidKey(ls[k].key) && Plain(ls[k].text)
    ensures AddLabels(seq(|ls|, k requires 0 <= k < |ls| => Item(ls[k]))) == LabelMap(ls)
  {
    if ls != [] {
      var n := |ls| - 1;
      var items := seq(|ls|, k requires 0 <= k < |ls| => Item(ls[k]));
      PlainLabelsRead(ls[..n]);
      assert items[..n] == seq(n, k requires 0 <= k < n => Item(ls[..n][k]));
      assert AddLabels(items) == AddLabel(AddLabels(items[..n]), items[n]);
      LabelRead(LabelMap(ls[..n]), ls[n]);
      RawIsPlain(ls[n].text);
    }
  }

  // ------------------------------------------------------------------ commas

  lemma {:induction false} SplitParts(s: string, c: char, part: string)
    requires part in Split(s, c)
    ensures c !in part
    decreases |s|
  {
    var i := IndexOf(s, c);
    if i < |s| && part in Split(s[i + 1..], c) {
      SplitParts(s[i + 1..], c, part);
    } else {
      assert part == s[..i];
    }
  }

  lemma {:induction false} TrimKeepsOut(s: string, strip: char -> bool, c: char)
    requires c !in s
    ensures c !in TrimBy(s, strip)
    decreases |s|
  {
    if s != "" {
      if strip(s[0]) {
        TrimKeepsOut(s[1..], strip, c);
      } else if strip(s[|s| - 1]) {
        TrimKeepsOut(s[..|s| - 1], strip, c);
      }
    }
  }

  lemma AddLabelNoComma(labels: map<string, string>, item: string, key: string)
    requires ',' !in item && (key in labels ==> ',' !in labels[key])
    ensures key in AddLabel(labels, item) ==> ',' !in AddLabel(labels, item)[key]
  {
    var i := IndexOf(item, '=');
    if i < |item| {
      TrimKeepsOut(item[i + 1..], IsSpace, ',');
      TrimKeepsOut(TrimSpace(item[i + 1..]), IsQuote, ',');
    }
  }

  // No label text that the code reads holds a comma.
  lemma {:induction false} NoCommaRead(items: seq<string>, key: string)
    requires forall i | 0 <= i < |items| :: ',' !in items[i]
    ensures key in AddLabels(items) ==> ',' !in AddLabels(items)[key]
  {
    if items != [] {
      var init, item := items[..|items| - 1], items[|items| - 1];
      NoCommaRead(init, key);
      AddLabelNoComma(AddLabels(init), item, key);
    }
  }

  // The labels read back as they are if and only if all their texts are plain.
  lemma {:induction false} LabelsRoundTrip(ls: seq<Label>)
    requires DistinctKeys(ls) && forall i | 0 <= i < |ls| :: ValidKey(ls[i].key)
    ensures ReadBack(ls) == LabelMap(ls) <==> forall i | 0 <= i < |ls| :: Plain(ls[i].text)
  {
    if ls != [] {
      if i :| 0 <= i < |ls| && ',' in ls[i].text {
        CommaIsLost(ls, i);
      } else {
        SplitItems(ls);
        if forall i | 0 <= i < |ls| :: Plain(ls[i].text) {
          PlainLabelsRead(ls);
        } else {
          var i :| 0 <= i < |ls| && !Plain(ls[i].text);
          RawIsPlain(ls[i].text);
          LabelsRead(ls, i);
          LabelMapAt(ls, i);
        }
      }
    }
  }

  lemma {:induction false} CommaIsLost(ls: seq<Label>, i: nat)
    requires DistinctKeys(ls) && i < |ls| && ',' in ls[i].text
    ensures ReadBack(ls) != LabelMap(ls) && !Plain(ls[i].text)
  {
    var parts := Split(Items(ls), ',');
    LabelMapAt(ls, i);
    forall k | 0 <= k < |parts| ensures ',' !in parts[k] {
      SplitParts(Items(ls), ',', parts[k]);
    }
    NoCommaRead(parts, ls[i].key);
  }

  // ------------------------------------------------------------- round trip

  lemma {:induction false} MetricPartRead(m: Metric)
    requires ValidMetric(m)
    ensures var part := MetricPart(m); var i := IndexOf(part, '{');
            && part[..i] == m.name
            && LabelsIn(if i == |part| then "" else part[i + 1..]) == ReadBack(m.labels)
  {
    var part := MetricPart(m);
    if m.labels == [] {
      IndexOfNone(part, '{');
      assert part[..|part|] == m.name;
    } else {
      var blob := Items(m.labels) + "}";
      assert part == m.name + ['{'] + blob;
      IndexOfFirst(m.name, '{', blob);
      assert part[..|m.name|] == m.name && part[|m.name| + 1..] == blob;
      assert WithoutBrace(blob) == Items(m.labels);
    }
  }

  // No trimming touches a rendered line or its parts.
  lemma {:induction false} NothingToTrim(m: Metric)
    requires ValidMetric(m)
    ensures TrimSpace(Render(m)) == Render(m) && TrimSpace(MetricPart(m)) == MetricPart(m)
    ensures TrimSpace(m.value) == m.value && Render(m) != "" && Render(m)[0] != '#'
  {
    var line, part := Render(m), MetricPart(m);
    assert part != "" && part[0] == m.name[0] && !IsSpace(part[|part| - 1]);
    assert line[0] == part[0] && line[|line| - 1] == m.value[|m.value| - 1];
    Untrimmed(line, IsSpace);
    Untrimmed(part, IsSpace);
    Untrimmed(m.value, IsSpace);
  }

  lemma {:induction false} LineRead(m: Metric, parse: ParseValue)
    requires ValidMetric(m)
    ensures ParseLine(Render(m), parse) ==
            if parse(m.value) == None then NoSample else Series(m.name, ReadBack(m.labels), parse(m.value).value)
  {
    NothingToTrim(m);
    assert ' ' !in m.value;
    LineParts(Render(m), MetricPart(m), m.value, parse);
    PartsRead(m, parse);
  }

  lemma {:induction false} PartsRead(m: Metric, parse: ParseValue)
    requires ValidMetric(m)
    ensures FromParts(MetricPart(m), m.value, parse) ==
            if parse(m.value) == None then NoSample else Series(m.name, ReadBack(m.labels), parse(m.value).value)
  {
    MetricPartRead(m);
  }

  // A line is cut at its last space.
  lemma {:induction false} LineParts(raw: string, part: string, value: string, parse: ParseValue)
    requires TrimSpace(raw) == part + " " + value && part != "" && part[0] != '#' && ' ' !in value
    ensures ParseLine(raw, parse) == FromParts(TrimSpace(part), TrimSpace(value), parse)
  {
    CutAtSpace(part, value);
    LastIndexOfLast(part, ' ', value);
  }

  // A sample rendered in the text format reads back as its name, labels and
  // value if and only if no label text holds a comma or anything that the
  // format escapes; the code splits at every comma and undoes no escape.
  lemma {:induction false} LineRoundTrip(m: Metric, parse: ParseValue)
    requires ValidMetric(m) && DistinctKeys(m.labels) && parse(m.value).Some?
    ensures ParseLine(Render(m), parse) == Series(m.name, LabelMap(m.labels), parse(m.value).value)
       <==> forall i | 0 <= i < |m.labels| :: Plain(m.labels[i].text)
  {
    LineRead(m, parse);
    LabelsRoundTrip(m.labels);
  }

  // ------------------------------------------------------------- expositions

  // A line of an exposition, with any margins and any gap before the value that
  // has a space in it; a line that ends in CRLF has a carriage return in its
  // right margin.
  datatype Entry =
    | Sample(left: string, metric: Metric, gap: string, right: string)
    | Comment(left: string, text: string)
    | Blank(left: string)

  predicate Margin(s: string) {
    forall i | 0 <= i < |s| :: s[i] == ' ' || s[i] == '\t' || s[i] == '\r'
  }

  predicate ValidEntry(e: Entry) {
    && Margin(e.left)
    && (e.Sample? ==> ValidMetric(e.metric) && Margin(e.gap) && ' ' in e.gap && Margin(e.right))
    && (e.Comment? ==> '\n' !in e.text)
  }

  function Spaced(m: Metric, gap: string): string {
    MetricPart(m) + gap + m.value
  }

  function RenderEntry(e: Entry): string {
    match e
    case Sample(left, m, gap, right) => left + Spaced(m, gap) + right
    case Comment(left, text) => left + ("#" + text)
    case Blank(left) => left
  }

  function Exposition(es: seq<Entry>): string
    requires es != []
  {
    if |es| == 1 then RenderEntry(es[0]) else RenderEntry(es[0]) + "\n" + Exposition(es[1..])
  }

  lemma {:induction false} LeftMarginTrimmed(left: string, s: string)
    requires Margin(left)
    ensures TrimSpace(left + s) == TrimSpace(s)
  {
    if left == "" {
      assert left + s == s;
    } else {
      LeftMarginTrimmed(left[1..], s);
      assert (left + s)[1..] == left[1..] + s;
    }
  }

  lemma {:induction false} RightMarginTrimmed(s: string, right: string)
    requires Margin(right) && s != "" && !IsSpace(s[0])
    ensures TrimSpace(s + right) == TrimSpace(s)
  {
    if right == "" {
      assert s + right == s;
    } else {
      var n := |right| - 1;
      RightMarginTrimmed(s, right[..n]);
      assert (s + right)[..|s| + n] == s + right[..n];
    }
  }

  lemma {:induction false} TrimKeepsFirst(s: string, strip: char -> bool)
    requires s != "" && !strip(s[0])
    ensures TrimBy(s, strip) != "" && TrimBy(s, strip)[0] == s[0]
    decreases |s|
  {
    if strip(s[|s| - 1]) {
      TrimKeepsFirst(s[..|s| - 1], strip);
    }
  }

  lemma {:induction false} MarginsTrimmed(left: string, m: Metric, gap: string, right: string)
    requires Margin(left) && Margin(right) && ValidMetric(m)
    ensures TrimSpace(left + Spaced(m, gap) + right) == MetricPart(m) + gap + m.value
  {
    var line := Spaced(m, gap);
    NothingToTrim(m);
    assert line[0] == MetricPart(m)[0] == m.name[0] && line[|line| - 1] == m.value[|m.value| - 1];
    assert left + line + right == left + (line + right);
    LeftMarginTrimmed(left, line + right);
    RightMarginTrimmed(line, right);
    Untrimmed(line, IsSpace);
  }

  // A gap, cut at its last space.
  lemma GapCut(gap: string) returns (before: string, after: string)
    requires Margin(gap) && ' ' in gap
    ensures gap == before + " " + after && Margin(before) && Margin(after) && ' ' !in after
  {
    var i := LastIndexOf(gap, ' ').value;
    before, after := gap[..i], gap[i + 1..];
  }

  lemma {:induction false} SampleRead(left: string, m: Metric, gap: string, right: string, parse: ParseValue)
    requires Margin(left) && Margin(gap) && ' ' in gap && Margin(right) && ValidMetric(m)
    ensures ParseLine(left + Spaced(m, gap) + right, parse) == FromParts(MetricPart(m), m.value, parse)
  {
    var before, after := GapCut(gap);
    MarginsTrimmed(left, m, gap, right);
    NothingToTrim(m);
    assert MetricPart(m)[0] == m.name[0] && ' ' !in m.value;
    assert MetricPart(m) + gap + m.value == (MetricPart(m) + before) + " " + (after + m.value);
    LineParts(left + Spaced(m, gap) + right, MetricPart(m) + before, after + m.value, parse);
    RightMarginTrimmed(MetricPart(m), before);
    LeftMarginTrimmed(after, m.value);
  }

  // A sample reads as if it had no margins and one space; comments and blank lines are no
  // samples.
  lemma {:induction false} EntryRead(e: Entry, parse: ParseValue)
    requires ValidEntry(e)
    ensures ParseLine(RenderEntry(e), parse) ==
            if e.Sample? && parse(e.metric.value).Some?
            then Series(e.metric.name, ReadBack(e.metric.labels), parse(e.metric.value).value)
            else NoSample
  {
    match e
    case Sample(left, m, gap, right) =>
      SampleRead(left, m, gap, right, parse);
      PartsRead(m, parse);
    case Comment(left, text) =>
      LeftMarginTrimmed(left, "#" + text);
      TrimKeepsFirst("#" + text, IsSpace);
    case Blank(left) =>
      LeftMarginTrimmed(left, "");
      assert left + "" == left;
  }

  lemma {:induction false} EscapedOnOneLine(t: string)
    ensures '\n' !in Escape(t)
  {
    if t != "" {
      EscapedOnOneLine(t[..|t| - 1]);
    }
  }

  lemma {:induction false} ItemsOnOneLine(ls: seq<Label>)
    requires ls != [] && forall i | 0 <= i < |ls| :: ValidKey(ls[i].key)
    ensures '\n' !in Items(ls)
  {
    EscapedOnOneLine(ls[0].text);
    assert NoSpace(ls[0].key);
    if |ls| > 1 {
      ItemsOnOneLine(ls[1..]);
    }
  }

  lemma {:induction false} EntryOnOneLine(e: Entry)
    requires ValidEntry(e)
    ensures '\n' !in RenderEntry(e)
  {
    if e.Sample? && e.metric.labels != [] {
      ItemsOnOneLine(e.metric.labels);
    }
  }

  function RenderAll(es: seq<Entry>): (lines: seq<string>)
    ensures |lines| == |es|
  {
    seq(|es|, i requires 0 <= i < |es| => RenderEntry(es[i]))
  }

  // The lines of an exposition are its entries, whatever the label texts hold.
  lemma {:induction false} ExpositionSplits(es: seq<Entry>)
    requires es != [] && forall e | e in es :: ValidEntry(e)
    ensures Split(Exposition(es), '\n') == RenderAll(es)
  {
    var first := RenderEntry(es[0]);
    EntryOnOneLine(es[0]);
    if |es| == 1 {
      IndexOfNone(first, '\n');
      assert RenderAll(es) == [first];
    } else {
      ExpositionSplits(es[1..]);
      ExpositionCons(es, first, es[1..]);
      SplitCons(first, '\n', Exposition(es[1..]), Exposition(es), RenderAll(es[1..]));
    }
  }

  lemma ExpositionCons(es: seq<Entry>, first: string, rest: seq<Entry>)
    requires |es| > 1 && first == RenderEntry(es[0]) && rest == es[1..]
    ensures Exposition(es) == first + ['\n'] + Exposition(rest)
    ensures RenderAll(es) == [first] + RenderAll(rest)
  {
    RenderAllCons(es, first, rest);
  }

  lemma RenderAllCons(es: seq<Entry>, first: string, rest: seq<Entry>)
    requires es != [] && first == RenderEntry(es[0]) && rest == es[1..]
    ensures RenderAll(es) == [first] + RenderAll(rest)
  {
  }

  lemma SplitCons(head: string, c: char, tail: string, s: string, parts: seq<string>)
    requires c !in head && s == head + [c] + tail && Split(tail, c) == parts
    ensures Split(s, c) == [head] + parts
  {
    SplitFirst(s, c, head, tail);
  }

  lemma CutAtSpace(part: string, value: string)
    ensures var line := part + " " + value; line[..|part|] == part && line[|part| + 1..] == value
    ensures part + " " + value == part + [' '] + value
  {
  }
}
