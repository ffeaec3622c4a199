// The question section of a DNS message, section 4.1.2 of RFC 1035.
module DnsQuestion {
  import opened Wrappers
  import opened Bytes

  // ------------------------------------------------------------- type label

  const RR_TYPES: map<nat, string> := map[
    1 := "A", 2 := "NS", 5 := "CNAME", 6 := "SOA", 12 := "PTR", 15 := "MX",
    16 := "TXT", 24 := "SIG", 28 := "AAAA", 33 := "SRV", 35 := "NAPTR", 41 := "OPT",
    43 := "DS", 46 := "RRSIG", 47 := "NSEC", 48 := "DNSKEY", 50 := "NSEC3",
    51 := "NSEC3PARAM", 52 := "TLSA", 65 := "HTTPS", 257 := "CAA"]

  function Itoa(n: nat): (s: string)
    ensures |s| > 0 && forall i | 0 <= i < |s| :: '0' <= s[i] <= '9'
  {
    var last := ['0' + (n % 10) as char];
    if n < 10 then last else Itoa(n / 10) + last
  }

  function TypeLabel(qtype: nat): string {
    if qtype in RR_TYPES then RR_TYPES[qtype] else Itoa(qtype)
  }

  function Atoi(s: string): int {
    if s == "" then 0 else 10 * Atoi(s[..|s| - 1]) + (s[|s| - 1] as int - '0' as int)
  }

  lemma {:induction false} AtoiItoa(n: nat)
    ensures Atoi(Itoa(n)) == n
  {
    var s := Itoa(n);
    if n >= 10 {
      AtoiItoa(n / 10);
      assert s[..|s| - 1] == Itoa(n / 10);
    } else {
      assert s[..|s| - 1] == "";
    }
  }

  // A key of the printed names: the length, the first and the last two letters.
  function Fingerprint(s: string): (int, char, char, char)
    requires |s| > 0
  {
    (|s|, s[0], s[|s| - 1], if |s| > 1 then s[|s| - 2] else 'x')
  }

  lemma NamesAreDistinct(p: nat, q: nat)
    requires p in RR_TYPES && q in RR_TYPES
    ensures |RR_TYPES[p]| > 0 && |RR_TYPES[q]| > 0
    ensures RR_TYPES[p][0] > '9'
    ensures Fingerprint(RR_TYPES[p]) == Fingerprint(RR_TYPES[q]) ==> p == q
  {
  }

  // Two query types never share a label, so the counts of two types are never
  // added up under one.
  lemma {:induction false} TypeLabelInjective(p: nat, q: nat)
    requires TypeLabel(p) == TypeLabel(q)
    ensures p == q
  {
    if p in RR_TYPES && q in RR_TYPES {
      NamesAreDistinct(p, q);
    } else if p in RR_TYPES {
      NamesAreDistinct(p, p);
    } else if q in RR_TYPES {
      NamesAreDistinct(q, q);
    } else {
      AtoiItoa(p);
      AtoiItoa(q);
    }
  }

  const CODES: seq<nat> := [1, 2, 5, 6, 12, 15, 16, 24, 28, 33, 35, 41, 43, 46, 47, 48, 50, 51, 52, 65, 257]
  const NAMES := [
    "A", "NS", "CNAME", "SOA", "PTR", "MX", "TXT", "SIG", "AAAA", "SRV", "NAPTR",
    "OPT", "DS", "RRSIG", "NSEC", "DNSKEY", "NSEC3", "NSEC3PARAM", "TLSA", "HTTPS", "CAA"]

  // The label of a type is its mnemonic; only a type without one has its
  // decimal numeral.
  lemma {:induction false} TypeLabels(q: nat, i: nat)
    ensures i < |CODES| ==> TypeLabel(CODES[i]) == NAMES[i]
    ensures q !in CODES ==> Atoi(TypeLabel(q)) == q && forall c | c in TypeLabel(q) :: '0' <= c <= '9'
  {
    Named(i);
    if q !in RR_TYPES {
      AtoiItoa(q);
    }
  }

  lemma Named(i: nat)
    ensures i < |CODES| ==> CODES[i] in RR_TYPES && RR_TYPES[CODES[i]] == NAMES[i]
  {
  }

  // ------------------------------------------------------------------- name

  type Label = seq<Byte>

  predicate ValidLabel(l: Label) {
    1 <= |l| <= 63
  }

  function EncodeLabel(l: Label): seq<Byte>
    requires ValidLabel(l)
  {
    [|l|] + l
  }

  const DOT: Byte := '.' as int

  function Join(ls: seq<Label>): seq<Byte> {
    if ls == [] then [] else if |ls| == 1 then ls[0] else ls[0] + [DOT] + Join(ls[1..])
  }

  predicate IsAscii(s: seq<Byte>) {
    forall i | 0 <= i < |s| :: s[i] < 128
  }

  function LowerByte(b: Byte): Byte {
    if 65 <= b <= 90 then b + 32 else b
  }

  // strings.ToLower: bytewise on ASCII; `fold` is what it does to other text.
  function ToLower(s: seq<Byte>, fold: seq<Byte> -> seq<Byte>): seq<Byte> {
    if IsAscii(s) then seq(|s|, i requires 0 <= i < |s| => LowerByte(s[i])) else fold(s)
  }

  function DottedName(ls: seq<Label>, fold: seq<Byte> -> seq<Byte>): seq<Byte> {
    if ls == [] then [DOT] else ToLower(Join(ls) + [DOT], fold)
  }

  datatype Name = Name(labels: seq<Label>, next: nat) | BadName

  // The labels from pos to the terminating zero or the end of the message.
  function NameAt(wire: seq<Byte>, pos: nat): (r: Name)
    ensures r.Name? && pos <= |wire| ==> pos <= r.next <= |wire|
    decreases |wire| - pos
  {
    if pos >= |wire| then Name([], pos)
    else
      var length := wire[pos];
      if length == 0 then Name([], pos + 1)
      else if length >= 0x40 || pos + 1 + length > |wire| then BadName
      else
        match NameAt(wire, pos + 1 + length)
        case BadName => BadName
        case Name(ls, next) => Name([wire[pos + 1..pos + 1 + length]] + ls, next)
  }

  datatype Question = Question(name: seq<Byte>, qtype: string)

  function DecodeAt(wire: seq<Byte>, fold: seq<Byte> -> seq<Byte>): Option<Question> {
    if |wire| < 12 then None
    else
      match NameAt(wire, 12)
      case BadName => None
      case Name(ls, next) =>
        if next + 4 > |wire| then None
        else Some(Question(DottedName(ls, fold), TypeLabel(BigEndian16(wire[next..next + 2]))))
  }

  // length&0xC0 != 0 says that the length is 64 or more.
  method ReadName(wire: seq<Byte>) returns (n: Name)
    requires |wire| >= 12
    ensures n == NameAt(wire, 12)
  {
    var pos: nat := 12;
    var labels: seq<Label> := [];
    ghost var whole := NameAt(wire, 12);
    assert whole == Prepend([], whole);
    while pos < |wire|
      invariant pos <= |wire|
      invariant whole == Prepend(labels, NameAt(wire, pos))
      decreases |wire| - pos
    {
      var length: nat := wire[pos];
      PrependTwice(labels, wire, pos);
      pos := pos + 1;
      if length == 0 {
        return Name(labels, pos);
      }
      if length >= 0x40 {
        return BadName;
      }
      if pos + length > |wire| {
        return BadName;
      }
      labels := labels + [wire[pos..pos + length]];
      pos := pos + length;
    }
    return Name(labels, pos);
  }

  method DecodeDNSQuestion(wire: seq<Byte>, fold: seq<Byte> -> seq<Byte>) returns (r: Option<Question>)
    ensures r == DecodeAt(wire, fold)
  {
    if |wire| < 12 {
      return None;
    }
    var name := ReadName(wire);
    if name == BadName || name.next + 4 > |wire| {
      return None;
    }
    var qtype := BigEndian16(wire[name.next..name.next + 2]);
    return Some(Question(DottedName(name.labels, fold), TypeLabel(qtype)));
  }

  function Prepend(ls: seq<Label>, n: Name): Name {
    match n
    case BadName => BadName
    case Name(more, next) => Name(ls + more, next)
  }

  lemma PrependTwice(ls: seq<Label>, wire: seq<Byte>, pos: nat)
    requires pos < |wire|
    ensures var length := wire[pos];
            && (length == 0 ==> Prepend(ls, NameAt(wire, pos)) == Name(ls, pos + 1))
            && (0 < length < 0x40 && pos + 1 + length <= |wire| ==>
                  Prepend(ls, NameAt(wire, pos)) ==
                  Prepend(ls + [wire[pos + 1..pos + 1 + length]], NameAt(wire, pos + 1 + length)))
  {
    var length := wire[pos];
    if length == 0 {
      assert ls + [] == ls;
    } else if length < 0x40 && pos + 1 + length <= |wire| {
      match NameAt(wire, pos + 1 + length)
      case BadName =>
      case Name(more, _) =>
        var l := wire[pos + 1..pos + 1 + length];
        assert ls + ([l] + more) == (ls + [l]) + more;
    }
  }

  // ------------------------------------------------------------- round trip

  // From pos on the message spells these labels, each behind its length, and
  // the terminating zero at `end`.
  predicate SpellsName(wire: seq<Byte>, pos: nat, ls: seq<Label>, end: nat)
    decreases |ls|
  {
    if ls == [] then pos == end < |wire| && wire[pos] == 0
    else
      var l := ls[0];
      && ValidLabel(l) && pos + 1 + |l| <= |wire|
      && wire[pos] == |l| && wire[pos + 1..pos + 1 + |l|] == l
      && SpellsName(wire, pos + 1 + |l|, ls[1..], end)
  }

  lemma {:induction false} SpelledNameIsRead(wire: seq<Byte>, pos: nat, ls: seq<Label>, end: nat)
    requires SpellsName(wire, pos, ls, end)
    ensures NameAt(wire, pos) == Name(ls, end + 1)
    decreases |ls|
  {
    if ls != [] {
      SpelledNameIsRead(wire, pos + 1 + |ls[0]|, ls[1..], end);
      assert ls == [ls[0]] + ls[1..];
    }
  }

  lemma {:induction false} ReadNameIsSpelled(wire: seq<Byte>, pos: nat)
    requires pos <= |wire| && NameAt(wire, pos).Name? && NameAt(wire, pos).next < |wire|
    ensures var Name(ls, next) := NameAt(wire, pos);
            next > pos && SpellsName(wire, pos, ls, next - 1)
    decreases |wire| - pos
  {
    if wire[pos] != 0 {
      ReadNameIsSpelled(wire, pos + 1 + wire[pos]);
      var ls := NameAt(wire, pos).labels;
      assert ls[1..] == NameAt(wire, pos + 1 + wire[pos]).labels;
    }
  }

  // The wire form of a name.
  function EncodeName(ls: seq<Label>): seq<Byte>
    requires forall l | l in ls :: ValidLabel(l)
  {
    if ls == [] then [0] else EncodeLabel(ls[0]) + EncodeName(ls[1..])
  }

  lemma {:induction false} EncodedNameIsSpelled(wire: seq<Byte>, pos: nat, ls: seq<Label>, rest: seq<Byte>)
    requires forall l | l in ls :: ValidLabel(l)
    requires pos <= |wire| && wire[pos..] == EncodeName(ls) + rest
    ensures |EncodeName(ls)| > 0 && SpellsName(wire, pos, ls, pos + |EncodeName(ls)| - 1)
    ensures wire[pos + |EncodeName(ls)|..] == rest
    decreases |ls|
  {
    if ls == [] {
      assert wire[pos] == wire[pos..][0];
      assert wire[pos + 1..] == wire[pos..][1..] == rest;
    } else {
      var l, more := ls[0], EncodeName(ls[1..]);
      assert EncodeName(ls) + rest == EncodeLabel(l) + (more + rest);
      LabelSplits(wire, pos, l, more + rest);
      EncodedNameIsSpelled(wire, pos + 1 + |l|, ls[1..], rest);
    }
  }

  lemma LabelSplits(wire: seq<Byte>, pos: nat, l: Label, rest: seq<Byte>)
    requires ValidLabel(l) && pos <= |wire| && wire[pos..] == EncodeLabel(l) + rest
    ensures pos + 1 + |l| <= |wire| && wire[pos] == |l|
    ensures wire[pos + 1..pos + 1 + |l|] == l && wire[pos + 1 + |l|..] == rest
  {
    var w := wire[pos..];
    assert wire[pos] == w[0];
    assert wire[pos + 1..pos + 1 + |l|] == w[1..1 + |l|];
    assert wire[pos + 1 + |l|..] == w[1 + |l|..];
  }

  // Decoding a header, an encoded question and anything after it gives the
  // dotted name and the label of the type.
  lemma {:induction false} QuestionRoundTrip(header: seq<Byte>, ls: seq<Label>, qtype: nat, qclass: seq<Byte>,
                                             trailing: seq<Byte>, fold: seq<Byte> -> seq<Byte>)
    requires |header| == 12 && |qclass| == 2 && qtype < U16
    requires forall l | l in ls :: ValidLabel(l)
    ensures DecodeAt(header + (EncodeName(ls) + (PutBigEndian16(qtype) + (qclass + trailing))), fold) ==
            Some(Question(DottedName(ls, fold), TypeLabel(qtype)))
  {
    var rest := PutBigEndian16(qtype) + (qclass + trailing);
    var wire := header + (EncodeName(ls) + rest);
    assert wire[12..] == EncodeName(ls) + rest;
    EncodedNameIsSpelled(wire, 12, ls, rest);
    var end := 12 + |EncodeName(ls)|;
    SpelledNameIsRead(wire, 12, ls, end - 1);
    assert wire[end..end + 2] == wire[end..][..2] == PutBigEndian16(qtype);
  }

  // A question with one label, byte by byte.
  lemma {:induction false} QuestionBytes(header: seq<Byte>, l: Label, hi: Byte, lo: Byte, qclass: seq<Byte>,
                                         trailing: seq<Byte>, fold: seq<Byte> -> seq<Byte>)
    requires |header| == 12 && |qclass| == 2 && 1 <= |l| <= 63
    ensures DecodeAt(header + ([|l|] + l + [0] + ([hi, lo] + (qclass + trailing))), fold) ==
            Some(Question(DottedName([l], fold), TypeLabel(0x100 * hi as int + lo as int)))
  {
    var qtype := 0x100 * hi as int + lo as int;
    OneLabelEncoded(l);
    assert PutBigEndian16(qtype) == [hi, lo];
    QuestionRoundTrip(header, [l], qtype, qclass, trailing, fold);
  }

  lemma OneLabelEncoded(l: Label)
    requires ValidLabel(l)
    ensures EncodeName([l]) == [|l|] + l + [0]
  {
    assert [l][1..] == [];
  }

  // Conversely, every accepted message has such a question right behind its
  // header: no other bytes are ever taken for one.
  lemma {:induction false} AcceptedIsEncoded(wire: seq<Byte>, fold: seq<Byte> -> seq<Byte>)
    requires DecodeAt(wire, fold).Some?
    ensures exists ls, end: nat ::
              && SpellsName(wire, 12, ls, end) && end + 5 <= |wire|
              && DecodeAt(wire, fold) ==
                 Some(Question(DottedName(ls, fold), TypeLabel(BigEndian16(wire[end + 1..end + 3]))))
  {
    ReadNameIsSpelled(wire, 12);
    var Name(ls, next) := NameAt(wire, 12);
    assert SpellsName(wire, 12, ls, next - 1);
  }

  predicate HasNoDot(l: Label) {
    forall i | 0 <= i < |l| :: l[i] != DOT
  }

  lemma {:induction false} CutAtDot(a: Label, b: Label, x: seq<Byte>, y: seq<Byte>)
    requires HasNoDot(a) && HasNoDot(b) && a + [DOT] + x == b + [DOT] + y
    ensures a == b && x == y
  {
    var l, r := a + [DOT] + x, b + [DOT] + y;
    assert forall i | 0 <= i < |a| :: l[i] == a[i];
    assert forall i | 0 <= i < |b| :: r[i] == b[i];
    assert l[|a|] == DOT && r[|b|] == DOT;
    assert |a| == |b|;
    assert a == l[..|a|] && b == r[..|b|] && x == l[|a| + 1..] && y == r[|b| + 1..];
  }

  // Only several labels leave a dot.
  lemma {:induction false} JoinHead(ls: seq<Label>)
    requires ls != [] && forall l | l in ls :: ValidLabel(l) && HasNoDot(l)
    ensures Join(ls) != [] && (DOT in Join(ls) <==> |ls| > 1)
  {
    if |ls| > 1 {
      assert Join(ls)[|ls[0]|] == DOT;
    } else {
      assert ls[0] in ls;
    }
  }

  lemma JoinEmpty(a: seq<Label>, b: seq<Label>)
    requires (forall l | l in b :: ValidLabel(l) && HasNoDot(l)) && a == [] && Join(a) == Join(b)
    ensures a == b
  {
    if b != [] {
      JoinHead(b);
    }
  }

  // A name is counted under its dotted form. Labels without a dot can be told
  // from it.
  lemma {:induction false} JoinInjective(a: seq<Label>, b: seq<Label>)
    requires forall l | l in a + b :: ValidLabel(l) && HasNoDot(l)
    requires Join(a) == Join(b)
    ensures a == b
    decreases |a|
  {
    if a != [] && b != [] {
      assert forall l | l in a :: l in a + b;
      assert forall l | l in b :: l in a + b;
      JoinHead(a);
      JoinHead(b);
      if |a| > 1 && |b| > 1 {
        CutAtDot(a[0], b[0], Join(a[1..]), Join(b[1..]));
        assert forall l | l in a[1..] + b[1..] :: l in a + b;
        JoinInjective(a[1..], b[1..]);
        assert a == [a[0]] + a[1..] && b == [b[0]] + b[1..];
      }
    } else {
      if a == [] {
        JoinEmpty(a, b);
      } else {
        JoinEmpty(b, a);
      }
    }
  }

  // Other labels cannot: a dot inside a label looks like one between two.
  lemma DotsCollide()
    ensures var one, two: seq<Label> := [[97, DOT, 98]], [[97], [98]];
            one != two && (forall l | l in one + two :: ValidLabel(l)) && Join(one) == Join(two)
  {
    var two: seq<Label> := [[97], [98]];
    assert two[1..] == [[98]];
  }

  // The same letter, whatever its case.
  predicate SameLetter(b: Byte, c: Byte) {
    b == c || ('A' as int <= b <= 'Z' as int && c == b + 32) || ('A' as int <= c <= 'Z' as int && b == c + 32)
  }

  // Labels are joined by dots, in their order.
  lemma {:induction false} JoinConcat(a: seq<Label>, b: seq<Label>)
    requires a != [] && b != []
    ensures Join(a + b) == Join(a) + ['.' as int] + Join(b)
    ensures |a| == 1 ==> Join(a) == a[0]
  {
    if |a| == 1 {
      assert (a + b)[1..] == b;
    } else {
      assert (a + b)[1..] == a[1..] + b;
      JoinConcat(a[1..], b);
    }
  }

  // An ASCII name becomes its lower-case form and a final dot: each byte stays
  // the letter it is and none is a capital.
  lemma {:induction false} NameIsLowered(ls: seq<Label>, fold: seq<Byte> -> seq<Byte>, i: nat)
    requires ls != [] && IsAscii(Join(ls)) && i < |Join(ls)|
    ensures DottedName([], fold) == ['.' as int]
    ensures var name := DottedName(ls, fold);
            && |name| == |Join(ls)| + 1 && name[|Join(ls)|] == '.' as int
            && SameLetter(Join(ls)[i], name[i]) && !('A' as int <= name[i] <= 'Z' as int)
  {
    var joined := Join(ls) + [DOT];
    assert IsAscii(joined) && joined[i] == Join(ls)[i];
  }

  // ASCII names of one length decode alike exactly when they differ in case at
  // most, so that counts are added up under one name for those and no others.
  lemma {:induction false} CaseIsFolded(a: seq<Label>, b: seq<Label>, fold: seq<Byte> -> seq<Byte>)
    requires a != [] && b != [] && IsAscii(Join(a)) && IsAscii(Join(b)) && |Join(a)| == |Join(b)|
    ensures DottedName(a, fold) == DottedName(b, fold)
       <==> forall i | 0 <= i < |Join(a)| :: SameLetter(Join(a)[i], Join(b)[i])
  {
    var x, y, s, t := Join(a), Join(b), DottedName(a, fold), DottedName(b, fold);
    if x == [] {
      assert s == t == ToLower([DOT], fold);
    } else {
      forall i | 0 <= i < |x|
        ensures |s| == |t| == |x| + 1 && s[|x|] == t[|x|] && (s[i] == t[i] <==> SameLetter(x[i], y[i]))
      {
        NameIsLowered(a, fold, i);
        NameIsLowered(b, fold, i);
      }
    }
  }
}
