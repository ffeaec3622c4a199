// One dnstap connection: the Frame Streams handshake, the drain of data frames
// and the dispatch of each to the query callback.
module Dnstap {
  import opened Wrappers
  import opened Bytes
  import opened FrameStreams
  import opened Protobuf
  import opened DnsQuestion

  const CTL_ACCEPT := 1
  const CTL_START := 2
  const CTL_STOP := 3
  const CTL_READY := 4
  const CTL_FINISH := 5
  const FIELD_CONTENT_TYPE := 1

  // "protobuf:dnstap.Dnstap"
  const CONTENT_TYPE: seq<Byte> :=
    [112, 114, 111, 116, 111, 98, 117, 102, 58, 100, 110, 115, 116, 97, 112, 46, 68, 110, 115, 116, 97, 112]

  const DNSTAP_MESSAGE := 14
  const QUERY_MESSAGE := 10

  type Fold = seq<Byte> -> seq<Byte>

  // --------------------------------------------------------------- dispatch

  datatype Dispatched = Query(q: Question) | Dropped | Crashed

  function Dispatch(frame: seq<Byte>, fold: Fold): Dispatched {
    match Find(frame, DNSTAP_MESSAGE)
    case Panic => Crashed
    case Absent => Dropped
    case Payload(inner) =>
      match Find(inner, QUERY_MESSAGE)
      case Panic => Crashed
      case Absent => Dropped
      case Payload(wire) => (match DecodeAt(wire, fold) case None => Dropped case Some(q) => Query(q))
  }

  // A dnstap message that carries a query message with a question is
  // dispatched as that question, whatever other fields surround either.
  lemma {:induction false} DispatchRoundTrip(outer: seq<Field>, inner: seq<Field>, header: seq<Byte>, ls: seq<Label>,
                                             qtype: nat, qclass: seq<Byte>, trailing: seq<Byte>, fold: Fold)
    requires (forall f | f in outer :: FieldOk(f)) && |EncodeFields(outer)| < U63
    requires (forall f | f in inner :: FieldOk(f)) && |EncodeFields(inner)| < U63
    requires |header| == 12 && |qclass| == 2 && qtype < U16 && forall l | l in ls :: ValidLabel(l)
    requires FirstBytes(outer, DNSTAP_MESSAGE) == Payload(EncodeFields(inner))
    requires FirstBytes(inner, QUERY_MESSAGE) ==
             Payload(header + (EncodeName(ls) + (PutBigEndian16(qtype) + (qclass + trailing))))
    ensures Dispatch(EncodeFields(outer), fold) == Query(Question(DottedName(ls, fold), TypeLabel(qtype)))
  {
    WalkerRefinesFieldList(outer, DNSTAP_MESSAGE);
    WalkerRefinesFieldList(inner, QUERY_MESSAGE);
    QuestionRoundTrip(header, ls, qtype, qclass, trailing, fold);
  }

  // ---------------------------------------------------------------- session

  predicate IsControl(f: Frame, want: nat) {
    f.Control? && |f.payload| >= 4 && BigEndian32(f.payload[..4]) == want
  }

  function AcceptPayload(): seq<Byte> {
    PutBigEndian32(CTL_ACCEPT) + (PutBigEndian32(FIELD_CONTENT_TYPE) + PutBigEndian32(|CONTENT_TYPE|) + CONTENT_TYPE)
  }

  function AcceptFrame(): seq<Byte> {
    Encode(Control(AcceptPayload()))
  }

  function FinishFrame(): seq<Byte> {
    Encode(Control(PutBigEndian32(CTL_FINISH)))
  }

  // The two frames we write are control frames of their kind.
  lemma RepliesParse(rest: seq<Byte>)
    ensures Parse(AcceptFrame() + rest) == Parsed(Control(AcceptPayload()), rest)
    ensures IsControl(Control(AcceptPayload()), CTL_ACCEPT)
    ensures Parse(FinishFrame() + rest) == Parsed(Control(PutBigEndian32(CTL_FINISH)), rest)
    ensures IsControl(Control(PutBigEndian32(CTL_FINISH)), CTL_FINISH)
  {
    ParseEncoded(Control(AcceptPayload()), rest);
    ParseEncoded(Control(PutBigEndian32(CTL_FINISH)), rest);
    assert AcceptPayload()[..4] == PutBigEndian32(CTL_ACCEPT);
    assert PutBigEndian32(CTL_FINISH)[..4] == PutBigEndian32(CTL_FINISH);
  }

  // What a connection has to show for itself: bytes written back, questions
  // handed to the callback, and whether the process died.
  datatype Session = Session(written: seq<Byte>, queries: seq<Question>, crashed: bool)

  function DrainFrames(fs: seq<Frame>, fold: Fold): Session {
    if fs == [] then Session([], [], false)
    else
      match fs[0]
      case Control(p) =>
        if IsControl(fs[0], CTL_STOP) then Session(FinishFrame(), [], false) else DrainFrames(fs[1..], fold)
      case Data(p) =>
        match Dispatch(p, fold)
        case Crashed => Session([], [], true)
        case Dropped => DrainFrames(fs[1..], fold)
        case Query(q) => var s := DrainFrames(fs[1..], fold); s.(queries := [q] + s.queries)
  }

  // What follows an accepted READY.
  function StartFrames(fs: seq<Frame>, fold: Fold): Session {
    if fs == [] || !IsControl(fs[0], CTL_START) then Session(AcceptFrame(), [], false)
    else var s := DrainFrames(fs[1..], fold); s.(written := AcceptFrame() + s.written)
  }

  function ServeFrames(fs: seq<Frame>, acceptFails: bool, fold: Fold): Session {
    if fs == [] || !IsControl(fs[0], CTL_READY) || acceptFails then Session([], [], false)
    else StartFrames(fs[1..], fold)
  }

  // A data frame that kills the process, in terms of its bytes: the dnstap
  // message, or the query message in it, declares a length that reaches beyond
  // the int range.
  predicate Fatal(f: Frame) {
    && f.Data?
    && (|| Overruns(f.payload, DNSTAP_MESSAGE)
        || (match Find(f.payload, DNSTAP_MESSAGE)
            case Payload(inner) => Overruns(inner, QUERY_MESSAGE)
            case _ => false))
  }

  lemma {:induction false} FatalMeansCrash(f: Frame, fold: Fold)
    requires Sendable(f)
    ensures Fatal(f) <==> f.Data? && Dispatch(f.payload, fold) == Crashed
  {
    if f.Data? {
      FindMeaning(f.payload, DNSTAP_MESSAGE);
      var found := Find(f.payload, DNSTAP_MESSAGE);
      if found.Payload? {
        FindMeaning(found.bytes, QUERY_MESSAGE);
      }
    }
  }

  // Where the drain ends: at the first STOP or fatal frame, or with the frames.
  function EndAt(fs: seq<Frame>): (n: nat)
    ensures n <= |fs|
    ensures forall i | 0 <= i < n :: !IsControl(fs[i], CTL_STOP) && !Fatal(fs[i])
    ensures n < |fs| ==> IsControl(fs[n], CTL_STOP) || Fatal(fs[n])
  {
    if fs == [] || IsControl(fs[0], CTL_STOP) || Fatal(fs[0]) then 0 else 1 + EndAt(fs[1..])
  }

  // What one data frame asks.
  function Asked(f: Frame, fold: Fold): seq<Question> {
    if f.Data? && Dispatch(f.payload, fold).Query? then [Dispatch(f.payload, fold).q] else []
  }

  // The questions of the data frames, in order.
  function QueriesOf(fs: seq<Frame>, fold: Fold): seq<Question> {
    if fs == [] then [] else Asked(fs[0], fold) + QueriesOf(fs[1..], fold)
  }

  lemma {:induction false} DrainMore(fs: seq<Frame>, fold: Fold)
    requires fs != [] && Sendable(fs[0]) && !IsControl(fs[0], CTL_STOP) && !Fatal(fs[0])
    ensures var s := DrainFrames(fs[1..], fold); DrainFrames(fs, fold) == s.(queries := Asked(fs[0], fold) + s.queries)
  {
    FatalMeansCrash(fs[0], fold);
    var s := DrainFrames(fs[1..], fold);
    assert [] + s.queries == s.queries;
  }

  lemma {:induction false} DrainEnds(fs: seq<Frame>, fold: Fold)
    requires fs != [] && Sendable(fs[0]) && (IsControl(fs[0], CTL_STOP) || Fatal(fs[0]))
    ensures DrainFrames(fs, fold) == if Fatal(fs[0]) then Session([], [], true) else Session(FinishFrame(), [], false)
  {
    FatalMeansCrash(fs[0], fold);
  }

  ghost predicate AllSendable(fs: seq<Frame>) {
    forall f | f in fs :: Sendable(f)
  }

  // Whatever ends the drain, exactly the questions before it were dispatched.
  lemma {:induction false} DrainMeaning(fs: seq<Frame>, fold: Fold)
    requires AllSendable(fs)
    ensures var s, n := DrainFrames(fs, fold), EndAt(fs);
            && s.queries == QueriesOf(fs[..n], fold)
            && (s.crashed <==> n < |fs| && Fatal(fs[n]))
            && s.written == (if n < |fs| && IsControl(fs[n], CTL_STOP) then FinishFrame() else [])
  {
    if fs != [] {
      var n := EndAt(fs);
      if n == 0 {
        DrainEnds(fs, fold);
      } else {
        DrainMore(fs, fold);
        DrainMeaning(fs[1..], fold);
        assert fs[..n][1..] == fs[1..][..n - 1] && fs[..n][0] == fs[0];
      }
    }
  }

  // Frame i is fatal, and no STOP comes before it.
  ghost predicate FatalAt(fs: seq<Frame>, i: int) {
    0 <= i < |fs| && Fatal(fs[i]) && forall j | 0 <= j < i :: !IsControl(fs[j], CTL_STOP)
  }

  lemma FatalAtEnd(fs: seq<Frame>, i: int)
    ensures FatalAt(fs, i) ==> FatalAt(fs, EndAt(fs))
  {
    if FatalAt(fs, i) {
      assert EndAt(fs) <= i;
    }
  }

  // The process dies exactly when a fatal data frame comes before any STOP.
  lemma {:induction false} DrainCrash(fs: seq<Frame>, fold: Fold)
    requires AllSendable(fs)
    ensures DrainFrames(fs, fold).crashed <==> exists i :: FatalAt(fs, i)
  {
    DrainMeaning(fs, fold);
    if i :| FatalAt(fs, i) {
      FatalAtEnd(fs, i);
    } else {
      assert !FatalAt(fs, EndAt(fs));
    }
  }

  // On any input whatever: after an accepted READY and START exactly the data
  // frames before the first STOP or fatal frame are dispatched, in order;
  // FINISH is written if and only if it is a STOP that ends the drain, and the
  // process dies if and only if it is a fatal frame; nothing is dispatched
  // without the handshake.
  lemma {:induction false} SessionMeaning(input: seq<Byte>, fold: Fold)
    ensures var fs, s := ParseAll(input).0, ServeFrames(ParseAll(input).0, false, fold);
            var ready := |fs| >= 1 && IsControl(fs[0], CTL_READY);
            var started := ready && |fs| >= 2 && IsControl(fs[1], CTL_START);
            && (!started ==> s == Session(if ready then AcceptFrame() else [], [], false))
            && (started ==>
                  var body := fs[2..]; var n := EndAt(body);
                  && s.queries == QueriesOf(body[..n], fold)
                  && (s.crashed <==> n < |body| && Fatal(body[n]))
                  && s.written == AcceptFrame() +
                                  (if n < |body| && IsControl(body[n], CTL_STOP) then FinishFrame() else []))
  {
    var fs := ParseAll(input).0;
    StreamDecomposes(input);
    if |fs| >= 2 {
      assert AllSendable(fs[2..]) && fs[1..][1..] == fs[2..];
      DrainMeaning(fs[2..], fold);
    }
  }

  // A whole connection that kills the process: READY, START, and one data frame
  // whose dnstap message claims 2^63 bytes.
  function FatalFrames(): (fs: seq<Frame>)
    ensures forall f | f in fs :: Sendable(f)
  {
    ShortVarint();
    [Control(PutBigEndian32(CTL_READY)), Control(PutBigEndian32(CTL_START)), Data([114] + EncodeVarint(U63))]
  }

  lemma ShortVarint()
    ensures |EncodeVarint(U63)| == 10
  {
    assert |EncodeVarint(0x4000)| == 3;
    assert |EncodeVarint(0x1000_0000)| == 5;
    assert |EncodeVarint(0x400_0000_0000)| == 7;
    assert |EncodeVarint(0x100_0000_0000_0000)| == 9;
  }

  lemma {:induction false} FatalInputKills(fold: Fold)
    ensures ServeFrames(ParseAll(EncodeAll(FatalFrames())).0, false, fold) == Session(AcceptFrame(), [], true)
  {
    var fs := FatalFrames();
    StreamRoundTrip(fs, []);
    assert EncodeAll(fs) + [] == EncodeAll(fs);
    FatalHandshake();
    var body := fs[1..][1..];
    assert fs[2] == Data([114] + EncodeVarint(U63)) && body == [fs[2]];
    HugeLengthPanics();
    assert Dispatch(body[0].payload, fold) == Crashed;
    assert DrainFrames(body, fold) == Session([], [], true);
  }

  lemma FatalHandshake()
    ensures var fs := FatalFrames(); |fs| == 3 && IsControl(fs[0], CTL_READY) && IsControl(fs[1], CTL_START)
  {
    assert PutBigEndian32(CTL_READY)[..4] == PutBigEndian32(CTL_READY);
    assert PutBigEndian32(CTL_START)[..4] == PutBigEndian32(CTL_START);
  }

  // The drain as a function of the bytes still to be read.
  function Served(stream: seq<Byte>, fold: Fold): Session {
    DrainFrames(ParseAll(stream).0, fold)
  }

  function AfterQueries(qs: seq<Question>, s: Session): Session {
    s.(queries := qs + s.queries)
  }

  datatype Turn = More | Ended | Died

  function TurnOf(p: Parsed, fold: Fold): Turn {
    if p.Torn? then Ended
    else if p.frame.Control? then if IsControl(p.frame, CTL_STOP) then Ended else More
    else if Dispatch(p.frame.payload, fold).Crashed? then Died else More
  }

  function AskedBy(p: Parsed, fold: Fold): seq<Question> {
    if p.Parsed? then Asked(p.frame, fold) else []
  }

  lemma ServedStep(stream: seq<Byte>, fold: Fold)
    ensures var p := Parse(stream);
            Served(stream, fold) ==
            match TurnOf(p, fold)
            case More => AfterQueries(AskedBy(p, fold), Served(p.rest, fold))
            case Ended => Session(if p.Parsed? then FinishFrame() else [], [], false)
            case Died => Session([], [], true)
  {
    ParseAllStep(stream);
    if Parse(stream).Parsed? {
      assert ParseAll(stream).0[1..] == ParseAll(Parse(stream).rest).0;
    }
  }

  lemma TurnAmounts(stream: seq<Byte>, p: Parsed, now: Session, fold: Fold)
    requires p == Parse(stream) && now == Served(stream, fold)
    ensures TurnOf(p, fold) == More ==>
              && p.Parsed? && |p.rest| < |stream|
              && now == AfterQueries(AskedBy(p, fold), Served(p.rest, fold))
    ensures TurnOf(p, fold) == Ended ==> now == Session(if p.Parsed? then FinishFrame() else [], [], false)
    ensures TurnOf(p, fold) == Died ==> now == Session([], [], true) && p.Parsed? && AskedBy(p, fold) == []
  {
    ServedStep(stream, fold);
    if p.Parsed? {
      ParseInverts(stream);
    }
  }

  // The session of a stream, frame by frame through the handshake.
  function AfterReady(stream: seq<Byte>, fold: Fold): Session {
    var p := Parse(stream);
    if p.Torn? || !IsControl(p.frame, CTL_START) then Session(AcceptFrame(), [], false)
    else var d := Served(p.rest, fold); d.(written := AcceptFrame() + d.written)
  }

  function Handshake(stream: seq<Byte>, acceptFails: bool, fold: Fold): Session {
    var p := Parse(stream);
    if p.Torn? || !IsControl(p.frame, CTL_READY) || acceptFails then Session([], [], false)
    else AfterReady(p.rest, fold)
  }

  lemma AfterReadyServes(stream: seq<Byte>, fold: Fold)
    ensures AfterReady(stream, fold) == StartFrames(ParseAll(stream).0, fold)
  {
    ParseAllStep(stream);
    if Parse(stream).Parsed? {
      assert ParseAll(stream).0[1..] == ParseAll(Parse(stream).rest).0;
    }
  }

  lemma HandshakeServes(stream: seq<Byte>, acceptFails: bool, fold: Fold)
    ensures Handshake(stream, acceptFails, fold) == ServeFrames(ParseAll(stream).0, acceptFails, fold)
  {
    ParseAllStep(stream);
    if Parse(stream).Parsed? {
      var rest := Parse(stream).rest;
      assert ParseAll(stream).0[1..] == ParseAll(rest).0;
      AfterReadyServes(rest, fold);
    }
  }

  // ------------------------------------------------------------ on the wire

  // A control frame without fields, byte by byte.
  function ControlBytes(kind: Byte): seq<Byte> {
    [0, 0, 0, 0, 0, 0, 0, 4, 0, 0, 0, kind]
  }

  // A data frame with a short DNS message in field 10 of field 14.
  function QueryBytes(wire: seq<Byte>): seq<Byte>
    requires |wire| < 126
  {
    [0, 0, 0, |wire| + 4, 0x72, |wire| + 2, 0x52, |wire|] + wire
  }

  // What we write back, byte by byte.
  lemma {:induction false} ReplyBytes()
    ensures AcceptFrame() ==
            [0, 0, 0, 0, 0, 0, 0, 34, 0, 0, 0, 1, 0, 0, 0, 1, 0, 0, 0, 22] + CONTENT_TYPE
    ensures FinishFrame() == ControlBytes(5)
    ensures |CONTENT_TYPE| == 22 && forall i | 0 <= i < 22 :: CONTENT_TYPE[i] == "protobuf:dnstap.Dnstap"[i] as int
  {
    BigEndianSmall(0);
    BigEndianSmall(1);
    BigEndianSmall(4);
    BigEndianSmall(5);
    BigEndianSmall(22);
    BigEndianSmall(34);
  }

  lemma BigEndianSmall(n: Byte)
    ensures PutBigEndian32(n) == [0, 0, 0, n] && BigEndian32([0, 0, 0, n]) == n
  {
    BigEndian32Bytes([0, 0, 0, n]);
    BigEndian32Unique([0, 0, 0, n]);
  }

  lemma {:induction false} ControlParsed(kind: Byte, rest: seq<Byte>)
    ensures Parse(ControlBytes(kind) + rest) == Parsed(Control([0, 0, 0, kind]), rest)
    ensures forall want: nat :: IsControl(Control([0, 0, 0, kind]), want) <==> want == kind
  {
    var tail := [0, 0, 0, kind] + rest;
    assert ControlBytes(kind) + rest == [0, 0, 0, 0, 0, 0, 0, 4] + tail;
    ParseBytes(0, 0, 0, 4, tail);
    assert tail[..4] == [0, 0, 0, kind] && tail[4..] == rest;
    BigEndianSmall(kind);
    assert [0, 0, 0, kind][..4] == [0, 0, 0, kind];
  }

  lemma {:induction false} QueryParsed(wire: seq<Byte>, rest: seq<Byte>, fold: Fold)
    requires |wire| < 126
    ensures var p := Parse(QueryBytes(wire) + rest);
            && p.Parsed? && p.frame.Data? && p.rest == rest
            && Dispatch(p.frame.payload, fold) ==
               (match DecodeAt(wire, fold) case None => Dropped case Some(q) => Query(q))
  {
    var n := |wire|;
    var inner := [0x52, n] + wire;
    var outer := [0x72, n + 2] + inner;
    assert QueryBytes(wire) + rest == [0, 0, 0, n + 4] + (outer + rest);
    ParseBytes(0, 0, 0, n + 4, outer + rest);
    assert (outer + rest)[..n + 4] == outer && (outer + rest)[n + 4..] == rest;
    ShortField(DNSTAP_MESSAGE, outer, inner);
    ShortField(QUERY_MESSAGE, inner, wire);
  }

  // A first field of at most 127 bytes.
  lemma ShortField(num: nat, data: seq<Byte>, payload: seq<Byte>)
    requires num < 16 && |payload| < 128 && data == [8 * num + 2, |payload|] + payload
    ensures Find(data, num) == Payload(payload)
  {
    assert Varint(data, 0) == Value(8 * num + 2, 1);
    assert Varint(data, 1) == Value(|payload|, 2);
    assert data[2..] == payload;
  }

  lemma {:induction false} QueryThenStop(wire: seq<Byte>, rest: seq<Byte>, fold: Fold)
    requires |wire| < 126
    ensures Served(QueryBytes(wire) + (ControlBytes(3) + rest), fold) ==
            Session(FinishFrame(), match DecodeAt(wire, fold) case None => [] case Some(q) => [q], false)
  {
    var stop := ControlBytes(3) + rest;
    ControlParsed(3, rest);
    ServedStep(stop, fold);
    QueryParsed(wire, stop, fold);
    ServedStep(QueryBytes(wire) + stop, fold);
  }

  // A whole connection: READY, START, one data frame, STOP, and whatever comes
  // after it.
  lemma {:induction false} OneFrameSession(wire: seq<Byte>, rest: seq<Byte>, fold: Fold)
    requires |wire| < 126
    ensures ServeFrames(
              ParseAll(ControlBytes(4) + (ControlBytes(2) + (QueryBytes(wire) + (ControlBytes(3) + rest)))).0,
              false, fold) ==
            Session(AcceptFrame() + FinishFrame(),
                    match DecodeAt(wire, fold) case None => [] case Some(q) => [q], false)
  {
    var s2 := QueryBytes(wire) + (ControlBytes(3) + rest);
    var s1 := ControlBytes(2) + s2;
    QueryThenStop(wire, rest, fold);
    ControlParsed(2, s2);
    ControlParsed(4, s1);
    HandshakeServes(ControlBytes(4) + s1, false, fold);
  }

  // A DNS message with a one-label question: the callback gets its name in
  // lower case and the type that the two bytes spell.
  lemma {:induction false} OneQuestionSession(header: seq<Byte>, l: Label, hi: Byte, lo: Byte, qclass: seq<Byte>,
                                              rest: seq<Byte>, fold: Fold)
    requires |header| == 12 && |qclass| == 2 && 1 <= |l| <= 63
    ensures var wire := header + ([|l|] + l + [0] + ([hi, lo] + (qclass + [])));
            ServeFrames(
              ParseAll(ControlBytes(4) + (ControlBytes(2) + (QueryBytes(wire) + (ControlBytes(3) + rest)))).0,
              false, fold) ==
            Session(AcceptFrame() + FinishFrame(),
                    [Question(DottedName([l], fold), TypeLabel(0x100 * hi as int + lo as int))], false)
  {
    var wire := header + ([|l|] + l + [0] + ([hi, lo] + (qclass + [])));
    QuestionBytes(header, l, hi, lo, qclass, [], fold);
    OneFrameSession(wire, rest, fold);
  }

  // ------------------------------------------------------------- connection

  method PutUint32(a: array<Byte>, at: nat, n: nat)
    requires at + 4 <= a.Length && n < U32
    modifies a
    ensures a[..] == old(a[..at]) + PutBigEndian32(n) + old(a[at + 4..])
  {
    var b := PutBigEndian32(n);
    a[at] := b[0];
    a[at + 1] := b[1];
    a[at + 2] := b[2];
    a[at + 3] := b[3];
    assert b == [b[0], b[1], b[2], b[3]];
  }

  method Copy(a: array<Byte>, at: nat, s: seq<Byte>)
    requires at + |s| <= a.Length
    modifies a
    ensures a[..] == old(a[..at]) + s + old(a[at + |s|..])
  {
    for i := 0 to |s|
      invariant a[..] == old(a[..at]) + s[..i] + old(a[at + i..])
    {
      a[at + i] := s[i];
      assert s[..i + 1] == s[..i] + [s[i]];
    }
    assert s[..|s|] == s;
  }

  method MakeControlFrame(payload: seq<Byte>) returns (out: array<Byte>)
    requires |payload| < U32
    ensures fresh(out) && out[..] == Encode(Control(payload))
  {
    out := new Byte[8 + |payload|](_ => 0);
    PutUint32(out, 0, 0);
    PutUint32(out, 4, |payload|);
    Copy(out, 8, payload);
  }

  // A control field: its type, its length, its value.
  method ControlField(kind: nat, value: seq<Byte>) returns (field: array<Byte>)
    requires kind < U32 && |value| < U32
    ensures fresh(field) && field[..] == PutBigEndian32(kind) + PutBigEndian32(|value|) + value
  {
    field := new Byte[8 + |value|](_ => 0);
    PutUint32(field, 0, kind);
    PutUint32(field, 4, |value|);
    assert field[..8] == PutBigEndian32(kind) + PutBigEndian32(|value|);
    Copy(field, 8, value);
  }

  method MakeAcceptFrame() returns (out: array<Byte>)
    ensures fresh(out) && out[..] == AcceptFrame()
  {
    var field := ControlField(FIELD_CONTENT_TYPE, CONTENT_TYPE);
    var bytes := field[..];
    var payload := new Byte[4 + |bytes|](_ => 0);
    PutUint32(payload, 0, CTL_ACCEPT);
    Copy(payload, 4, bytes);
    assert payload[..] == PutBigEndian32(CTL_ACCEPT) + bytes;
    out := MakeControlFrame(payload[..]);
  }

  method MakeFinishFrame() returns (out: array<Byte>)
    ensures fresh(out) && out[..] == FinishFrame()
  {
    var p := new Byte[4](_ => 0);
    PutUint32(p, 0, CTL_FINISH);
    assert p[..] == PutBigEndian32(CTL_FINISH);
    out := MakeControlFrame(p[..]);
  }

  class Conn {
    const input: seq<Byte>
    var pos: nat
    var written: seq<Byte>
    var queries: seq<Question>

    ghost predicate Valid()
      reads this
    {
      pos <= |input|
    }

    ghost function Unread(): seq<Byte>
      requires Valid()
      reads this
    {
      input[pos..]
    }

    constructor (input: seq<Byte>)
      ensures Valid() && this.input == input && Unread() == input && written == [] && queries == []
    {
      this.input := input;
      pos, written, queries := 0, [], [];
    }

    // io.ReadFull: all n bytes, or an error at the end of the stream.
    method ReadFull(n: nat) returns (ok: bool, buf: seq<Byte>)
      requires Valid()
      modifies this`pos
      ensures Valid()
      ensures ok <==> n <= |old(Unread())|
      ensures ok ==> buf == old(Unread())[..n] && Unread() == old(Unread())[n..]
    {
      if pos + n > |input| {
        pos := |input|;
        return false, [];
      }
      buf := input[pos..pos + n];
      assert buf == input[pos..][..n];
      pos := pos + n;
      return true, buf;
    }

    method ReadFrame() returns (r: Option<Frame>)
      requires Valid()
      modifies this`pos
      ensures Valid()
      ensures var p := Parse(old(Unread()));
              if p.Torn? then r == None else r == Some(p.frame) && Unread() == p.rest
    {
      ghost var s := Unread();
      var ok, lenBuf := ReadFull(4);
      if !ok {
        return None;
      }
      var length := BigEndian32(lenBuf);
      if length == 0 {
        assert |s| >= 8 ==> s[4..][..4] == s[4..8];
        ok, lenBuf := ReadFull(4);
        if !ok {
          return None;
        }
        assert Unread() == s[8..];
        var ctl := BigEndian32(lenBuf);
        assert |s| >= 8 + ctl ==> s[8..][..ctl] == s[8..8 + ctl] && s[8..][ctl..] == s[8 + ctl..];
        var buf;
        ok, buf := ReadFull(ctl);
        if !ok {
          return None;
        }
        return Some(Control(buf));
      }
      assert |s| >= 4 + length ==> s[4..][..length] == s[4..4 + length] && s[4..][length..] == s[4 + length..];
      var buf;
      ok, buf := ReadFull(length);
      if !ok {
        return None;
      }
      return Some(Data(buf));
    }

    method ReadControl(want: nat) returns (ok: bool)
      requires Valid()
      modifies this`pos
      ensures Valid()
      ensures var p := Parse(old(Unread()));
              if p.Torn? then !ok else (ok <==> IsControl(p.frame, want)) && Unread() == p.rest
    {
      var r := ReadFrame();
      if r == None || !r.value.Control? || |r.value.payload| < 4 {
        return false;
      }
      return BigEndian32(r.value.payload[..4]) == want;
    }

    method DispatchFrame(frame: seq<Byte>, fold: Fold) returns (crashed: bool)
      modifies this`queries
      ensures crashed <==> Dispatch(frame, fold) == Crashed
      ensures queries == old(queries) +
                         (if Dispatch(frame, fold).Query? then [Dispatch(frame, fold).q] else [])
    {
      var inner := FindLengthDelimited(frame, DNSTAP_MESSAGE);
      if !inner.Payload? {
        return inner.Panic?;
      }
      var wire := FindLengthDelimited(inner.bytes, QUERY_MESSAGE);
      if !wire.Payload? {
        return wire.Panic?;
      }
      var q := DecodeDNSQuestion(wire.bytes, fold);
      if q.Some? {
        queries := queries + [q.value];
      }
      return false;
    }

    // A control frame inside the drain: STOP is answered with FINISH.
    method OnControl(payload: seq<Byte>) returns (turn: Turn)
      modifies this`written
      ensures turn == if IsControl(Control(payload), CTL_STOP) then Ended else More
      ensures written == old(written) + (if turn == Ended then FinishFrame() else [])
    {
      if |payload| < 4 {
        return More;
      }
      var ctl := BigEndian32(payload[..4]);
      if ctl == CTL_STOP {
        var finish := MakeFinishFrame();
        written := written + finish[..];
        return Ended;
      }
      return More;
    }

    // One turn of the drain loop.
    method DrainOne(fold: Fold) returns (turn: Turn)
      requires Valid()
      modifies this
      ensures Valid()
      ensures var p := Parse(old(Unread()));
              && turn == TurnOf(p, fold)
              && queries == old(queries) + AskedBy(p, fold)
              && written == old(written) + (if turn == Ended && p.Parsed? then FinishFrame() else [])
              && (turn == More ==> Unread() == p.rest)
    {
      var r := ReadFrame();
      if r == None {
        return Ended;
      }
      if r.value.Control? {
        turn := OnControl(r.value.payload);
        return;
      }
      var crashed := DispatchFrame(r.value.payload, fold);
      turn := if crashed then Died else More;
    }

    method DrainLoop(fold: Fold) returns (crashed: bool)
      requires Valid()
      modifies this
      ensures Valid()
      ensures var s := Served(old(Unread()), fold);
              crashed == s.crashed && written == old(written) + s.written && queries == old(queries) + s.queries
    {
      ghost var whole := Served(Unread(), fold);
      ghost var now := whole;
      while true
        invariant Valid() && written == old(written)
        invariant now == Served(Unread(), fold)
        invariant now.written == whole.written && now.crashed == whole.crashed
        invariant old(queries) + whole.queries == queries + now.queries
        decreases |Unread()|
      {
        ghost var p := Parse(Unread());
        TurnAmounts(Unread(), p, now, fold);
        ghost var asked, before := AskedBy(p, fold), queries;
        var turn := DrainOne(fold);
        if turn != More {
          return turn == Died;
        }
        ghost var next := Served(p.rest, fold);
        Reassociate(before, asked, next.queries);
        now := next;
      }
    }

    // READY, our ACCEPT, START.
    method ShakeHands(acceptFails: bool) returns (ok: bool)
      requires Valid() && written == []
      modifies this`pos, this`written
      ensures Valid()
      ensures var p := Parse(old(Unread()));
              var ready := p.Parsed? && IsControl(p.frame, CTL_READY) && !acceptFails;
              && written == (if ready then AcceptFrame() else [])
              && (ok <==> ready && Parse(p.rest).Parsed? && IsControl(Parse(p.rest).frame, CTL_START))
              && (ok ==> Unread() == Parse(p.rest).rest)
    {
      var ready := ReadControl(CTL_READY);
      if !ready {
        return false;
      }
      if acceptFails {
        return false;
      }
      var accept := MakeAcceptFrame();
      written := written + accept[..];
      ok := ReadControl(CTL_START);
    }

    // The handshake, then the drain; whole is what the input amounts to.
    method Serve(acceptFails: bool, fold: Fold, ghost whole: Session) returns (crashed: bool)
      requires Valid() && written == [] && queries == []
      requires whole == Handshake(Unread(), acceptFails, fold)
      modifies this
      ensures Session(written, queries, crashed) == whole
    {
      var ok := ShakeHands(acceptFails);
      if !ok {
        return false;
      }
      ghost var d := Served(Unread(), fold);
      assert whole == d.(written := AcceptFrame() + d.written);
      crashed := DrainLoop(fold);
    }

    method HandleClient(acceptFails: bool, fold: Fold) returns (crashed: bool)
      requires Valid() && written == [] && queries == []
      modifies this
      ensures Session(written, queries, crashed) == ServeFrames(ParseAll(old(Unread())).0, acceptFails, fold)
      ensures acceptFails ==> written == [] && queries == [] && !crashed
    {
      HandshakeServes(Unread(), acceptFails, fold);
      crashed := Serve(acceptFails, fold, Handshake(Unread(), acceptFails, fold));
    }
  }
}
