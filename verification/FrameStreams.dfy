// Frame Streams framing: length-prefixed data frames, and control frames
// behind a zero-length escape.
module FrameStreams {
  import opened Bytes

  datatype Frame = Control(payload: seq<Byte>) | Data(payload: seq<Byte>)

  // A frame that the wire format can carry.
  predicate Sendable(f: Frame) {
    |f.payload| < U32 && (f.Data? ==> |f.payload| > 0)
  }

  function Encode(f: Frame): seq<Byte>
    requires Sendable(f)
  {
    match f
    case Control(p) => PutBigEndian32(0) + PutBigEndian32(|p|) + p
    case Data(p) => PutBigEndian32(|p|) + p
  }

  function EncodeAll(fs: seq<Frame>): seq<Byte>
    requires forall f | f in fs :: Sendable(f)
  {
    if fs == [] then [] else Encode(fs[0]) + EncodeAll(fs[1..])
  }

  // One frame and what follows it, or a stream that ends inside a frame.
  datatype Parsed = Parsed(frame: Frame, rest: seq<Byte>) | Torn

  function Parse(s: seq<Byte>): Parsed {
    if |s| < 4 then Torn
    else
      var length := BigEndian32(s[..4]);
      if length != 0 then
        if |s| < 4 + length then Torn else Parsed(Data(s[4..4 + length]), s[4 + length..])
      else if |s| < 8 then Torn
      else
        var ctl := BigEndian32(s[4..8]);
        if |s| < 8 + ctl then Torn else Parsed(Control(s[8..8 + ctl]), s[8 + ctl..])
  }

  lemma {:induction false} ParseEncoded(f: Frame, rest: seq<Byte>)
    requires Sendable(f)
    ensures Parse(Encode(f) + rest) == Parsed(f, rest)
  {
    var s := Encode(f) + rest;
    if f.Control? {
      assert s[..4] == PutBigEndian32(0);
      assert s[4..8] == PutBigEndian32(|f.payload|);
      assert s[8..8 + |f.payload|] == f.payload && s[8 + |f.payload|..] == rest;
    } else {
      assert s[..4] == PutBigEndian32(|f.payload|);
      assert s[4..4 + |f.payload|] == f.payload && s[4 + |f.payload|..] == rest;
    }
  }

  // The same on the bytes of the wire: four length bytes, most significant
  // first; four zeros announce a control frame, whose own length follows.
  lemma {:induction false} ParseBytes(a: Byte, b: Byte, c: Byte, d: Byte, rest: seq<Byte>)
    ensures var n: nat := 0x100_0000 * a as int + 0x1_0000 * b as int + 0x100 * c as int + d as int;
            && (n > 0 ==>
                  Parse([a, b, c, d] + rest) == if |rest| < n then Torn else Parsed(Data(rest[..n]), rest[n..]))
            && Parse([0, 0, 0, 0, a, b, c, d] + rest) ==
               if |rest| < n then Torn else Parsed(Control(rest[..n]), rest[n..])
  {
    var four, eight := [a, b, c, d] + rest, [0, 0, 0, 0, a, b, c, d] + rest;
    assert four[..4] == [a, b, c, d] && eight[..4] == [0, 0, 0, 0] && eight[4..8] == [a, b, c, d];
    BigEndian32Bytes([a, b, c, d]);
    BigEndian32Bytes([0, 0, 0, 0]);
    var n := BigEndian32([a, b, c, d]);
    if n <= |rest| {
      assert four[4..4 + n] == rest[..n] && four[4 + n..] == rest[n..];
      assert eight[8..8 + n] == rest[..n] && eight[8 + n..] == rest[n..];
    }
  }

  // Conversely, a parsed frame was preceded by nothing and is the only reading.
  lemma {:induction false} ParseInverts(s: seq<Byte>)
    requires Parse(s).Parsed?
    ensures Sendable(Parse(s).frame) && s == Encode(Parse(s).frame) + Parse(s).rest
    ensures |Parse(s).rest| < |s|
  {
    BigEndian32Unique(s[..4]);
    if Parse(s).frame.Control? {
      BigEndian32Unique(s[4..8]);
      assert s == s[..4] + s[4..8] + Parse(s).frame.payload + Parse(s).rest;
    } else {
      assert s == s[..4] + Parse(s).frame.payload + Parse(s).rest;
    }
  }

  // All the frames of a stream, and the torn end behind them.
  function ParseAll(s: seq<Byte>): (seq<Frame>, seq<Byte>)
    decreases |s|
  {
    match Parse(s)
    case Torn => ([], s)
    case Parsed(f, rest) =>
      ParseInverts(s);
      var (fs, tail) := ParseAll(rest);
      ([f] + fs, tail)
  }

  lemma EncodeAllCons(f: Frame, fs: seq<Frame>, tail: seq<Byte>)
    requires Sendable(f) && forall g | g in fs :: Sendable(g)
    ensures forall g | g in [f] + fs :: Sendable(g)
    ensures EncodeAll([f] + fs) + tail == Encode(f) + (EncodeAll(fs) + tail)
  {
    assert ([f] + fs)[1..] == fs;
  }

  // Reading a stream of frames gives back exactly the frames that were
  // written, up to the point where the stream breaks off.
  lemma {:induction false} StreamRoundTrip(fs: seq<Frame>, tail: seq<Byte>)
    requires (forall f | f in fs :: Sendable(f)) && Parse(tail).Torn?
    ensures ParseAll(EncodeAll(fs) + tail) == (fs, tail)
  {
    if fs == [] {
      assert EncodeAll(fs) + tail == tail;
    } else {
      var f, rest := fs[0], EncodeAll(fs[1..]) + tail;
      assert fs == [f] + fs[1..];
      StreamRoundTrip(fs[1..], tail);
      EncodeAllCons(f, fs[1..], tail);
      ParseEncoded(f, rest);
      ParseAllStep(Encode(f) + rest);
    }
  }

  lemma ParseAllStep(s: seq<Byte>)
    ensures match Parse(s)
            case Torn => ParseAll(s) == ([], s)
            case Parsed(f, rest) => ParseAll(s) == ([f] + ParseAll(rest).0, ParseAll(rest).1)
  {
  }

  // And every byte stream is such a stream, in one way only.
  lemma {:induction false} StreamDecomposes(s: seq<Byte>)
    ensures var (fs, tail) := ParseAll(s);
            (forall f | f in fs :: Sendable(f)) && s == EncodeAll(fs) + tail && Parse(tail).Torn?
    decreases |s|
  {
    ParseAllStep(s);
    match Parse(s)
    case Torn => assert EncodeAll([]) + s == s;
    case Parsed(f, rest) =>
      ParseInverts(s);
      StreamDecomposes(rest);
      EncodeAllCons(f, ParseAll(rest).0, ParseAll(rest).1);
  }
}
