// The hand-written protobuf walker: varints, field skipping, and the search
// for a length-delimited field.
module Protobuf {
  import opened Wrappers
  import opened Bytes

  // ----------------------------------------------------------------- varint

  datatype VarintResult = Value(v: nat, next: nat) | Malformed

  // 128 to the power k: the weight of the k-th group of a varint.
  function Weight(k: nat): (w: nat)
    ensures w > 0
  {
    if k == 0 then 1 else 128 * Weight(k - 1)
  }

  // What fits above k groups of a 64-bit number.
  function Room(k: nat): (r: nat)
    requires k <= 9
    ensures r >= 2
    decreases 9 - k
  {
    if k == 9 then 2 else 128 * Room(k + 1)
  }

  // The number spelled at pos, as the groups above the first k. Of the tenth
  // group only the lowest bit is left after the shift by 63.
  function VarintAt(b: seq<Byte>, pos: nat, k: nat): (r: VarintResult)
    requires k <= 9
    ensures r.Value? ==> pos < r.next <= |b| && r.v < Room(k)
    decreases 9 - k
  {
    if pos >= |b| then Malformed
    else if b[pos] < 128 then Value(if k == 9 then b[pos] as int % 2 else b[pos] as int, pos + 1)
    else if k == 9 then Malformed
    else
      match VarintAt(b, pos + 1, k + 1)
      case Malformed => Malformed
      case Value(v, next) => Value(b[pos] as int % 128 + 128 * v, next)
  }

  function Varint(b: seq<Byte>, pos: nat): VarintResult {
    VarintAt(b, pos, 0)
  }

  function EncodeVarint(v: nat): (b: seq<Byte>)
    ensures |b| > 0
  {
    if v < 128 then [v] else [128 + v % 128] + EncodeVarint(v / 128)
  }

  lemma {:induction false} VarintAtEncoded(v: nat, b: seq<Byte>, pos: nat, k: nat)
    requires k <= 9 && v < Room(k)
    requires pos <= |b| && EncodeVarint(v) <= b[pos..]
    ensures VarintAt(b, pos, k) == Value(v, pos + |EncodeVarint(v)|)
    decreases 9 - k
  {
    var e := EncodeVarint(v);
    assert b[pos] == b[pos..][0] == e[0];
    if v >= 128 {
      assert k < 9;
      assert b[pos + 1..] == b[pos..][1..];
      assert EncodeVarint(v / 128) == e[1..] <= b[pos + 1..];
      VarintAtEncoded(v / 128, b, pos + 1, k + 1);
    }
  }

  // readVarint inverts base-128 encoding on all 64-bit numbers, consuming
  // exactly the encoding whatever follows it.
  lemma {:induction false} VarintRoundTrip(v: nat, before: seq<Byte>, after: seq<Byte>)
    requires v < U64
    ensures Varint(before + EncodeVarint(v) + after, |before|) == Value(v, |before| + |EncodeVarint(v)|)
  {
    RoomIs64Bits();
    var b := before + EncodeVarint(v) + after;
    assert b[|before|..] == EncodeVarint(v) + after;
    VarintAtEncoded(v, b, |before|, 0);
  }

  lemma RoomIs64Bits()
    ensures Room(0) == U64
  {
    assert Room(6) == 0x40_0000;
    assert Room(3) == 0x800_0000_0000;
  }

  lemma WeightTimesGroup(k: nat, group: nat, v: nat)
    ensures (group + 128 * v) * Weight(k) == group * Weight(k) + v * Weight(k + 1)
  {
    var w := Weight(k);
    assert Weight(k + 1) == 128 * w;
    Distribute(group, 128, v, w);
  }

  lemma Distribute(a: int, b: int, c: int, w: int)
    ensures (a + b * c) * w == a * w + c * (b * w)
  {
  }

  // group << 7k in a uint64 keeps the lowest 64 - 7k bits of the group.
  function Shifted(group: nat, k: nat): nat
    requires k <= 9
  {
    group % Room(k) * Weight(k)
  }

  // `result` stays below the weight of the next group, so the bitwise OR that
  // adds a group is a sum.
  method ReadVarint(b: seq<Byte>, start: nat) returns (r: VarintResult)
    ensures r == Varint(b, start)
  {
    var result: nat, k: nat, pos: nat := 0, 0, start;
    ghost var whole := Varint(b, start);
    while pos < |b|
      invariant k <= 9 && result < Weight(k)
      invariant whole == Continue(result, k, VarintAt(b, pos, k))
      decreases 9 - k
    {
      var bt: nat := b[pos];
      var group := bt % 128;
      ContinueStep(b, pos, k, result);
      result := result + Shifted(group, k);
      pos := pos + 1;
      if bt < 128 {
        return Value(result, pos);
      }
      k := k + 1;
      if k * 7 >= 64 {
        return Malformed;
      }
    }
    return Malformed;
  }

  // The whole number, when k groups have added up to `result` and `rest` is
  // what the groups above them spell.
  function Continue(result: nat, k: nat, rest: VarintResult): VarintResult {
    match rest
    case Malformed => Malformed
    case Value(v, next) => Value(result + v * Weight(k), next)
  }

  lemma ShiftFits(group: nat, k: nat)
    requires group < 128 && k < 9
    ensures Shifted(group, k) == group * Weight(k)
    ensures group * Weight(k) + Weight(k) <= Weight(k + 1)
  {
    var r, w := Room(k), Weight(k);
    assert r == 128 * Room(k + 1) >= 128;
    ModSmall(group, r);
    OneMore(group, w);
    assert Weight(k + 1) == 128 * w;
  }

  lemma ModSmall(group: nat, r: nat)
    requires group < r
    ensures group % r == group
  {
  }

  lemma OneMore(group: nat, w: nat)
    requires group < 128
    ensures group * w + w <= 128 * w
  {
    assert (128 - group - 1) * w >= 0;
    assert (128 - group - 1) * w == 128 * w - group * w - w;
  }

  lemma StaysBelow(result: nat, group: nat, k: nat)
    requires group < 128 && k < 9 && result < Weight(k)
    ensures result + Shifted(group, k) < Weight(k + 1)
  {
    ShiftFits(group, k);
  }

  // One turn of the reading loop: the last group ends the number, any other
  // leaves a shorter one to read.
  lemma ContinueLast(b: seq<Byte>, pos: nat, k: nat, result: nat)
    requires k <= 9 && pos < |b| && b[pos] < 128
    ensures Continue(result, k, VarintAt(b, pos, k)) == Value(result + Shifted(b[pos], k), pos + 1)
  {
    if k < 9 {
      ShiftFits(b[pos], k);
    }
  }

  lemma ContinueMore(b: seq<Byte>, pos: nat, k: nat, result: nat)
    requires k < 9 && pos < |b| && b[pos] >= 128
    ensures Continue(result, k, VarintAt(b, pos, k)) ==
            Continue(result + Shifted(b[pos] as int % 128, k), k + 1, VarintAt(b, pos + 1, k + 1))
  {
    var group := b[pos] as int % 128;
    ShiftFits(group, k);
    var rest := VarintAt(b, pos + 1, k + 1);
    if rest.Value? {
      WeightTimesGroup(k, group, rest.v);
    }
  }

  lemma ContinueStep(b: seq<Byte>, pos: nat, k: nat, result: nat)
    requires k <= 9 && pos < |b| && result < Weight(k)
    ensures var whole, added := Continue(result, k, VarintAt(b, pos, k)), result + Shifted(b[pos] as int % 128, k);
            if b[pos] < 128 then whole == Value(added, pos + 1)
            else if k == 9 then whole == Malformed
            else added < Weight(k + 1) && whole == Continue(added, k + 1, VarintAt(b, pos + 1, k + 1))
  {
    if b[pos] < 128 {
      ContinueLast(b, pos, k, result);
    } else if k < 9 {
      ContinueMore(b, pos, k, result);
      StaysBelow(result, b[pos] as int % 128, k);
    }
  }

  // ------------------------------------------------------------ field search

  // int(u) of a uint64, or the sum of two ints, in 64-bit two's complement:
  // either is off by at most one turn.
  function Wrap(x: int): int {
    if x >= U63 then x - U64 else if x < -U63 then x + U64 else x
  }

  datatype Skipped = At(pos: int) | Unknown

  function Skip(b: seq<Byte>, pos: nat, wireType: nat): Skipped {
    match wireType
    case 0 => (match Varint(b, pos) case Malformed => Unknown case Value(_, next) => At(next))
    case 1 => At(Wrap(pos + 8))
    case 2 => (match Varint(b, pos) case Malformed => Unknown case Value(n, next) => At(Wrap(next + Wrap(n))))
    case 5 => At(Wrap(pos + 4))
    case _ => Unknown
  }

  // The payload, no such field, or a slice expression that panics.
  datatype Found = Payload(bytes: seq<Byte>) | Absent | Panic

  // data[pos : pos+int(n)] behind the check against len(data).
  function SliceAt(data: seq<Byte>, pos: nat, n: nat): Found
    requires pos <= |data|
  {
    var end := Wrap(pos + Wrap(n));
    if end > |data| then Absent
    else if end < pos then Panic
    else Payload(data[pos..end])
  }

  method SkipField(b: seq<Byte>, pos: nat, wireType: nat) returns (r: Skipped)
    ensures r == Skip(b, pos, wireType)
  {
    match wireType
    case 0 =>
      var v := ReadVarint(b, pos);
      return match v case Malformed => Unknown case Value(_, next) => At(next);
    case 1 =>
      return At(Wrap(pos + 8));
    case 2 =>
      var v := ReadVarint(b, pos);
      return match v case Malformed => Unknown case Value(n, next) => At(Wrap(next + Wrap(n)));
    case 5 =>
      return At(Wrap(pos + 4));
    case _ =>
      return Unknown;
  }

  // Where the walk that starts at pos meets the target: the start of the
  // field's content and the length it declares.
  datatype Hit = Hit(start: nat, length: nat) | Miss

  function FirstHit(data: seq<Byte>, pos: nat, target: nat): (h: Hit)
    ensures h.Hit? ==> pos < h.start <= |data| && h.length < U64
    decreases |data| - pos
  {
    if pos >= |data| then Miss
    else
      match Varint(data, pos)
      case Malformed => Miss
      case Value(tag, np) =>
        if tag / 8 == target && tag % 8 == 2 then
          match Varint(data, np)
          case Malformed => Miss
          case Value(n, p) => RoomIs64Bits(); Hit(p, n)
        else
          match Skip(data, np, tag % 8)
          case Unknown => Miss
          case At(next) => if next <= np then Miss else FirstHit(data, next, target)
  }

  // The search ends on every input, since each turn moves forward, and yields
  // what the first match declares.
  method FindLengthDelimited(data: seq<Byte>, target: nat) returns (r: Found)
    ensures r == Find(data, target)
  {
    var pos := 0;
    while pos < |data|
      invariant FirstHit(data, pos, target) == FirstHit(data, 0, target)
      decreases |data| - pos
    {
      var tag := ReadVarint(data, pos);
      if tag.Malformed? {
        return Absent;
      }
      pos := tag.next;
      var fieldNum, wireType := tag.v / 8, tag.v % 8;
      if fieldNum == target && wireType == 2 {
        var length := ReadVarint(data, pos);
        if length.Malformed? {
          return Absent;
        }
        pos := length.next;
        return SliceAt(data, pos, length.v);
      }
      var skipped := SkipField(data, pos, wireType);
      if skipped.Unknown? || skipped.pos <= pos {
        return Absent;
      }
      pos := skipped.pos;
    }
    return Absent;
  }

  function Find(data: seq<Byte>, target: nat): Found {
    match FirstHit(data, 0, target)
    case Miss => Absent
    case Hit(start, length) => SliceAt(data, start, length)
  }

  lemma WrapInRange(x: int)
    requires -U63 <= x < U63
    ensures Wrap(x) == x
  {
  }

  lemma WrapAbove(x: int)
    requires U63 <= x < U63 + U64
    ensures Wrap(x) == x - U64
  {
  }

  // Where a field of a wire type really ends, in unbounded arithmetic.
  function FieldEnd(b: seq<Byte>, pos: nat, wireType: nat): Option<nat> {
    if wireType == 1 then Some(pos + 8)
    else if wireType == 5 then Some(pos + 4)
    else if wireType == 0 && Varint(b, pos).Value? then Some(Varint(b, pos).next)
    else if wireType == 2 && Varint(b, pos).Value? then Some(Varint(b, pos).next + Varint(b, pos).v)
    else None
  }

  // A field is skipped to where it really ends if and only if that is in the
  // int range; beyond it the position turns over, once. Only a wire type or a varint that cannot be read is an error.
  lemma {:induction false} SkipMeaning(b: seq<Byte>, pos: nat, wireType: nat)
    requires pos <= |b| < U63
    ensures Skip(b, pos, wireType) == Unknown <==> FieldEnd(b, pos, wireType) == None
    ensures FieldEnd(b, pos, wireType).Some? ==>
              var end := FieldEnd(b, pos, wireType).value;
              && end > pos
              && Skip(b, pos, wireType) == At(if end < U63 then end else end - U64)
  {
    RoomIs64Bits();
  }

  lemma SliceMeaning(data: seq<Byte>, start: nat, length: nat)
    requires start <= |data| < U63 && length < U64
    ensures SliceAt(data, start, length) ==
            if start + length <= |data| then Payload(data[start..start + length])
            else if start + length < U63 then Absent else Panic
  {
    if length < U63 {
      WrapInRange(length);
      if start + length < U63 {
        WrapInRange(start + length);
      } else {
        WrapAbove(start + length);
      }
    } else {
      WrapAbove(length);
      WrapInRange(start + (length - U64));
    }
  }

  // In true arithmetic: the payload is returned if and only if the declared
  // length fits the message, and the slice panics if and only if it reaches
  // beyond the int range.
  lemma {:induction false} FindMeaning(data: seq<Byte>, target: nat)
    requires |data| < U63
    ensures match FirstHit(data, 0, target)
            case Miss => Find(data, target) == Absent && !Overruns(data, target)
            case Hit(start, length) =>
              && (Find(data, target).Payload? <==> start + length <= |data|)
              && (Find(data, target) == Panic <==> Overruns(data, target))
              && (Overruns(data, target) <==> start + length >= U63)
              && (start + length <= |data| ==> Find(data, target) == Payload(data[start..start + length]))
  {
    match FirstHit(data, 0, target)
    case Miss =>
    case Hit(start, length) => SliceMeaning(data, start, length);
  }

  // The first match declares a length that reaches beyond the int range.
  predicate Overruns(data: seq<Byte>, target: nat) {
    var h := FirstHit(data, 0, target);
    h.Hit? && h.start + h.length >= U63
  }

  // A message whose first match declares 2^63 bytes or more makes it panic.
  lemma HugeLengthPanics()
    ensures Find([114] + EncodeVarint(U63), 14) == Panic
  {
    var data := [114] + EncodeVarint(U63);
    assert data[0..] == data;
    assert EncodeVarint(114) == [114];
    assert Varint(data, 0) == Value(114, 1);
    VarintRoundTrip(U63, [114], []);
    assert data + [] == data;
    assert Varint(data, 1) == Value(U63, 1 + |EncodeVarint(U63)|);
    assert FirstHit(data, 0, 14) == Hit(1 + |EncodeVarint(U63)|, U63);
    FindMeaning(data, 14);
  }

  // -------------------------------------------------------------- on the wire

  // A varint's groups come least significant first, all but the last with the
  // high bit set.
  lemma VarintBytes(b: seq<Byte>, pos: nat)
    requires pos < |b|
    ensures b[pos] < 0x80 ==> Varint(b, pos) == Value(b[pos], pos + 1)
    ensures pos + 1 < |b| && b[pos] >= 0x80 > b[pos + 1] ==>
              Varint(b, pos) == Value(b[pos] as int - 0x80 + 0x80 * b[pos + 1] as int, pos + 2)
  {
  }

  // Fields of wire types 0, 1 and 5, byte by byte, in front of field 14.
  lemma {:induction false} FieldBytes(v: Byte, eight: seq<Byte>, four: seq<Byte>, payload: seq<Byte>, more: seq<Byte>)
    requires v < 0x80 && |eight| == 8 && |four| == 4 && |payload| < 0x80
    ensures Find([0x08, v, 0x09] + eight + [0x0D] + four + [0x72, |payload|] + payload + more, 14) == Payload(payload)
  {
    var data := [0x08, v, 0x09] + eight + [0x0D] + four + [0x72, |payload|] + payload + more;
    assert data[0] == 0x08 && data[1] == v && data[2] == 0x09 && data[11] == 0x0D;
    assert data[16] == 0x72 && data[17] == |payload|;
    VarintBytes(data, 0);
    VarintBytes(data, 1);
    VarintBytes(data, 2);
    VarintBytes(data, 11);
    VarintBytes(data, 16);
    VarintBytes(data, 17);
    assert FirstHit(data, 16, 14) == Hit(18, |payload|);
    assert FirstHit(data, 11, 14) == FirstHit(data, 16, 14);
    assert FirstHit(data, 2, 14) == FirstHit(data, 11, 14);
    assert data[18..18 + |payload|] == payload;
  }

  // ------------------------------------------------------------- field list

  // The fields of wire types 0, 1, 2 and 5.
  datatype Field =
    | VarintField(num: nat, v: nat)
    | Fixed64(num: nat, bytes: seq<Byte>)
    | Bytes(num: nat, payload: seq<Byte>)
    | Fixed32(num: nat, bytes: seq<Byte>)

  predicate FieldOk(f: Field) {
    && f.num < U64 / 8
    && (f.VarintField? ==> f.v < U64)
    && (f.Fixed64? ==> |f.bytes| == 8)
    && (f.Bytes? ==> |f.payload| < U63)
    && (f.Fixed32? ==> |f.bytes| == 4)
  }

  function WireType(f: Field): nat {
    match f
    case VarintField(_, _) => 0
    case Fixed64(_, _) => 1
    case Bytes(_, _) => 2
    case Fixed32(_, _) => 5
  }

  function Content(f: Field): seq<Byte> {
    match f
    case VarintField(_, v) => EncodeVarint(v)
    case Fixed64(_, bytes) => bytes
    case Bytes(_, payload) => EncodeVarint(|payload|) + payload
    case Fixed32(_, bytes) => bytes
  }

  function EncodeField(f: Field): seq<Byte> {
    EncodeVarint(8 * f.num + WireType(f)) + Content(f)
  }

  function EncodeFields(fs: seq<Field>): seq<Byte> {
    if fs == [] then [] else EncodeField(fs[0]) + EncodeFields(fs[1..])
  }

  // What the first matching field of a list is, given its tail's.
  function FirstOf(f: Field, target: nat, r: Found): Found {
    if f.Bytes? && f.num == target then Payload(f.payload) else r
  }

  // The specification of the search: the first Bytes field with the number.
  function FirstBytes(fs: seq<Field>, target: nat): Found {
    if fs == [] then Absent else FirstOf(fs[0], target, FirstBytes(fs[1..], target))
  }

  lemma PrefixSplits(a: seq<Byte>, b: seq<Byte>, data: seq<Byte>, pos: nat)
    requires pos <= |data| && a + b <= data[pos..]
    ensures pos + |a| + |b| <= |data|
    ensures a <= data[pos..] && b <= data[pos + |a|..]
    ensures data[pos + |a|..pos + |a| + |b|] == b
  {
    var n := |a| + |b|;
    assert data[pos..pos + n] == data[pos..][..n] == a + b;
    assert data[pos..pos + |a|] == data[pos..pos + n][..|a|] == a;
    assert data[pos + |a|..pos + n] == data[pos..pos + n][|a|..] == b;
  }

  lemma {:induction false} TagRead(f: Field, data: seq<Byte>, pos: nat)
    requires FieldOk(f) && pos <= |data| && EncodeField(f) <= data[pos..]
    ensures var np := pos + |EncodeVarint(8 * f.num + WireType(f))|;
            && Varint(data, pos) == Value(8 * f.num + WireType(f), np)
            && np <= |data| && Content(f) <= data[np..]
  {
    TagThenContent(8 * f.num + WireType(f), Content(f), data, pos);
  }

  lemma {:induction false} TagThenContent(tag: nat, content: seq<Byte>, data: seq<Byte>, pos: nat)
    requires tag < U64 && pos <= |data| && EncodeVarint(tag) + content <= data[pos..]
    ensures var np := pos + |EncodeVarint(tag)|;
            Varint(data, pos) == Value(tag, np) && np <= |data| && content <= data[np..]
  {
    PrefixSplits(EncodeVarint(tag), content, data, pos);
    RoomIs64Bits();
    VarintAtEncoded(tag, data, pos, 0);
  }

  lemma {:induction false} SkipContent(f: Field, data: seq<Byte>, np: nat)
    requires FieldOk(f) && np <= |data| < U63 && Content(f) <= data[np..]
    ensures Skip(data, np, WireType(f)) == At(np + |Content(f)|) && |Content(f)| > 0
  {
    RoomIs64Bits();
    match f
    case VarintField(_, v) => VarintAtEncoded(v, data, np, 0);
    case Bytes(_, payload) => LengthRead(payload, data, np);
    case _ =>
  }

  lemma {:induction false} LengthRead(payload: seq<Byte>, data: seq<Byte>, np: nat)
    requires |payload| < U63 && np <= |data| && EncodeVarint(|payload|) + payload <= data[np..]
    ensures var p := np + |EncodeVarint(|payload|)|;
            && Varint(data, np) == Value(|payload|, p)
            && p + |payload| <= |data| && data[p..p + |payload|] == payload
  {
    PrefixSplits(EncodeVarint(|payload|), payload, data, np);
    RoomIs64Bits();
    VarintAtEncoded(|payload|, data, np, 0);
  }

  lemma HitHere(data: seq<Byte>, pos: nat, target: nat, tag: nat, np: nat, n: nat, p: nat)
    requires pos < |data| && Varint(data, pos) == Value(tag, np) && Varint(data, np) == Value(n, p)
    requires tag / 8 == target && tag % 8 == 2
    ensures FirstHit(data, pos, target) == Hit(p, n)
  {
  }

  lemma PassOver(data: seq<Byte>, pos: nat, target: nat, tag: nat, np: nat, next: nat, h: Hit)
    requires pos < |data| && Varint(data, pos) == Value(tag, np)
    requires !(tag / 8 == target && tag % 8 == 2) && Skip(data, np, tag % 8) == At(next) && next > np
    requires h == FirstHit(data, next, target)
    ensures FirstHit(data, pos, target) == h
  {
  }

  // What a hit at h yields on data that it fits.
  ghost predicate Meets(h: Hit, data: seq<Byte>, r: Found) {
    match h
    case Miss => r == Absent
    case Hit(start, length) => start + length <= |data| && r == Payload(data[start..start + length])
  }

  // One field ahead of the walk: a match is hit, anything else is passed over
  // as a whole.
  lemma {:induction false} FieldHit(f: Field, data: seq<Byte>, pos: nat)
    requires f.Bytes? && FieldOk(f) && pos <= |data| < U63 && EncodeField(f) <= data[pos..]
    ensures Meets(FirstHit(data, pos, f.num), data, Payload(f.payload))
  {
    TagRead(f, data, pos);
    var tag := 8 * f.num + WireType(f);
    var np := pos + |EncodeVarint(tag)|;
    LengthRead(f.payload, data, np);
    HitHere(data, pos, f.num, tag, np, |f.payload|, np + |EncodeVarint(|f.payload|)|);
  }

  function TagOf(f: Field): (tag: nat)
    ensures tag / 8 == f.num && tag % 8 == WireType(f)
  {
    8 * f.num + WireType(f)
  }

  // Where the content of a field begins that begins at pos.
  function ContentAt(f: Field, pos: nat): nat {
    pos + |EncodeVarint(TagOf(f))|
  }

  lemma {:induction false} ContentSkipped(f: Field, data: seq<Byte>, pos: nat, np: nat, next: nat)
    requires FieldOk(f) && pos <= |data| < U63 && EncodeField(f) <= data[pos..]
    requires np == ContentAt(f, pos) && next == np + |Content(f)|
    ensures pos < |data| && Varint(data, pos) == Value(TagOf(f), np)
    ensures Skip(data, np, WireType(f)) == At(next) && next > np
  {
    TagRead(f, data, pos);
    SkipContent(f, data, np);
  }

  lemma {:induction false} FieldPassed(f: Field, data: seq<Byte>, pos: nat, target: nat, next: nat, h: Hit)
    requires FieldOk(f) && pos <= |data| < U63 && EncodeField(f) <= data[pos..]
    requires !(f.Bytes? && f.num == target)
    requires next == pos + |EncodeField(f)| && h == FirstHit(data, next, target)
    ensures FirstHit(data, pos, target) == h
  {
    ContentSkipped(f, data, pos, ContentAt(f, pos), next);
    PassOver(data, pos, target, TagOf(f), ContentAt(f, pos), next, h);
  }

  // The message reads, from pos to its end, as these fields.
  predicate Spells(data: seq<Byte>, pos: nat, fs: seq<Field>)
    requires pos <= |data|
    decreases |fs|
  {
    if fs == [] then pos == |data|
    else
      var e := EncodeField(fs[0]);
      FieldOk(fs[0]) && e <= data[pos..] && Spells(data, pos + |e|, fs[1..])
  }

  lemma SuffixSplits(e: seq<Byte>, rest: seq<Byte>, data: seq<Byte>, pos: nat)
    requires pos <= |data| && data[pos..] == e + rest
    ensures e <= data[pos..] && pos + |e| <= |data| && data[pos + |e|..] == rest
  {
    assert data[pos + |e|..] == data[pos..][|e|..];
  }

  lemma {:induction false} EncodedSpells(data: seq<Byte>, pos: nat, fs: seq<Field>)
    requires (forall f | f in fs :: FieldOk(f)) && pos <= |data| && data[pos..] == EncodeFields(fs)
    ensures Spells(data, pos, fs)
    decreases |fs|
  {
    if fs == [] {
      assert |data[pos..]| == 0;
    } else {
      var e, tail := EncodeField(fs[0]), fs[1..];
      SuffixSplits(e, EncodeFields(tail), data, pos);
      assert forall f | f in tail :: f in fs;
      EncodedSpells(data, pos + |e|, tail);
    }
  }

  // The walk from a field on meets that field or whatever comes after it.
  lemma {:induction false} FieldThenRest(f: Field, data: seq<Byte>, pos: nat, target: nat, next: nat, h: Hit, r: Found)
    requires FieldOk(f) && pos <= |data| < U63 && EncodeField(f) <= data[pos..]
    requires next == pos + |EncodeField(f)| && h == FirstHit(data, next, target) && Meets(h, data, r)
    ensures Meets(FirstHit(data, pos, target), data, FirstOf(f, target, r))
  {
    if f.Bytes? && f.num == target {
      FieldHit(f, data, pos);
    } else {
      FieldPassed(f, data, pos, target, next, h);
    }
  }

  lemma {:induction false} FindFromFields(fs: seq<Field>, data: seq<Byte>, pos: nat, target: nat)
    requires pos <= |data| < U63 && Spells(data, pos, fs)
    ensures Meets(FirstHit(data, pos, target), data, FirstBytes(fs, target))
    decreases |fs|
  {
    if fs == [] {
      assert pos == |data|;
    } else {
      var f, tail := fs[0], fs[1..];
      var next := pos + |EncodeField(f)|;
      var h, r := FirstHit(data, next, target), FirstBytes(tail, target);
      FindFromFields(tail, data, next, target);
      FieldThenRest(f, data, pos, target, next, h, r);
      assert FirstBytes(fs, target) == FirstOf(f, target, r);
    }
  }

  // On every encoded list of fields the walker refines the specification.
  lemma {:induction false} WalkerRefinesFieldList(fs: seq<Field>, target: nat)
    requires (forall f | f in fs :: FieldOk(f)) && |EncodeFields(fs)| < U63
    ensures Find(EncodeFields(fs), target) == FirstBytes(fs, target)
  {
    var data := EncodeFields(fs);
    assert data[0..] == data;
    EncodedSpells(data, 0, fs);
    FindFromFields(fs, data, 0, target);
    FindMeaning(data, target);
  }
}
