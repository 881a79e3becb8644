/**
 Packet captures: DNS names, libpcap records and the demo encoder they must agree with
 (src/acip/tools/pcap_parser.py, src/acip/demo_data.py).
 */
module Pcap {
  import opened Prelude

  type Byte = x: int | 0 <= x < 256

  type Bytes = seq<Byte>

  // ---------------------------------------------------------------------------------------------
  // DNS names
  // ---------------------------------------------------------------------------------------------

  /** ASCII decoding with replacement. */
  function DecodeAscii(bytes: Bytes): string {
    seq(|bytes|, i requires 0 <= i < |bytes| => if bytes[i] < 128 then bytes[i] as char else 0xFFFD as char)
  }

  /** A byte that is no ASCII character is read as the replacement character, every other one as itself. */
  lemma {:induction false} TextOfBytes(bytes: Bytes, i: nat)
    requires i < |bytes|
    ensures |DecodeAscii(bytes)| == |bytes|
    ensures DecodeAscii(bytes)[i] == if bytes[i] < 128 then bytes[i] as char else '\U{FFFD}'
  {
  }

  predicate IsAscii(text: string) {
    forall i :: 0 <= i < |text| ==> (text[i] as int) < 128
  }

  function EncodeAscii(text: string): Bytes
    requires IsAscii(text)
  {
    seq(|text|, i requires 0 <= i < |text| => text[i] as int)
  }

  function Join(labels: seq<string>): string {
    if labels == [] then ""
    else if |labels| == 1 then labels[0]
    else labels[0] + "." + Join(labels[1..])
  }

  /** `str.split(".")`: never empty, and no part contains a dot. */
  function Split(name: string): (labels: seq<string>)
    ensures labels != []
  {
    if name == "" then [""]
    else
      var rest := Split(name[1..]);
      if name[0] == '.' then [""] + rest else [[name[0]] + rest[0]] + rest[1..]
  }

  /** The labels read from `curr` on, and the offset where reading stops. */
  function ReadLabels(payload: Bytes, curr: nat): (r: (seq<string>, nat))
    decreases |payload| - curr
  {
    if curr >= |payload| then ([], curr)
    else
      var n := payload[curr];
      if n == 0 then ([], curr + 1)
      else if n >= 0xC0 then ([], curr + 2)
      else if curr + 1 + n > |payload| then ([], curr + 1)
      else
        var rest := ReadLabels(payload, curr + 1 + n);
        ([DecodeAscii(payload[curr + 1..curr + 1 + n])] + rest.0, rest.1)
  }

  method ParseDnsQname(payload: Bytes, offset: nat) returns (name: string, curr: nat)
    ensures (name, curr) == (Join(ReadLabels(payload, offset).0), ReadLabels(payload, offset).1)
  {
    var labels: seq<string> := [];
    curr := offset;
    ghost var whole := ReadLabels(payload, offset);
    while curr < |payload|
      invariant whole.0 == labels + ReadLabels(payload, curr).0 && whole.1 == ReadLabels(payload, curr).1
      decreases |payload| - curr
    {
      var labelLen := payload[curr];
      if labelLen == 0 {
        curr := curr + 1;
        assert labels + [] == labels;
        return Join(labels), curr;
      }
      if labelLen >= 0xC0 {
        curr := curr + 2;
        assert labels + [] == labels;
        return Join(labels), curr;
      }
      curr := curr + 1;
      if curr + labelLen > |payload| {
        assert labels + [] == labels;
        return Join(labels), curr;
      }
      ghost var rest := ReadLabels(payload, curr + labelLen).0;
      var text := DecodeAscii(payload[curr..curr + labelLen]);
      assert labels + ([text] + rest) == (labels + [text]) + rest;
      labels := labels + [text];
      curr := curr + labelLen;
    }
    assert labels + [] == labels;
    return Join(labels), curr;
  }

  predicate Encodable(labels: seq<string>) {
    forall i :: 0 <= i < |labels| ==> IsAscii(labels[i]) && |labels[i]| < 256
  }

  function EncodeLabels(labels: seq<string>): Bytes
    requires Encodable(labels)
  {
    if labels == [] then []
    else [|labels[0]|] + EncodeAscii(labels[0]) + EncodeLabels(labels[1..])
  }

  /** The parser reads a label of this length as a label. */
  predicate Fits(text: string) {
    1 <= |text| < 0xC0
  }

  /** The labels up to the first one the parser does not read as a label. */
  function FittingPrefix(labels: seq<string>): seq<string> {
    if labels == [] || !Fits(labels[0]) then [] else [labels[0]] + FittingPrefix(labels[1..])
  }

  /** A slice inside one part of a text does not depend on the parts around it. */
  lemma {:induction false} SliceWithin(before: Bytes, part: Bytes, after: Bytes, i: nat, j: nat)
    requires i <= j <= |part|
    ensures (before + part + after)[|before| + i..|before| + j] == part[i..j]
  {
  }

  lemma {:induction false} SliceTwice(b: Bytes, i: nat, j: nat, x: nat, y: nat)
    requires i <= j <= |b| && x <= y <= j - i
    ensures b[i..j][x..y] == b[i + x..i + y]
  {
    var left, right := b[i..j][x..y], b[i + x..i + y];
    forall k | 0 <= k < y - x
      ensures left[k] == right[k]
    {
      assert left[k] == b[i..j][x + k];
    }
  }

  lemma {:induction false} DecodeEncoded(text: string)
    requires IsAscii(text)
    ensures DecodeAscii(EncodeAscii(text)) == text
  {
  }

  /** The text stands in the payload at an offset. */
  predicate StandsAt(payload: Bytes, at: nat, text: Bytes) {
    at + |text| <= |payload| && payload[at..at + |text|] == text
  }

  lemma {:induction false} StandsInTwo(payload: Bytes, at: nat, a: Bytes, b: Bytes)
    requires StandsAt(payload, at, a + b)
    ensures StandsAt(payload, at, a) && StandsAt(payload, at + |a|, b)
  {
    var whole := payload[at..at + |a + b|];
    assert payload[at..at + |a|] == whole[..|a|] == a;
    assert payload[at + |a|..at + |a + b|] == whole[|a|..] == b;
  }

  lemma {:induction false} LabelStands(payload: Bytes, at: nat, text: string, rest: Bytes)
    requires IsAscii(text) && |text| < 256 && StandsAt(payload, at, [|text|] + (EncodeAscii(text) + rest))
    ensures at + 1 + |text| <= |payload| && payload[at] == |text|
    ensures DecodeAscii(payload[at + 1..at + 1 + |text|]) == text && StandsAt(payload, at + 1 + |text|, rest)
  {
    StandsInTwo(payload, at, [|text|], EncodeAscii(text) + rest);
    assert payload[at..at + 1][0] == payload[at];
    StandsInTwo(payload, at + 1, EncodeAscii(text), rest);
    DecodeEncoded(text);
  }

  lemma {:induction false} LabelIsRead(payload: Bytes, at: nat, text: string, rest: Bytes)
    requires IsAscii(text) && |text| < 256 && StandsAt(payload, at, [|text|] + (EncodeAscii(text) + rest))
    ensures at < |payload| && StandsAt(payload, at + 1 + |text|, rest)
    ensures var r := ReadLabels(payload, at + 1 + |text|);
            if Fits(text) then ReadLabels(payload, at) == ([text] + r.0, r.1) else ReadLabels(payload, at).0 == []
  {
    LabelStands(payload, at, text, rest);
  }

  /** All labels up to the first that does not fit, and if all fit, up to the end. */
  ghost predicate ReadsName(r: (seq<string>, nat), labels: seq<string>, end: nat) {
    r.0 == FittingPrefix(labels) && (FittingPrefix(labels) == labels ==> r.1 == end)
  }

  lemma {:induction false} ReadsOneLabel(r: (seq<string>, nat), rest: (seq<string>, nat), labels: seq<string>, end: nat)
    requires labels != [] && ReadsName(rest, labels[1..], end)
    requires if Fits(labels[0]) then r == ([labels[0]] + rest.0, rest.1) else r.0 == []
    ensures ReadsName(r, labels, end)
  {
    assert labels == [labels[0]] + labels[1..];
    assert Fits(labels[0]) ==> FittingPrefix(labels)[1..] == FittingPrefix(labels[1..]);
  }

  /** Labels standing in a payload are read up to the first that does not fit; if all fit, all are read. */
  lemma {:induction false} ReadStanding(payload: Bytes, at: nat, labels: seq<string>)
    requires Encodable(labels) && StandsAt(payload, at, EncodeLabels(labels) + [0])
    ensures ReadsName(ReadLabels(payload, at), labels, at + |EncodeLabels(labels)| + 1)
    decreases |labels|
  {
    if labels == [] {
      assert payload[at..at + 1][0] == payload[at];
    } else {
      var text, rest := labels[0], EncodeLabels(labels[1..]) + [0];
      assert EncodeLabels(labels) + [0] == [|text|] + (EncodeAscii(text) + rest);
      LabelIsRead(payload, at, text, rest);
      ReadStanding(payload, at + 1 + |text|, labels[1..]);
      ReadsOneLabel(ReadLabels(payload, at), ReadLabels(payload, at + 1 + |text|), labels,
                    at + |EncodeLabels(labels)| + 1);
    }
  }

  /** An encoded name, wherever it stands, parses back up to its first oversized or empty label. */
  lemma {:induction false} ReadEncoded(before: Bytes, labels: seq<string>, after: Bytes)
    requires Encodable(labels)
    ensures var r := ReadLabels(before + EncodeLabels(labels) + [0] + after, |before|);
            && r.0 == FittingPrefix(labels)
            && (FittingPrefix(labels) == labels ==> r.1 == |before| + |EncodeLabels(labels)| + 1)
  {
    var name := EncodeLabels(labels) + [0];
    assert before + EncodeLabels(labels) + [0] + after == before + name + after;
    SliceWithin(before, name, after, 0, |name|);
    ReadStanding(before + name + after, |before|, labels);
  }

  /** Labels as they stand in a payload, whatever bytes they hold. */
  function RawLabels(labels: seq<Bytes>): Bytes
    requires forall i :: 0 <= i < |labels| ==> 1 <= |labels[i]| < 0xC0
  {
    if labels == [] then [] else [|labels[0]|] + (labels[0] + RawLabels(labels[1..]))
  }

  function Texts(labels: seq<Bytes>): seq<string> {
    seq(|labels|, i requires 0 <= i < |labels| => DecodeAscii(labels[i]))
  }

  /** No label can be read: the payload ends, the name ends, a pointer follows, or a label runs past the end. */
  predicate NameStops(payload: Bytes, at: nat) {
    at >= |payload| || payload[at] == 0 || payload[at] >= 0xC0 || at + 1 + payload[at] > |payload|
  }

  /** Any name is read up to where it stops; a pointer takes two bytes and is not followed. */
  lemma {:induction false} RawNameIsRead(payload: Bytes, at: nat, labels: seq<Bytes>)
    requires forall i :: 0 <= i < |labels| ==> 1 <= |labels[i]| < 0xC0
    requires StandsAt(payload, at, RawLabels(labels)) && NameStops(payload, at + |RawLabels(labels)|)
    ensures var stop := at + |RawLabels(labels)|;
            ReadLabels(payload, at)
            == (Texts(labels), if stop >= |payload| then stop else if payload[stop] >= 0xC0 then stop + 2 else stop + 1)
    decreases |labels|
  {
    if labels != [] {
      var next := at + 1 + |labels[0]|;
      RawLabelStands(payload, at, labels[0], RawLabels(labels[1..]));
      RawNameIsRead(payload, next, labels[1..]);
      RawLabelIsRead(payload, at, labels[0]);
      assert Texts(labels) == [DecodeAscii(labels[0])] + Texts(labels[1..]);
    }
  }

  lemma {:induction false} RawLabelStands(payload: Bytes, at: nat, text: Bytes, rest: Bytes)
    requires |text| < 256 && StandsAt(payload, at, [|text|] + (text + rest))
    ensures at < |payload| && payload[at] == |text|
    ensures StandsAt(payload, at + 1, text) && StandsAt(payload, at + 1 + |text|, rest)
  {
    StandsInTwo(payload, at, [|text|], text + rest);
    assert payload[at..at + 1][0] == payload[at];
    StandsInTwo(payload, at + 1, text, rest);
  }

  lemma {:induction false} RawLabelIsRead(payload: Bytes, at: nat, text: Bytes)
    requires 1 <= |text| < 0xC0 && at < |payload| && payload[at] == |text| && StandsAt(payload, at + 1, text)
    ensures var rest := ReadLabels(payload, at + 1 + |text|);
            ReadLabels(payload, at) == ([DecodeAscii(text)] + rest.0, rest.1)
  {
  }

  lemma {:induction false} JoinSplit(name: string)
    ensures Join(Split(name)) == name
  {
    if name != "" {
      JoinSplit(name[1..]);
      var rest := Split(name[1..]);
      if name[0] == '.' {
        assert ([""] + rest)[1..] == rest;
      } else {
        assert ([[name[0]] + rest[0]] + rest[1..])[1..] == rest[1..];
        assert name == [name[0]] + name[1..];
      }
    }
  }

  lemma {:induction false} SplitKeepsAscii(name: string)
    requires IsAscii(name)
    ensures forall i :: 0 <= i < |Split(name)| ==> IsAscii(Split(name)[i])
  {
    if name != "" { SplitKeepsAscii(name[1..]); }
  }

  lemma {:induction false} FittingPrefixMeans(labels: seq<string>)
    ensures FittingPrefix(labels) == labels <==> forall i :: 0 <= i < |labels| ==> Fits(labels[i])
    ensures FittingPrefix(labels) <= labels
  {
    if labels != [] {
      FittingPrefixMeans(labels[1..]);
      assert labels == [labels[0]] + labels[1..];
      if Fits(labels[0]) {
        assert FittingPrefix(labels)[1..] == FittingPrefix(labels[1..]);
      }
    }
  }

  /** Joining fewer labels gives a shorter name, unless both are the empty name. */
  lemma {:induction false} JoinPrefixShorter(labels: seq<string>, k: nat)
    requires k < |labels|
    ensures |Join(labels[..k])| <= |Join(labels)|
    ensures |Join(labels[..k])| == |Join(labels)| ==> labels == [""]
  {
    if k > 0 {
      JoinPrefixShorter(labels[1..], k - 1);
      assert labels[..k][1..] == labels[1..][..k - 1];
      assert labels[..k][0] == labels[0];
    }
  }

  /** The bytes `build_demo_pcap` writes for a name, without the terminator. */
  function EncodeName(name: string): Bytes
    requires Encodable(Split(name))
  {
    EncodeLabels(Split(name))
  }

  /**
   Encoding a name and parsing it gives the name back exactly when every label has between 1 and
   191 bytes (RFC 1035, section 3.1 allows up to 63); the offset is then just past the terminator.
   */
  lemma {:induction false} NameRoundTrip(name: string, before: Bytes, after: Bytes)
    requires Encodable(Split(name))
    ensures var r := ReadLabels(before + EncodeName(name) + [0] + after, |before|);
            var fits := forall i :: 0 <= i < |Split(name)| ==> Fits(Split(name)[i]);
            && (Join(r.0) == name <==> fits || name == "")
            && (fits ==> r.1 == |before| + |EncodeName(name)| + 1)
  {
    var labels := Split(name);
    JoinSplit(name);
    ReadEncoded(before, labels, after);
    FittingPrefixMeans(labels);
    var kept := FittingPrefix(labels);
    if kept != labels {
      assert kept == labels[..|kept|];
      JoinPrefixShorter(labels, |kept|);
    }
  }

  // ---------------------------------------------------------------------------------------------
  // Record framing
  // ---------------------------------------------------------------------------------------------

  function Le32(x: int): Bytes
    requires 0 <= x < 0x1_0000_0000
  {
    [x % 256, x / 256 % 256, x / 256 / 256 % 256, x / 256 / 256 / 256]
  }

  function U32(b: Bytes, little: bool): int
    requires |b| == 4
  {
    var b0: int, b1: int, b2: int, b3: int := b[0], b[1], b[2], b[3];
    if little then b0 + 256 * (b1 + 256 * (b2 + 256 * b3)) else b3 + 256 * (b2 + 256 * (b1 + 256 * b0))
  }

  lemma {:induction false} U32OfLe32(x: int)
    requires 0 <= x < 0x1_0000_0000
    ensures U32(Le32(x), true) == x
  {
  }

  function Be32(x: int): Bytes
    requires 0 <= x < 0x1_0000_0000
  {
    [x / 256 / 256 / 256, x / 256 / 256 % 256, x / 256 % 256, x % 256]
  }

  /** A field of a record in the byte order of the capture. */
  function Word(x: int, little: bool): (b: Bytes)
    requires 0 <= x < 0x1_0000_0000
    ensures |b| == 4
  {
    if little then Le32(x) else Be32(x)
  }

  lemma {:induction false} U32OfWord(x: int, little: bool)
    requires 0 <= x < 0x1_0000_0000
    ensures U32(Word(x, little), little) == x
  {
    U32OfLe32(x);
  }

  lemma {:induction false} WordOfU32(b: Bytes, little: bool)
    requires |b| == 4
    ensures 0 <= U32(b, little) < 0x1_0000_0000 && Word(U32(b, little), little) == b
  {
    var reversed := [b[3], b[2], b[1], b[0]];
    Le32OfU32(if little then b else reversed);
    assert U32(b, false) == U32(reversed, true);
  }

  lemma {:induction false} Le32OfU32(b: Bytes)
    requires |b| == 4
    ensures 0 <= U32(b, true) < 0x1_0000_0000 && Le32(U32(b, true)) == b
  {
    var b0: int, b1: int, b2: int, b3: int := b[0], b[1], b[2], b[3];
    LowDigit(b2, b3);
    LowDigit(b1, b2 + 256 * b3);
    LowDigit(b0, b1 + 256 * (b2 + 256 * b3));
  }

  lemma {:induction false} LowDigit(digit: int, high: int)
    requires 0 <= digit < 256 && high >= 0
    ensures (digit + 256 * high) % 256 == digit && (digit + 256 * high) / 256 == high
  {
  }

  /** One captured packet with the fields of its record header. */
  datatype Packet = Packet(seconds: int, micros: int, original: int, bytes: Bytes)

  const GLOBAL_HEADER := 24

  const RECORD_HEADER := 16

  /** A record: its packet, whether the capture ends inside it, and where the next one starts. */
  datatype Record = Record(packet: Packet, cut: bool, next: nat)

  function RecordAt(data: Bytes, little: bool, offset: nat): (r: Record)
    requires offset + RECORD_HEADER <= |data|
    ensures offset + RECORD_HEADER <= r.next <= |data|
  {
    var captured := U32(data[offset + 8..offset + 12], little);
    var start := offset + RECORD_HEADER;
    var cut := start + captured > |data|;
    var end := if cut then |data| else start + captured;
    Record(Packet(U32(data[offset..offset + 4], little), U32(data[offset + 4..offset + 8], little),
                  U32(data[offset + 12..offset + 16], little), data[start..end]),
           cut, end)
  }

  /** The packets read, whether the last one was cut short, and where reading stopped. */
  datatype Capture = Capture(packets: seq<Packet>, cut: bool, end: nat)

  function ReadRecords(data: Bytes, little: bool, offset: nat, budget: nat): Capture
    decreases budget
  {
    if offset + RECORD_HEADER > |data| || budget == 0 then Capture([], false, offset)
    else
      var record := RecordAt(data, little, offset);
      var rest := ReadRecords(data, little, record.next, budget - 1);
      Capture([record.packet] + rest.packets, record.cut || rest.cut, rest.end)
  }

  /** Reads one record; a length that runs past the end is cut back, and noted. */
  method ParseRecord(data: Bytes, little: bool, start: nat) returns (packet: Packet, cut: bool, offset: nat)
    requires start + RECORD_HEADER <= |data|
    ensures Record(packet, cut, offset) == RecordAt(data, little, start)
  {
    offset, cut := start, false;
    var seconds, micros := U32(data[offset..offset + 4], little), U32(data[offset + 4..offset + 8], little);
    var captured, original := U32(data[offset + 8..offset + 12], little), U32(data[offset + 12..offset + 16], little);
    offset := offset + RECORD_HEADER;
    if offset + captured > |data| {
      cut := true;
      captured := |data| - offset;
    }
    packet := Packet(seconds, micros, original, data[offset..offset + captured]);
    offset := offset + captured;
  }

  method ParseRecords(data: Bytes, little: bool, maxPackets: nat)
    returns (packets: seq<Packet>, warned: bool, offset: nat)
    ensures Capture(packets, warned, offset) == ReadRecords(data, little, GLOBAL_HEADER, maxPackets)
    ensures |packets| <= maxPackets
  {
    packets, warned, offset := [], false, GLOBAL_HEADER;
    ghost var whole := ReadRecords(data, little, GLOBAL_HEADER, maxPackets);
    while offset + RECORD_HEADER <= |data| && |packets| < maxPackets
      invariant |packets| <= maxPackets
      invariant Continues(whole, packets, warned, ReadRecords(data, little, offset, maxPackets - |packets|))
      decreases maxPackets - |packets|
    {
      ghost var record := RecordAt(data, little, offset);
      ContinuesNext(whole, packets, warned, record, ReadRecords(data, little, record.next, maxPackets - |packets| - 1));
      var packet, cut;
      packet, cut, offset := ParseRecord(data, little, offset);
      warned := warned || cut;
      packets := packets + [packet];
    }
    assert packets + [] == packets;
  }

  /** `whole` is what has been read so far followed by `rest`. */
  ghost predicate Continues(whole: Capture, packets: seq<Packet>, warned: bool, rest: Capture) {
    whole == Capture(packets + rest.packets, warned || rest.cut, rest.end)
  }

  lemma {:induction false} ContinuesNext(whole: Capture, packets: seq<Packet>, warned: bool, record: Record,
                                         rest: Capture)
    requires Continues(whole, packets, warned,
                       Capture([record.packet] + rest.packets, record.cut || rest.cut, rest.end))
    ensures Continues(whole, packets + [record.packet], warned || record.cut, rest)
  {
    assert packets + ([record.packet] + rest.packets) == packets + [record.packet] + rest.packets;
  }

  predicate Framable(p: Packet) {
    && 0 <= p.seconds < 0x1_0000_0000 && 0 <= p.micros < 0x1_0000_0000
    && 0 <= p.original < 0x1_0000_0000 && |p.bytes| < 0x1_0000_0000
  }

  function RecordHeader(p: Packet, little: bool): (h: Bytes)
    requires Framable(p)
    ensures |h| == RECORD_HEADER
  {
    Word(p.seconds, little) + Word(p.micros, little) + Word(|p.bytes|, little) + Word(p.original, little)
  }

  function Frame(p: Packet, little: bool): Bytes
    requires Framable(p)
  {
    RecordHeader(p, little) + p.bytes
  }

  ghost predicate AllFramable(packets: seq<Packet>) {
    forall i :: 0 <= i < |packets| ==> Framable(packets[i])
  }

  /** The packets framed one behind the other. */
  ghost function Framed(packets: seq<Packet>, little: bool): Bytes
    requires AllFramable(packets)
  {
    if packets == [] then [] else Frame(packets[0], little) + Framed(packets[1..], little)
  }

  lemma {:induction false} HeaderFields(h: Bytes, p: Packet, little: bool)
    requires Framable(p) && h == RecordHeader(p, little)
    ensures U32(h[0..4], little) == p.seconds && U32(h[4..8], little) == p.micros
    ensures U32(h[8..12], little) == |p.bytes| && U32(h[12..16], little) == p.original
  {
    assert h[0..4] == Word(p.seconds, little) && h[4..8] == Word(p.micros, little);
    assert h[8..12] == Word(|p.bytes|, little) && h[12..16] == Word(p.original, little);
    U32OfWord(p.seconds, little);
    U32OfWord(p.micros, little);
    U32OfWord(|p.bytes|, little);
    U32OfWord(p.original, little);
  }

  /** A record is read with as much of its packet as is there. */
  lemma {:induction false} RecordOfHeader(data: Bytes, offset: nat, p: Packet, little: bool)
    requires Framable(p) && StandsAt(data, offset, RecordHeader(p, little))
    ensures var rest := data[offset + RECORD_HEADER..];
            var kept := Min(|p.bytes|, |rest|);
            RecordAt(data, little, offset)
            == Record(p.(bytes := rest[..kept]), |rest| < |p.bytes|, offset + RECORD_HEADER + kept)
  {
    FieldsOfHeader(data, offset, p, little);
    var start, rest := offset + RECORD_HEADER, data[offset + RECORD_HEADER..];
    var kept := Min(|p.bytes|, |rest|);
    assert data[start..start + kept] == rest[..kept];
  }

  lemma {:induction false} FieldsOfHeader(data: Bytes, offset: nat, p: Packet, little: bool)
    requires Framable(p) && StandsAt(data, offset, RecordHeader(p, little))
    ensures offset + RECORD_HEADER <= |data|
    ensures U32(data[offset..offset + 4], little) == p.seconds && U32(data[offset + 4..offset + 8], little) == p.micros
    ensures U32(data[offset + 8..offset + 12], little) == |p.bytes|
    ensures U32(data[offset + 12..offset + 16], little) == p.original
  {
    HeaderFields(data[offset..offset + RECORD_HEADER], p, little);
    SliceTwice(data, offset, offset + RECORD_HEADER, 0, 4);
    SliceTwice(data, offset, offset + RECORD_HEADER, 4, 8);
    SliceTwice(data, offset, offset + RECORD_HEADER, 8, 12);
    SliceTwice(data, offset, offset + RECORD_HEADER, 12, 16);
  }

  lemma {:induction false} RecordIsRead(data: Bytes, offset: nat, p: Packet, little: bool)
    requires Framable(p) && StandsAt(data, offset, Frame(p, little))
    ensures offset + RECORD_HEADER <= |data|
    ensures RecordAt(data, little, offset) == Record(p, false, offset + |Frame(p, little)|)
  {
    StandsInTwo(data, offset, RecordHeader(p, little), p.bytes);
    RecordOfHeader(data, offset, p, little);
    var rest := data[offset + RECORD_HEADER..];
    assert rest[..|p.bytes|] == data[offset + RECORD_HEADER..offset + RECORD_HEADER + |p.bytes|];
  }

  /** All packets, up to the budget, uncut, and to the end of the capture if the budget allows. */
  ghost predicate ReadsAll(r: Capture, packets: seq<Packet>, budget: nat, end: nat) {
    && r.packets == packets[..Min(|packets|, budget)]
    && !r.cut
    && (|packets| <= budget ==> r.end == end)
  }

  /** The packets are read first, up to the budget, and then `rest`. */
  ghost predicate ReadsThen(r: Capture, packets: seq<Packet>, budget: nat, rest: Capture) {
    if |packets| <= budget then r == Capture(packets + rest.packets, rest.cut, rest.end)
    else r.packets == packets[..budget] && !r.cut
  }

  lemma {:induction false} ReadsThenNext(r: Capture, next: Capture, packets: seq<Packet>, budget: nat, rest: Capture)
    requires packets != [] && budget > 0 && ReadsThen(next, packets[1..], budget - 1, rest)
    requires r == Capture([packets[0]] + next.packets, next.cut, next.end)
    ensures ReadsThen(r, packets, budget, rest)
  {
    assert packets == [packets[0]] + packets[1..];
    if |packets| <= budget {
      assert [packets[0]] + (packets[1..] + rest.packets) == packets + rest.packets;
    } else {
      assert [packets[0]] + packets[1..][..budget - 1] == packets[..budget];
    }
  }

  /** These packets stand one behind the other, uncut. */
  ghost predicate Standing(data: Bytes, little: bool, offset: nat, packets: seq<Packet>, end: nat)
    decreases |packets|
  {
    if packets == [] then offset == end
    else
      && offset + RECORD_HEADER <= |data|
      && var record := RecordAt(data, little, offset);
         record.packet == packets[0] && !record.cut && Standing(data, little, record.next, packets[1..], end)
  }

  lemma {:induction false} FramedInTwo(data: Bytes, offset: nat, packets: seq<Packet>, little: bool)
    requires AllFramable(packets) && packets != [] && StandsAt(data, offset, Framed(packets, little))
    ensures var frame := Frame(packets[0], little);
            && StandsAt(data, offset, frame) && StandsAt(data, offset + |frame|, Framed(packets[1..], little))
            && |Framed(packets, little)| == |frame| + |Framed(packets[1..], little)|
  {
    StandsInTwo(data, offset, Frame(packets[0], little), Framed(packets[1..], little));
  }

  lemma {:induction false} StandingNext(data: Bytes, little: bool, offset: nat, packets: seq<Packet>, next: nat,
                                        end: nat)
    requires packets != [] && offset + RECORD_HEADER <= |data|
    requires RecordAt(data, little, offset) == Record(packets[0], false, next)
    requires Standing(data, little, next, packets[1..], end)
    ensures Standing(data, little, offset, packets, end)
  {
  }

  lemma {:induction false} FramedStand(data: Bytes, offset: nat, packets: seq<Packet>, little: bool, end: nat)
    requires AllFramable(packets) && StandsAt(data, offset, Framed(packets, little))
    requires end == offset + |Framed(packets, little)|
    ensures Standing(data, little, offset, packets, end)
    decreases |packets|
  {
    if packets != [] {
      var next := offset + |Frame(packets[0], little)|;
      FramedInTwo(data, offset, packets, little);
      RecordIsRead(data, offset, packets[0], little);
      FramedStand(data, next, packets[1..], little, end);
      StandingNext(data, little, offset, packets, next, end);
    }
  }

  /** What stands behind the packets is read with what is left of the budget. */
  lemma {:induction false} ReadStandingPackets(data: Bytes, offset: nat, packets: seq<Packet>, little: bool,
                                               budget: nat, end: nat, rest: Capture)
    requires Standing(data, little, offset, packets, end)
    requires rest == ReadRecords(data, little, end, Max(0, budget - |packets|))
    ensures ReadsThen(ReadRecords(data, little, offset, budget), packets, budget, rest)
    decreases |packets|
  {
    if packets == [] {
      assert [] + rest.packets == rest.packets;
    } else if budget > 0 {
      var record := RecordAt(data, little, offset);
      ReadStandingPackets(data, record.next, packets[1..], little, budget - 1, end, rest);
      ReadsThenNext(ReadRecords(data, little, offset, budget), ReadRecords(data, little, record.next, budget - 1),
                    packets, budget, rest);
    }
  }

  /** Framing packets and reading the records back returns them, up to the budget. */
  lemma {:induction false} ReadFramed(before: Bytes, packets: seq<Packet>, little: bool, budget: nat)
    requires AllFramable(packets)
    ensures var data := before + Framed(packets, little);
            ReadsAll(ReadRecords(data, little, |before|, budget), packets, budget, |data|)
  {
    var data := before + Framed(packets, little);
    FramedStand(data, |before|, packets, little, |data|);
    ReadStandingPackets(data, |before|, packets, little, budget, |data|, Capture([], false, |data|));
    AllAreRead(ReadRecords(data, little, |before|, budget), packets, budget, |data|);
  }

  lemma {:induction false} AllAreRead(r: Capture, packets: seq<Packet>, budget: nat, end: nat)
    requires ReadsThen(r, packets, budget, Capture([], false, end))
    ensures ReadsAll(r, packets, budget, end)
  {
    assert packets + [] == packets && packets[..|packets|] == packets;
  }

  /** A capture that ends inside a packet gives what is there of it, and notes the cut. */
  lemma {:induction false} CutCapture(before: Bytes, packets: seq<Packet>, last: Packet, part: Bytes, little: bool,
                                      budget: nat)
    requires AllFramable(packets) && Framable(last) && part < last.bytes && |packets| < budget
    ensures var data := before + (Framed(packets, little) + (RecordHeader(last, little) + part));
            ReadRecords(data, little, |before|, budget) == Capture(packets + [last.(bytes := part)], true, |data|)
  {
    var framed, header := Framed(packets, little), RecordHeader(last, little);
    var data, at := before + (framed + (header + part)), |before| + |framed|;
    StandsInTwo(data, |before|, framed, header + part);
    StandsInTwo(data, at, header, part);
    FramedStand(data, |before|, packets, little, at);
    CutAfter(data, |before|, packets, at, last, part, little, budget);
  }

  lemma {:induction false} CutAfter(data: Bytes, start: nat, packets: seq<Packet>, at: nat, last: Packet, part: Bytes,
                                    little: bool, budget: nat)
    requires Standing(data, little, start, packets, at) && |packets| < budget && Framable(last) && part < last.bytes
    requires StandsAt(data, at, RecordHeader(last, little)) && StandsAt(data, at + RECORD_HEADER, part)
    requires at + RECORD_HEADER + |part| == |data|
    ensures ReadRecords(data, little, start, budget) == Capture(packets + [last.(bytes := part)], true, |data|)
  {
    LastIsCut(data, at, last, part, little, budget - |packets|);
    ReadStandingPackets(data, start, packets, little, budget, at, Capture([last.(bytes := part)], true, |data|));
  }

  lemma {:induction false} LastIsCut(data: Bytes, at: nat, last: Packet, part: Bytes, little: bool, budget: nat)
    requires Framable(last) && part < last.bytes && budget > 0
    requires StandsAt(data, at, RecordHeader(last, little)) && StandsAt(data, at + RECORD_HEADER, part)
    requires at + RECORD_HEADER + |part| == |data|
    ensures ReadRecords(data, little, at, budget) == Capture([last.(bytes := part)], true, |data|)
  {
    RecordOfHeader(data, at, last, little);
    assert data[at + RECORD_HEADER..] == part && part[..|part|] == part;
    assert [last.(bytes := part)] + [] == [last.(bytes := part)];
  }

  /** Too few bytes for another record are left unread, without a word. */
  lemma {:induction false} LeftoverIsUnread(before: Bytes, packets: seq<Packet>, little: bool, junk: Bytes,
                                            budget: nat)
    requires AllFramable(packets) && |junk| < RECORD_HEADER && |packets| <= budget
    ensures var data := before + (Framed(packets, little) + junk);
            ReadRecords(data, little, |before|, budget) == Capture(packets, false, |data| - |junk|)
  {
    var data, at := before + (Framed(packets, little) + junk), |before| + |Framed(packets, little)|;
    StandsInTwo(data, |before|, Framed(packets, little), junk);
    FramedStand(data, |before|, packets, little, at);
    ReadStandingPackets(data, |before|, packets, little, budget, at, Capture([], false, at));
    assert packets + [] == packets;
  }

  /** Conversely, what was read without a cut is exactly the bytes it was read from. */
  lemma {:induction false} FramedRead(data: Bytes, little: bool, offset: nat, budget: nat)
    requires offset <= |data|
    ensures var r := ReadRecords(data, little, offset, budget);
            && offset <= r.end <= |data|
            && AllFramable(r.packets)
            && (!r.cut ==> Framed(r.packets, little) == data[offset..r.end])
    decreases budget
  {
    if offset + RECORD_HEADER <= |data| && budget > 0 {
      var record := RecordAt(data, little, offset);
      FrameOfRecord(data, little, offset);
      FramedRead(data, little, record.next, budget - 1);
      FramedStep(data, little, offset, record, ReadRecords(data, little, record.next, budget - 1));
    }
  }

  lemma {:induction false} FramedStep(data: Bytes, little: bool, offset: nat, record: Record, rest: Capture)
    requires offset <= record.next <= rest.end <= |data|
    requires Framable(record.packet) && AllFramable(rest.packets)
    requires !record.cut ==> Frame(record.packet, little) == data[offset..record.next]
    requires !rest.cut ==> Framed(rest.packets, little) == data[record.next..rest.end]
    ensures AllFramable([record.packet] + rest.packets)
    ensures !record.cut && !rest.cut ==> Framed([record.packet] + rest.packets, little) == data[offset..rest.end]
  {
    assert ([record.packet] + rest.packets)[1..] == rest.packets;
    JoinSlices(data, offset, record.next, rest.end);
  }

  lemma {:induction false} JoinSlices(data: Bytes, a: nat, b: nat, c: nat)
    requires a <= b <= c <= |data|
    ensures data[a..b] + data[b..c] == data[a..c]
  {
  }

  lemma {:induction false} FrameOfRecord(data: Bytes, little: bool, o: nat)
    requires o + RECORD_HEADER <= |data|
    ensures var record := RecordAt(data, little, o);
            && Framable(record.packet)
            && (!record.cut ==> Frame(record.packet, little) == data[o..record.next])
  {
    var record := RecordAt(data, little, o);
    WordOfU32(data[o..o + 4], little);
    WordOfU32(data[o + 4..o + 8], little);
    WordOfU32(data[o + 8..o + 12], little);
    WordOfU32(data[o + 12..o + 16], little);
    if !record.cut {
      assert data[o..record.next] == data[o..o + 4] + data[o + 4..o + 8] + data[o + 8..o + 12] + data[o + 12..o + 16]
                                     + data[o + 16..record.next];
    }
  }

  // ---------------------------------------------------------------------------------------------
  // What is extracted from one packet
  // ---------------------------------------------------------------------------------------------

  datatype Flow = Flow(src: Bytes, dst: Bytes, srcPort: Option<int>, dstPort: Option<int>, protocol: int, size: int)

  /** A DNS query or reply; the client is the end that does not use the DNS port, as far as the target port tells. */
  datatype Lookup = Lookup(name: string, client: Bytes, server: Bytes)

  datatype Extract = Extract(flow: Option<Flow>, lookup: Option<Lookup>)

  const TCP := 6

  const UDP := 17

  const DNS_PORT := 53

  function U16(b: Bytes): int
    requires |b| == 2
  {
    var high: int, low: int := b[0], b[1];
    256 * high + low
  }

  /** A slice that, like the source's, stops at the end instead of failing. */
  function DropFront(b: Bytes, n: nat): Bytes {
    if n <= |b| then b[n..] else []
  }

  predicate IsReportedDomain(name: string) {
    '.' in name && !("in-addr" <= name)
  }

  function DomainOf(udpPayload: Bytes): Option<string> {
    if |udpPayload| < 12 || U16(udpPayload[4..6]) == 0 then None
    else
      var name := Join(ReadLabels(udpPayload, 12).0);
      if IsReportedDomain(name) then Some(name) else None
  }

  /** What the bytes behind the Ethernet header give; every read is in bounds for any bytes. */
  function DecodeIp(ip: Bytes, size: int): Extract
    requires |ip| >= 20
  {
    var headerLength := ip[0] % 16 * 4;
    var protocol := ip[9];
    var transport := DropFront(ip, headerLength);
    var hasPorts := (protocol == TCP || protocol == UDP) && |transport| >= 4;
    var srcPort := if hasPorts then Some(U16(transport[0..2])) else None;
    var dstPort := if hasPorts then Some(U16(transport[2..4])) else None;
    var isDns := protocol == UDP && (srcPort == Some(DNS_PORT) || dstPort == Some(DNS_PORT));
    var name := if isDns then DomainOf(DropFront(transport, 8)) else None;
    Extract(Some(Flow(ip[12..16], ip[16..20], srcPort, dstPort, protocol, size)),
            LookupOf(name, ip[12..16], ip[16..20], dstPort == Some(DNS_PORT)))
  }

  function LookupOf(name: Option<string>, src: Bytes, dst: Bytes, asks: bool): Option<Lookup> {
    if name.None? then None
    else Some(if asks then Lookup(name.value, src, dst) else Lookup(name.value, dst, src))
  }

  function Decode(p: Packet): Extract {
    if |p.bytes| < 14 || U16(p.bytes[12..14]) != 0x0800 || |p.bytes| < 34 then Extract(None, None)
    else DecodeIp(p.bytes[14..], p.original)
  }

  function Be16(x: int): Bytes
    requires 0 <= x < 0x1_0000
  {
    [x / 256, x % 256]
  }

  const ETHERNET: Bytes := [0, 0, 0, 0, 0, 0, 17, 17, 17, 17, 17, 17, 8, 0]

  function IpHeader(length: int, id: Byte, protocol: Byte, src: Bytes, dst: Bytes): Bytes
    requires 0 <= length < 0x1_0000 && |src| == 4 && |dst| == 4
    ensures |IpHeader(length, id, protocol, src, dst)| == 20
  {
    [0x45, 0] + Be16(length) + [0, id, 0, 0, 0x40, protocol, 0, 0] + src + dst
  }

  lemma {:induction false} IpHeaderFields(length: int, id: Byte, protocol: Byte, src: Bytes, dst: Bytes)
    requires 0 <= length < 0x1_0000 && |src| == 4 && |dst| == 4
    ensures var h := IpHeader(length, id, protocol, src, dst);
            h[0] == 0x45 && h[9] == protocol && h[12..16] == src && h[16..20] == dst
  {
  }

  function UdpHeader(srcPort: int, dstPort: int, length: int): Bytes
    requires 0 <= srcPort < 0x1_0000 && 0 <= dstPort < 0x1_0000 && 0 <= length < 0x1_0000
    ensures |UdpHeader(srcPort, dstPort, length)| == 8
  {
    Be16(srcPort) + Be16(dstPort) + Be16(length) + Be16(0)
  }

  const QUERY_HEADER: Bytes := [0x12, 0x34, 1, 0, 0, 1, 0, 0, 0, 0, 0, 0]

  const QUERY_TAIL: Bytes := [0, 1, 0, 1]

  function DnsQuery(name: string): Bytes
    requires Encodable(Split(name))
  {
    QUERY_HEADER + EncodeName(name) + [0] + QUERY_TAIL
  }

  /** The DNS packet of the demo capture, for any name that fits into one datagram. */
  function DnsPacket(name: string, src: Bytes, dst: Bytes): Bytes
    requires Encodable(Split(name)) && |src| == 4 && |dst| == 4 && 28 + |DnsQuery(name)| < 0x1_0000
  {
    ETHERNET + IpHeader(28 + |DnsQuery(name)|, 2, UDP, src, dst) + UdpHeader(52100, DNS_PORT, 8 + |DnsQuery(name)|)
    + DnsQuery(name)
  }

  /** A port as a TCP or UDP header gives it, if it is there. */
  function PortAt(protocol: Byte, transport: Bytes, i: nat): Option<int>
    requires i <= 2
  {
    if (protocol != TCP && protocol != UDP) || |transport| < 4 then None
    else var high: int, low: int := transport[i], transport[i + 1]; Some(256 * high + low)
  }

  /** An IPv4 packet, with options or without, decodes to its addresses, ports and, for DNS, what is looked up. */
  lemma {:induction false} IpPacketDecodes(p: Packet, macs: Bytes, header: Bytes, transport: Bytes)
    requires |macs| == 12 && |header| >= 20 && |header| == 4 * (header[0] % 16)
    requires p.bytes == macs + [8, 0] + header + transport
    ensures var src, dst, protocol := header[12..16], header[16..20], header[9];
            var srcPort, dstPort := PortAt(protocol, transport, 0), PortAt(protocol, transport, 2);
            && Decode(p).flow == Some(Flow(src, dst, srcPort, dstPort, protocol, p.original))
            && Decode(p).lookup
               == if protocol == UDP && (srcPort == Some(DNS_PORT) || dstPort == Some(DNS_PORT)) && |transport| >= 8
                  then LookupOf(DomainOf(transport[8..]), src, dst, dstPort == Some(DNS_PORT)) else None
  {
    var ip := header + transport;
    assert p.bytes[12..14] == [8, 0] && p.bytes[14..] == ip;
    assert ip[..|header|] == header && ip[|header|..] == transport;
    assert ip[12..16] == header[12..16] && ip[16..20] == header[16..20];
    if |transport| >= 4 {
      assert transport[0..2] == [transport[0], transport[1]] && transport[2..4] == [transport[2], transport[3]];
    }
  }

  /** Anything else gives nothing. */
  lemma {:induction false} OtherPacketDecodes(p: Packet)
    requires IsOtherFrame(p.bytes)
    ensures Decode(p) == Extract(None, None)
  {
    if |p.bytes| >= 34 {
      EtherType(p.bytes[12..14]);
    }
  }

  /** A question is reported if there is one, and its name has a dot and is not one of a reverse look-up. */
  lemma {:induction false} QuestionDecodes(lead: Bytes, count: Bytes, counts: Bytes, name: string, tail: Bytes)
    requires |lead| == 4 && |count| == 2 && |counts| == 6
    requires Encodable(Split(name)) && forall i :: 0 <= i < |Split(name)| ==> Fits(Split(name)[i])
    ensures DomainOf(lead + count + counts + EncodeName(name) + [0] + tail)
         == if count != [0, 0] && '.' in name && !("in-addr" <= name) then Some(name) else None
  {
    var payload := lead + count + counts + EncodeName(name) + [0] + tail;
    NameRoundTrip(name, lead + count + counts, tail);
    assert payload[4..6] == count;
    assert U16(count) == 0 <==> count == [0, 0];
  }

  lemma {:induction false} ShortQuestionDecodes(payload: Bytes)
    requires |payload| < 12
    ensures DomainOf(payload) == None
  {
  }

  lemma {:induction false} UdpHeaderFields(srcPort: int, dstPort: int, length: int, payload: Bytes)
    requires 0 <= srcPort < 0x1_0000 && 0 <= dstPort < 0x1_0000 && 0 <= length < 0x1_0000
    ensures var transport := UdpHeader(srcPort, dstPort, length) + payload;
            && PortAt(UDP, transport, 0) == Some(srcPort) && PortAt(UDP, transport, 2) == Some(dstPort)
            && |transport| >= 8 && transport[8..] == payload
  {
    var h := UdpHeader(srcPort, dstPort, length);
    assert h[..2] == Be16(srcPort) && h[2..4] == Be16(dstPort);
    assert h[0] == srcPort / 256 && h[1] == srcPort % 256 && h[2] == dstPort / 256 && h[3] == dstPort % 256;
  }

  lemma {:induction false} DatagramDecodes(p: Packet, src: Bytes, dst: Bytes, payload: Bytes)
    requires |src| == 4 && |dst| == 4 && 28 + |payload| < 0x1_0000
    requires p.bytes == ETHERNET + IpHeader(28 + |payload|, 2, UDP, src, dst)
             + UdpHeader(52100, DNS_PORT, 8 + |payload|) + payload
    ensures Decode(p) == Extract(Some(Flow(src, dst, Some(52100), Some(DNS_PORT), UDP, p.original)),
                                 LookupOf(DomainOf(payload), src, dst, true))
  {
    var header, udp := IpHeader(28 + |payload|, 2, UDP, src, dst), UdpHeader(52100, DNS_PORT, 8 + |payload|);
    IpHeaderFields(28 + |payload|, 2, UDP, src, dst);
    UdpHeaderFields(52100, DNS_PORT, 8 + |payload|, payload);
    assert ETHERNET == ETHERNET[..12] + [8, 0];
    assert p.bytes == ETHERNET[..12] + [8, 0] + header + (udp + payload);
    IpPacketDecodes(p, ETHERNET[..12], header, udp + payload);
  }

  lemma {:induction false} DnsQueryDecodes(name: string)
    requires Encodable(Split(name)) && forall i :: 0 <= i < |Split(name)| ==> Fits(Split(name)[i])
    ensures DomainOf(DnsQuery(name)) == if IsReportedDomain(name) then Some(name) else None
  {
    assert QUERY_HEADER == QUERY_HEADER[..4] + [0, 1] + QUERY_HEADER[6..];
    QuestionDecodes(QUERY_HEADER[..4], [0, 1], QUERY_HEADER[6..], name, QUERY_TAIL);
  }

  /** The demo's DNS packet is reported with its name and addresses. */
  lemma {:induction false} DnsPacketDecodes(p: Packet, name: string, src: Bytes, dst: Bytes)
    requires Encodable(Split(name)) && forall i :: 0 <= i < |Split(name)| ==> Fits(Split(name)[i])
    requires |src| == 4 && |dst| == 4 && 28 + |DnsQuery(name)| < 0x1_0000
    requires p.bytes == DnsPacket(name, src, dst)
    ensures Decode(p) == Extract(Some(Flow(src, dst, Some(52100), Some(DNS_PORT), UDP, p.original)),
                                 if IsReportedDomain(name) then Some(Lookup(name, src, dst)) else None)
  {
    DatagramDecodes(p, src, dst, DnsQuery(name));
    DnsQueryDecodes(name);
  }

  function TcpHeader(srcPort: int, dstPort: int): Bytes
    requires 0 <= srcPort < 0x1_0000 && 0 <= dstPort < 0x1_0000
    ensures |TcpHeader(srcPort, dstPort)| == 20
  {
    Be16(srcPort) + Be16(dstPort) + [0, 0, 3, 0xE8, 0, 0, 0, 0] + Be16(0x5000) + Be16(64240) + [0, 0, 0, 0]
  }

  /** The flow packet of the demo capture. */
  function FlowPacket(src: Bytes, dst: Bytes): Bytes
    requires |src| == 4 && |dst| == 4
    ensures |FlowPacket(src, dst)| == 54
  {
    ETHERNET + IpHeader(40, 1, TCP, src, dst) + TcpHeader(44321, 443)
  }

  /** The demo's flow packet is reported with its addresses and ports. */
  lemma {:induction false} FlowPacketDecodes(p: Packet, src: Bytes, dst: Bytes)
    requires |src| == 4 && |dst| == 4 && p.bytes == FlowPacket(src, dst)
    ensures Decode(p) == Extract(Some(Flow(src, dst, Some(44321), Some(443), TCP, p.original)), None)
  {
    var tcpHeader := TcpHeader(44321, 443);
    IpHeaderFields(40, 1, TCP, src, dst);
    assert tcpHeader[..2] == Be16(44321) && tcpHeader[2..4] == Be16(443);
    assert tcpHeader[0] == 44321 / 256 && tcpHeader[1] == 44321 % 256;
    assert tcpHeader[2] == 443 / 256 && tcpHeader[3] == 443 % 256;
    assert ETHERNET == ETHERNET[..12] + [8, 0];
    IpPacketDecodes(p, ETHERNET[..12], IpHeader(40, 1, TCP, src, dst), tcpHeader);
  }

  const RESOLVER: Bytes := [8, 8, 8, 8]

  /** A name that fits into one datagram and is read back label by label. */
  ghost predicate IsDemoName(name: string) {
    && Encodable(Split(name)) && 28 + |DnsQuery(name)| < 0x1_0000
    && forall i :: 0 <= i < |Split(name)| ==> Fits(Split(name)[i])
  }

  /** `build_demo_pcap`, for any addresses and any name: a flow, and a query for the name. */
  ghost function DemoPackets(src: Bytes, dst: Bytes, name: string): (packets: seq<Packet>)
    requires |src| == 4 && |dst| == 4 && IsDemoName(name)
    ensures AllFramable(packets) && |packets| == 2
  {
    var flow, query := FlowPacket(src, dst), DnsPacket(name, src, RESOLVER);
    [Packet(1_700_000_000, 100_000, |flow|, flow), Packet(1_700_000_005, 200_000, |query|, query)]
  }

  /** The whole demo capture reads back as its two packets, and reports the flow and the query. */
  lemma {:induction false} DemoCaptureRoundTrip(header: Bytes, src: Bytes, dst: Bytes, name: string, maxPackets: nat)
    requires |header| == GLOBAL_HEADER && |src| == 4 && |dst| == 4 && IsDemoName(name) && maxPackets >= 2
    ensures var packets := DemoPackets(src, dst, name);
            var r := ReadRecords(header + Framed(packets, true), true, GLOBAL_HEADER, maxPackets);
            && r.packets == packets && !r.cut && r.end == |header + Framed(packets, true)|
            && Decode(packets[0]) == Extract(Some(Flow(src, dst, Some(44321), Some(443), TCP, 54)), None)
            && Decode(packets[1]) == Extract(Some(Flow(src, RESOLVER, Some(52100), Some(DNS_PORT), UDP,
                                                       packets[1].original)),
                                             if IsReportedDomain(name) then Some(Lookup(name, src, RESOLVER)) else None)
  {
    var packets := DemoPackets(src, dst, name);
    ReadFramed(header, packets, true, maxPackets);
    FlowPacketDecodes(packets[0], src, dst);
    DnsPacketDecodes(packets[1], name, src, RESOLVER);
  }

  // ---------------------------------------------------------------------------------------------
  // The block loop of the pcapng parser
  // ---------------------------------------------------------------------------------------------

  /** The addresses and the protocol of one IPv4 packet. */
  datatype Endpoints = Endpoints(src: Bytes, dst: Bytes, protocol: int)

  /** A block's stated length is its length. */
  predicate IsBlock(b: Bytes) {
    |b| >= 12 && U32(b[4..8], true) == |b|
  }

  /** An enhanced packet block. */
  predicate HoldsPacket(b: Bytes) {
    |b| >= 32 && U32(b[0..4], true) == 6
  }

  /** What a block contributes: the endpoints of its packet, if the packet lies within the block and is IPv4. */
  function BlockFlows(b: Bytes): seq<Endpoints> {
    if !HoldsPacket(b) then []
    else
      var size := U32(b[20..24], true);
      if 28 + size > |b| || size < 34 || U16(b[40..42]) != 0x0800 then []
      else [Endpoints(b[54..58], b[58..62], b[51])]
  }

  function Found(b: Bytes): nat {
    if HoldsPacket(b) then 1 else 0
  }

  function BlockLength(data: Bytes, offset: nat): int
    requires offset + 8 <= |data|
  {
    U32(data[offset + 4..offset + 8], true)
  }

  /** A block starts here; a length that is too small or runs past the end is no block's. */
  predicate BlockAt(data: Bytes, offset: nat) {
    offset + 8 <= |data| && BlockLength(data, offset) >= 12 && offset + BlockLength(data, offset) <= |data|
  }

  /** The row of blocks that starts at `offset`. */
  function Blocks(data: Bytes, offset: nat): seq<Bytes>
    decreases |data| - offset
  {
    if !BlockAt(data, offset) then []
    else [data[offset..offset + BlockLength(data, offset)]] + Blocks(data, offset + BlockLength(data, offset))
  }

  /** What the entries give, in order, up to the one that uses up the budget. */
  function Within<A, B>(s: seq<A>, gives: A -> seq<B>, costs: A -> nat, budget: nat): seq<B> {
    if s == [] || budget == 0 then [] else gives(s[0]) + Within(s[1..], gives, costs, Max(0, budget - costs(s[0])))
  }

  function Cost<A>(s: seq<A>, costs: A -> nat): nat {
    if s == [] then 0 else Cost(s[1..], costs) + costs(s[0])
  }

  /** What has been given so far with what `rest` gives within the budget left, and what all of it costs. */
  ghost function Tally<A, B>(rest: seq<A>, gives: A -> seq<B>, costs: A -> nat, given: seq<B>, spent: nat, budget: nat)
    : (seq<B>, nat)
  {
    (given + Within(rest, gives, costs, Max(0, budget - spent)), spent + Cost(rest, costs))
  }

  lemma {:induction false} TallyNext<A, B>(x: A, rest: seq<A>, gives: A -> seq<B>, costs: A -> nat, given: seq<B>,
                                           spent: nat, budget: nat)
    requires spent < budget
    ensures Tally([x] + rest, gives, costs, given, spent, budget)
         == Tally(rest, gives, costs, given + gives(x), spent + costs(x), budget)
  {
    assert ([x] + rest)[1..] == rest;
    var later := Within(rest, gives, costs, Max(0, budget - spent - costs(x)));
    assert given + (gives(x) + later) == (given + gives(x)) + later;
  }

  lemma {:induction false} TallyEnd<A, B>(whole: seq<A>, rest: seq<A>, gives: A -> seq<B>, costs: A -> nat,
                                          given: seq<B>, spent: nat, budget: nat)
    requires Tally(rest, gives, costs, given, spent, budget) == Tally(whole, gives, costs, [], 0, budget)
    requires spent <= budget && (rest == [] || spent == budget)
    ensures given == Within(whole, gives, costs, budget) && spent == Min(Cost(whole, costs), budget)
  {
    assert given + [] == given && [] + Within(whole, gives, costs, budget) == Within(whole, gives, costs, budget);
  }

  method ParseBlock(b: Bytes) returns (flows: seq<Endpoints>, parsed: nat)
    ensures flows == BlockFlows(b) && parsed == Found(b)
  {
    flows, parsed := [], 0;
    if HoldsPacket(b) {
      parsed := 1;
      var size := U32(b[20..24], true);
      if 28 + size <= |b| && size >= 14 {
        var packet := b[28..28 + size];
        SliceTwice(b, 28, 28 + size, 12, 14);
        if U16(packet[12..14]) == 0x0800 && |packet| >= 34 {
          SliceTwice(b, 28, 28 + size, 26, 30);
          SliceTwice(b, 28, 28 + size, 30, 34);
          flows := flows + [Endpoints(packet[26..30], packet[30..34], packet[23])];
        }
      }
    }
  }

  /** What the walk will have found, having found `flows` in `parsed` packet blocks before `offset`. */
  ghost function Expected(data: Bytes, offset: nat, flows: seq<Endpoints>, parsed: nat, maxPackets: nat)
    : (seq<Endpoints>, nat)
  {
    Tally(Blocks(data, offset), BlockFlows, Found, flows, parsed, maxPackets)
  }

  lemma {:induction false} BlockParsed(data: Bytes, offset: nat, flows: seq<Endpoints>, parsed: nat, maxPackets: nat)
    requires BlockAt(data, offset) && parsed < maxPackets
    ensures var next := offset + BlockLength(data, offset);
            var b := data[offset..next];
            Expected(data, offset, flows, parsed, maxPackets)
            == Expected(data, next, flows + BlockFlows(b), parsed + Found(b), maxPackets)
  {
    var next := offset + BlockLength(data, offset);
    assert Blocks(data, offset) == [data[offset..next]] + Blocks(data, next);
    TallyNext(data[offset..next], Blocks(data, next), BlockFlows, Found, flows, parsed, maxPackets);
  }

  /** The body of the block loop. */
  method ParseNextBlock(data: Bytes, start: nat, flows0: seq<Endpoints>, parsed0: nat, ghost maxPackets: nat)
    returns (flows: seq<Endpoints>, packetsParsed: nat, offset: nat)
    requires BlockAt(data, start) && parsed0 < maxPackets
    ensures offset == start + BlockLength(data, start) && packetsParsed <= maxPackets
    ensures Expected(data, offset, flows, packetsParsed, maxPackets)
         == Expected(data, start, flows0, parsed0, maxPackets)
  {
    BlockParsed(data, start, flows0, parsed0, maxPackets);
    offset := start + BlockLength(data, start);
    var found, n := ParseBlock(data[start..offset]);
    flows, packetsParsed := flows0 + found, parsed0 + n;
  }

  method ParseBlocks(data: Bytes, maxPackets: nat) returns (flows: seq<Endpoints>, packetsParsed: nat)
    ensures flows == Within(Blocks(data, 0), BlockFlows, Found, maxPackets)
    ensures packetsParsed == Min(Cost(Blocks(data, 0), Found), maxPackets)
    // A row of blocks, however they are made up, gives the endpoints of its IPv4 packets.
    ensures ReportsCapture(data, maxPackets, flows, packetsParsed)
  {
    var offset := 0;
    packetsParsed, flows := 0, [];
    ghost var expected := Expected(data, 0, [], 0, maxPackets);
    while offset + 8 <= |data| && packetsParsed < maxPackets
      invariant offset <= |data| && packetsParsed <= maxPackets
      invariant Expected(data, offset, flows, packetsParsed, maxPackets) == expected
      decreases |data| - offset
    {
      var blockLength := BlockLength(data, offset);
      if blockLength < 12 || offset + blockLength > |data| {
        break;
      }
      flows, packetsParsed, offset := ParseNextBlock(data, offset, flows, packetsParsed, maxPackets);
    }
    assert packetsParsed < maxPackets ==> !BlockAt(data, offset);
    TallyEnd(Blocks(data, 0), Blocks(data, offset), BlockFlows, Found, flows, packetsParsed, maxPackets);
    WalkReports(data, maxPackets, flows, packetsParsed);
  }

  function Flatten(chunks: seq<Bytes>): Bytes {
    if chunks == [] then [] else chunks[0] + Flatten(chunks[1..])
  }

  lemma {:induction false} HeadStands(data: Bytes, offset: nat, b: Bytes, more: Bytes)
    requires offset <= |data| && data[offset..] == b + more
    ensures offset + |b| <= |data| && data[offset..offset + |b|] == b && data[offset + |b|..] == more
  {
    assert (b + more)[..|b|] == b && (b + more)[|b|..] == more;
    assert data[offset..][..|b|] == data[offset..offset + |b|];
    assert data[offset..][|b|..] == data[offset + |b|..];
  }

  /** A row of blocks, each stating its own length, is taken apart into exactly these blocks, up to what is none. */
  lemma {:induction false} TiledCapture(data: Bytes, offset: nat, blocks: seq<Bytes>, junk: Bytes)
    requires forall i :: 0 <= i < |blocks| ==> IsBlock(blocks[i])
    requires IsJunk(junk) && offset <= |data| && data[offset..] == Flatten(blocks) + junk
    ensures Blocks(data, offset) == blocks
    decreases |blocks|
  {
    if blocks == [] {
      assert [] + junk == junk;
      assert |junk| >= 8 ==> data[offset + 4..offset + 8] == data[offset..][4..8];
    } else {
      var b, more := blocks[0], Flatten(blocks[1..]) + junk;
      assert Flatten(blocks) + junk == b + more;
      HeadStands(data, offset, b, more);
      SliceTwice(data, offset, offset + |b|, 4, 8);
      assert BlockLength(data, offset) == |b|;
      TiledCapture(data, offset + |b|, blocks[1..], junk);
    }
  }

  // ---------------------------------------------------------------------------------------------
  // What a capture made up of known blocks is reported as
  // ---------------------------------------------------------------------------------------------

  /** How a block is made up: an enhanced packet block around some content, or any other block. */
  datatype BlockSpec =
    | PacketBlock(stamp: Bytes, size: int, original: Bytes, content: Bytes, tail: Bytes)
    | OtherBlock(kind: int, body: Bytes)

  predicate IsSpec(s: BlockSpec) {
    match s
    case PacketBlock(stamp, size, original, content, tail) =>
      && |stamp| == 12 && |original| == 4 && 0 <= size < 0x1_0000_0000
      && 4 <= |content| + |tail| < 0x1_0000_0000 - 28
    case OtherBlock(kind, body) =>
      && 0 <= kind < 0x1_0000_0000 && 4 <= |body| < 0x1_0000_0000 - 8
      && (kind == 6 ==> |body| < 24)
  }

  function EncodeBlock(s: BlockSpec): Bytes
    requires IsSpec(s)
  {
    match s
    case PacketBlock(stamp, size, original, content, tail) =>
      Le32(6) + Le32(28 + |content| + |tail|) + stamp + Le32(size) + original + content + tail
    case OtherBlock(kind, body) => Le32(kind) + Le32(8 + |body|) + body
  }

  /** An Ethernet frame that holds an IPv4 packet between these addresses. */
  ghost predicate IsIpv4Frame(frame: Bytes, e: Endpoints) {
    exists macs: Bytes, lead: Bytes, checksum: Bytes, rest: Bytes ::
      && |macs| == 12 && |lead| == 9 && |checksum| == 2 && |e.src| == 4 && |e.dst| == 4 && 0 <= e.protocol < 256
      && frame == macs + [8, 0] + lead + [e.protocol] + checksum + e.src + e.dst + rest
  }

  /** Too short for an IPv4 header, or marked as something else. */
  predicate IsOtherFrame(frame: Bytes) {
    |frame| < 34 || frame[12..14] != [8, 0]
  }

  /** What a block is to be reported as: the size field counts the content, or runs past the block. */
  ghost predicate Describes(s: BlockSpec, ends: Option<Endpoints>) {
    && IsSpec(s)
    && match s
       case OtherBlock(_, _) => ends.None?
       case PacketBlock(_, size, _, content, tail) =>
         if ends.Some? then size == |content| && IsIpv4Frame(content, ends.value)
         else size > |content| + |tail| || (size == |content| && IsOtherFrame(content))
  }

  ghost predicate DescribesAll(specs: seq<BlockSpec>, ends: seq<Option<Endpoints>>) {
    |specs| == |ends| && forall i :: 0 <= i < |specs| ==> Describes(specs[i], ends[i])
  }

  ghost function Encoded(specs: seq<BlockSpec>): seq<Bytes> {
    if specs == [] then []
    else (if IsSpec(specs[0]) then [EncodeBlock(specs[0])] else []) + Encoded(specs[1..])
  }

  /** No block stands at the start: too few bytes, or a stated length that is too small or runs past the end. */
  predicate IsJunk(junk: Bytes) {
    |junk| < 8 || U32(junk[4..8], true) < 12 || U32(junk[4..8], true) > |junk|
  }

  ghost function Capturing(specs: seq<BlockSpec>, junk: Bytes): Bytes {
    Flatten(Encoded(specs)) + junk
  }

  function PacketBlocks(specs: seq<BlockSpec>): nat {
    if specs == [] then 0 else PacketBlocks(specs[1..]) + if specs[0].PacketBlock? then 1 else 0
  }

  /** The endpoints of the blocks in order, up to the packet block that uses up the limit. */
  ghost function Reported(specs: seq<BlockSpec>, ends: seq<Option<Endpoints>>, maxPackets: nat): seq<Endpoints>
    requires |specs| == |ends|
  {
    if specs == [] || maxPackets == 0 then []
    else
      (if ends[0].Some? then [ends[0].value] else [])
      + Reported(specs[1..], ends[1..], if specs[0].PacketBlock? then maxPackets - 1 else maxPackets)
  }

  lemma {:induction false} EtherType(b: Bytes)
    requires |b| == 2
    ensures U16(b) == 0x0800 <==> b == [8, 0]
  {
  }

  lemma {:induction false} FrameFields(frame: Bytes, e: Endpoints)
    requires IsIpv4Frame(frame, e)
    ensures |frame| >= 34 && frame[12..14] == [8, 0] && frame[23] == e.protocol
    ensures frame[26..30] == e.src && frame[30..34] == e.dst
  {
    var macs: Bytes, lead: Bytes, checksum: Bytes, rest: Bytes :|
      && |macs| == 12 && |lead| == 9 && |checksum| == 2 && |e.src| == 4 && |e.dst| == 4 && 0 <= e.protocol < 256
      && frame == macs + [8, 0] + lead + [e.protocol] + checksum + e.src + e.dst + rest;
    FrameParts(macs, lead, e.protocol, checksum, e.src, e.dst, rest);
  }

  lemma {:induction false} FrameParts(macs: Bytes, lead: Bytes, protocol: Byte, checksum: Bytes, src: Bytes, dst: Bytes,
                                      rest: Bytes)
    requires |macs| == 12 && |lead| == 9 && |checksum| == 2 && |src| == |dst| == 4
    ensures var frame := macs + [8, 0] + lead + [protocol] + checksum + src + dst + rest;
            && |frame| >= 34 && frame[12..14] == [8, 0] && frame[23] == protocol
            && frame[26..30] == src && frame[30..34] == dst
  {
  }

  lemma {:induction false} PacketBlockFields(s: BlockSpec)
    requires IsSpec(s) && s.PacketBlock?
    ensures var b := EncodeBlock(s);
            && |b| == 28 + |s.content| + |s.tail| && b[0..4] == Le32(6) && b[4..8] == Le32(|b|)
            && b[20..24] == Le32(s.size) && b[28..28 + |s.content|] == s.content
  {
  }

  lemma {:induction false} OtherBlockFields(s: BlockSpec)
    requires IsSpec(s) && s.OtherBlock?
    ensures var b := EncodeBlock(s); |b| == 8 + |s.body| && b[0..4] == Le32(s.kind) && b[4..8] == Le32(|b|)
  {
  }

  lemma {:induction false} BlockIsReported(s: BlockSpec, ends: Option<Endpoints>)
    requires Describes(s, ends)
    ensures var b := EncodeBlock(s);
            && IsBlock(b) && BlockFlows(b) == (if ends.Some? then [ends.value] else [])
            && Found(b) == (if s.PacketBlock? then 1 else 0)
  {
    var b := EncodeBlock(s);
    if s.OtherBlock? {
      OtherBlockFields(s);
      U32OfLe32(s.kind);
      U32OfLe32(|b|);
    } else {
      PacketBlockFields(s);
      U32OfLe32(6);
      U32OfLe32(|b|);
      U32OfLe32(s.size);
      if s.size == |s.content| {
        ContentIsReported(b, s.content, ends);
      }
    }
  }

  lemma {:induction false} ContentIsReported(b: Bytes, content: Bytes, ends: Option<Endpoints>)
    requires HoldsPacket(b) && 28 + |content| <= |b| && b[28..28 + |content|] == content
    requires U32(b[20..24], true) == |content|
    requires if ends.Some? then IsIpv4Frame(content, ends.value) else IsOtherFrame(content)
    ensures BlockFlows(b) == if ends.Some? then [ends.value] else []
  {
    if |content| >= 34 {
      SliceTwice(b, 28, 28 + |content|, 12, 14);
      EtherType(b[40..42]);
      if ends.Some? {
        FrameFields(content, ends.value);
        SliceTwice(b, 28, 28 + |content|, 26, 30);
        SliceTwice(b, 28, 28 + |content|, 30, 34);
        assert b[51] == content[23];
      }
    } else if ends.Some? {
      FrameFields(content, ends.value);
    }
  }

  lemma {:induction false} EncodedHead(specs: seq<BlockSpec>, ends: seq<Option<Endpoints>>)
    requires DescribesAll(specs, ends) && specs != []
    ensures DescribesAll(specs[1..], ends[1..]) && Describes(specs[0], ends[0])
    ensures Encoded(specs) == [EncodeBlock(specs[0])] + Encoded(specs[1..])
  {
  }

  lemma {:induction false} RowOfBlocks(specs: seq<BlockSpec>, ends: seq<Option<Endpoints>>)
    requires DescribesAll(specs, ends)
    ensures forall i :: 0 <= i < |Encoded(specs)| ==> IsBlock(Encoded(specs)[i])
    ensures Cost(Encoded(specs), Found) == PacketBlocks(specs)
  {
    if specs != [] {
      EncodedHead(specs, ends);
      BlockIsReported(specs[0], ends[0]);
      RowOfBlocks(specs[1..], ends[1..]);
      assert Encoded(specs)[1..] == Encoded(specs[1..]);
    }
  }

  lemma {:induction false} RowIsReported(specs: seq<BlockSpec>, ends: seq<Option<Endpoints>>, maxPackets: nat)
    requires DescribesAll(specs, ends)
    ensures Within(Encoded(specs), BlockFlows, Found, maxPackets) == Reported(specs, ends, maxPackets)
  {
    if specs != [] && maxPackets > 0 {
      EncodedHead(specs, ends);
      BlockIsReported(specs[0], ends[0]);
      RowIsReported(specs[1..], ends[1..], if specs[0].PacketBlock? then maxPackets - 1 else maxPackets);
      WithinNext(EncodeBlock(specs[0]), Encoded(specs[1..]), BlockFlows, Found, maxPackets);
    }
  }

  lemma {:induction false} WithinNext<A, B>(x: A, rest: seq<A>, gives: A -> seq<B>, costs: A -> nat, budget: nat)
    requires budget > 0
    ensures Within([x] + rest, gives, costs, budget)
         == gives(x) + Within(rest, gives, costs, Max(0, budget - costs(x)))
  {
    assert ([x] + rest)[1..] == rest;
  }

  /** The endpoints of every IPv4 packet in the capture are reported as they stand, and nothing else. */
  lemma {:induction false} CaptureIsReported(specs: seq<BlockSpec>, ends: seq<Option<Endpoints>>, junk: Bytes,
                                             maxPackets: nat)
    requires DescribesAll(specs, ends) && IsJunk(junk)
    ensures var blocks := Blocks(Capturing(specs, junk), 0);
            && Within(blocks, BlockFlows, Found, maxPackets) == Reported(specs, ends, maxPackets)
            && Cost(blocks, Found) == PacketBlocks(specs)
  {
    RowOfBlocks(specs, ends);
    RowIsReported(specs, ends, maxPackets);
    TiledCapture(Capturing(specs, junk), 0, Encoded(specs), junk);
  }

  /** However the capture is made up of blocks, this is what they are to be reported as. */
  ghost predicate ReportsCapture(data: Bytes, maxPackets: nat, flows: seq<Endpoints>, packetsParsed: nat) {
    forall specs, ends, junk :: DescribesAll(specs, ends) && IsJunk(junk) && data == Capturing(specs, junk) ==>
      flows == Reported(specs, ends, maxPackets) && packetsParsed == Min(PacketBlocks(specs), maxPackets)
  }

  lemma {:induction false} WalkReports(data: Bytes, maxPackets: nat, flows: seq<Endpoints>, packetsParsed: nat)
    requires flows == Within(Blocks(data, 0), BlockFlows, Found, maxPackets)
    requires packetsParsed == Min(Cost(Blocks(data, 0), Found), maxPackets)
    ensures ReportsCapture(data, maxPackets, flows, packetsParsed)
  {
    forall specs, ends, junk | DescribesAll(specs, ends) && IsJunk(junk) && data == Capturing(specs, junk)
      ensures flows == Reported(specs, ends, maxPackets) && packetsParsed == Min(PacketBlocks(specs), maxPackets)
    {
      CaptureIsReported(specs, ends, junk, maxPackets);
    }
  }

  /** Any block can be made up in this way, so nothing is left open. */
  lemma {:induction false} EveryBlockIsDescribed(b: Bytes) returns (s: BlockSpec, ends: Option<Endpoints>)
    requires IsBlock(b) && |b| < 0x1_0000_0000
    ensures Describes(s, ends) && EncodeBlock(s) == b
  {
    Le32OfU32(b[0..4]);
    Le32OfU32(b[4..8]);
    if HoldsPacket(b) {
      s, ends := PacketBlockOf(b);
    } else {
      s, ends := OtherBlock(U32(b[0..4], true), b[8..]), None;
      assert b == b[0..4] + b[4..8] + b[8..];
    }
  }

  lemma {:induction false} PacketBlockOf(b: Bytes) returns (s: BlockSpec, ends: Option<Endpoints>)
    requires IsBlock(b) && |b| < 0x1_0000_0000 && HoldsPacket(b) && b[0..4] == Le32(6) && b[4..8] == Le32(|b|)
    ensures Describes(s, ends) && EncodeBlock(s) == b
  {
    var size := U32(b[20..24], true);
    Le32OfU32(b[20..24]);
    var end := if 28 + size <= |b| then 28 + size else |b|;
    var content := b[28..end];
    s := PacketBlock(b[8..20], size, b[24..28], content, b[end..]);
    PacketBlockParts(b, size, end);
    ends := EndsOf(content, end == 28 + size);
  }

  lemma {:induction false} EndsOf(content: Bytes, whole: bool) returns (ends: Option<Endpoints>)
    ensures ends.Some? ==> whole && IsIpv4Frame(content, ends.value)
    ensures ends.None? ==> !whole || IsOtherFrame(content)
  {
    if whole && !IsOtherFrame(content) {
      ends := Some(Endpoints(content[26..30], content[30..34], content[23]));
      FrameOf(content);
    } else {
      ends := None;
    }
  }

  lemma {:induction false} PacketBlockParts(b: Bytes, size: int, end: nat)
    requires 32 <= |b| < 0x1_0000_0000 && b[0..4] == Le32(6) && b[4..8] == Le32(|b|) && 28 <= end <= |b|
    requires 0 <= size < 0x1_0000_0000 && b[20..24] == Le32(size)
    ensures var s := PacketBlock(b[8..20], size, b[24..28], b[28..end], b[end..]);
            IsSpec(s) && EncodeBlock(s) == b
  {
    SevenParts(b, 8, 20, 24, 28, end);
  }

  lemma {:induction false} SevenParts(b: Bytes, i: nat, j: nat, k: nat, m: nat, n: nat)
    requires 4 <= i <= j <= k <= m <= n <= |b|
    ensures b == b[0..4] + b[4..i] + b[i..j] + b[j..k] + b[k..m] + b[m..n] + b[n..]
  {
  }

  lemma {:induction false} FrameOf(frame: Bytes)
    requires !IsOtherFrame(frame)
    ensures IsIpv4Frame(frame, Endpoints(frame[26..30], frame[30..34], frame[23]))
  {
    assert frame == frame[..12] + [8, 0] + frame[14..23] + [frame[23]] + frame[24..26] + frame[26..30] + frame[30..34]
                    + frame[34..] by {
      assert frame[12..14] == [8, 0];
      assert frame == frame[..12] + frame[12..14] + frame[14..23] + frame[23..24] + frame[24..26] + frame[26..30]
                      + frame[30..34] + frame[34..];
    }
  }
}
