/**
 What the tags of a recording carry (section E.4.3 of the Adobe Flash Video File
 Format Specification, version 10.1): AVC parameter sets, one-NALU frames, AAC, script data.
 */
module FlvFormat {
  import opened Bytes
  import opened ParameterSets
  import opened FlvContainer

  const AUDIO: byte := 0x08
  const VIDEO: byte := 0x09
  const SCRIPT_DATA: byte := 0x12

  /** `flags` of the tags that hold a key frame. */
  const KEY_FRAME: byte := 0x17

  /** `flags` is the first data byte of audio and video tags. */
  datatype Body =
    | Config(flags: byte, fixed: Bytes, sps: seq<Bytes>, pps: seq<Bytes>, trailer: Bytes)
    | Frame(flags: byte, compositionTime: Bytes, nalu: Bytes)
    | Audio(flags: byte, packetType: byte, payload: Bytes)
    | Script(content: Bytes)

  datatype Tag = Tag(stamp: Bytes, body: Body)

  ghost predicate ValidBody(b: Body) {
    match b
    case Config(_, fixed, sps, pps, _) => |fixed| == 8 && ValidSets(sps) && ValidSets(pps)
    case Frame(_, time, nalu) => |time| == 3 && |nalu| < 0x1_0000_0000
    case Audio(_, _, _) => true
    case Script(_) => true
  }

  /** Byte 10 holds three reserved one bits and the SPS count; the PPS count is a whole byte. */
  function ConfigData(flags: byte, fixed: Bytes, sps: seq<Bytes>, pps: seq<Bytes>, trailer: Bytes): Bytes
    requires ValidSets(sps) && ValidSets(pps)
  {
    [flags, 0x00] + fixed + [0xE0 + |sps|] + SetBytes(sps) + [|pps|] + SetBytes(pps) + trailer
  }

  function FrameData(flags: byte, compositionTime: Bytes, nalu: Bytes): Bytes
    requires |nalu| < 0x1_0000_0000
  {
    [flags, 0x01] + compositionTime + Be32(|nalu|) + nalu
  }

  /** The DataSize bytes after the tag header. */
  function Data(b: Body): Bytes
    requires ValidBody(b)
  {
    match b
    case Config(flags, fixed, sps, pps, trailer) => ConfigData(flags, fixed, sps, pps, trailer)
    case Frame(flags, time, nalu) => FrameData(flags, time, nalu)
    case Audio(flags, packetType, payload) => [flags, packetType] + payload
    case Script(content) => content
  }

  ghost predicate ValidTag(t: Tag) {
    && |t.stamp| == 7
    && ValidBody(t.body)
    && |Data(t.body)| <= TAG_DATA_SIZE
  }

  ghost predicate ValidTags(tags: seq<Tag>) {
    forall i :: 0 <= i < |tags| ==> ValidTag(tags[i])
  }

  function Kind(b: Body): byte {
    match b
    case Config(_, _, _, _, _) => VIDEO
    case Frame(_, _, _) => VIDEO
    case Audio(_, _, _) => AUDIO
    case Script(_) => SCRIPT_DATA
  }

  function Raw(t: Tag): (r: RawTag)
    requires ValidTag(t)
    ensures ValidRaw(r)
  {
    RawTag(Kind(t.body), t.stamp, Data(t.body))
  }

  function Raws(tags: seq<Tag>): (r: seq<RawTag>)
    requires ValidTags(tags)
    ensures |r| == |tags| && ValidRaws(r)
    ensures forall i :: 0 <= i < |tags| ==> r[i] == Raw(tags[i])
  {
    seq(|tags|, i requires 0 <= i < |tags| => Raw(tags[i]))
  }

  /** Where the parts of a concatenation lie. */
  lemma Parts(head: Bytes, x: Bytes, mid: Bytes, y: Bytes, tail: Bytes)
    ensures var all, p, q := head + x + mid + y + tail, |head| + |x|, |head| + |x| + |mid|;
            && |all| == q + |y| + |tail|
            && all[..|head|] == head
            && all[|head|..p] == x
            && all[p..q] == mid
            && all[q..q + |y|] == y
  {
  }

  /** Where the two parameter-set arrays lie in a sequence header. */
  lemma {:induction false} ConfigLayout(flags: byte, fixed: Bytes, sps: seq<Bytes>, pps: seq<Bytes>, trailer: Bytes)
    requires |fixed| == 8 && ValidSets(sps) && ValidSets(pps)
    ensures var data, p := ConfigData(flags, fixed, sps, pps, trailer), 11 + |SetBytes(sps)|;
            && p + 1 + |SetBytes(pps)| + |trailer| == |data|
            && data[0] == flags && data[1] == 0
            && data[10] % 0x20 == |sps|
            && data[11..p] == SetBytes(sps)
            && data[p] % 0x20 == |pps|
            && data[p + 1..p + 1 + |SetBytes(pps)|] == SetBytes(pps)
  {
    var head := [flags, 0x00] + fixed + [0xE0 + |sps|];
    var data := ConfigData(flags, fixed, sps, pps, trailer);
    var p := 11 + |SetBytes(sps)|;
    Parts(head, SetBytes(sps), [|pps|], SetBytes(pps), trailer);
    assert data == head + SetBytes(sps) + [|pps|] + SetBytes(pps) + trailer;
    assert data[0] == data[..11][0] && data[1] == data[..11][1] && data[10] == data[..11][10];
    assert data[p] == data[p..p + 1][0];
  }

  /** Where the NALU and its length lie in a frame tag. */
  lemma {:induction false} FrameLayout(flags: byte, time: Bytes, nalu: Bytes)
    requires |time| == 3 && |nalu| < 0x1_0000_0000
    ensures var data := FrameData(flags, time, nalu);
            && |data| == 9 + |nalu|
            && data[0] == flags && data[1] == 1
            && FromBe32(data[5], data[6], data[7], data[8]) == |nalu|
            && data[9..9 + |nalu|] == nalu
  {
    BeRoundTrip32(|nalu|);
  }

  /** A buffer whose start is a sequence header with these parameter sets. */
  ghost predicate HoldsConfig(buf: Bytes, sps: seq<Bytes>, pps: seq<Bytes>) {
    && ValidSets(sps) && ValidSets(pps)
    && var p := 11 + |SetBytes(sps)|;
    && p + 1 + |SetBytes(pps)| <= |buf|
    && buf[10] % 0x20 == |sps|
    && buf[11..p] == SetBytes(sps)
    && buf[p] % 0x20 == |pps|
    && buf[p + 1..p + 1 + |SetBytes(pps)|] == SetBytes(pps)
  }

  lemma {:induction false} ConfigInBuffer(
    buf: Bytes, len: nat, flags: byte, fixed: Bytes, sps: seq<Bytes>, pps: seq<Bytes>, trailer: Bytes)
    requires |fixed| == 8 && ValidSets(sps) && ValidSets(pps)
    requires len <= |buf| && buf[..len] == ConfigData(flags, fixed, sps, pps, trailer)
    ensures HoldsConfig(buf, sps, pps) && buf[1] == 0x00
  {
    ConfigLayout(flags, fixed, sps, pps, trailer);
    var p := 11 + |SetBytes(sps)|;
    PrefixSlice(buf, len, 11, p);
    PrefixSlice(buf, len, p + 1, p + 1 + |SetBytes(pps)|);
    assert buf[1] == buf[..len][1] && buf[10] == buf[..len][10] && buf[p] == buf[..len][p];
  }

  ghost predicate HoldsFrame(buf: Bytes, flags: byte, nalu: Bytes) {
    && 9 + |nalu| <= |buf|
    && buf[0] == flags && buf[1] == 0x01
    && FromBe32(buf[5], buf[6], buf[7], buf[8]) == |nalu|
    && buf[9..9 + |nalu|] == nalu
  }

  lemma {:induction false} FrameInBuffer(buf: Bytes, len: nat, flags: byte, time: Bytes, nalu: Bytes)
    requires |time| == 3 && |nalu| < 0x1_0000_0000
    requires len <= |buf| && buf[..len] == FrameData(flags, time, nalu)
    ensures HoldsFrame(buf, flags, nalu)
  {
    FrameLayout(flags, time, nalu);
    PrefixSlice(buf, len, 9, len);
    var data := buf[..len];
    assert buf[0] == data[0] && buf[1] == data[1] && buf[5] == data[5];
    assert buf[6] == data[6] && buf[7] == data[7] && buf[8] == data[8];
  }

  ghost predicate HoldsAudio(buf: Bytes, len: nat, flags: byte, packetType: byte, payload: Bytes) {
    && len == 2 + |payload| <= |buf|
    && buf[0] == flags && buf[1] == packetType
    && buf[2..len] == payload
  }

  lemma {:induction false} AudioInBuffer(buf: Bytes, len: nat, flags: byte, packetType: byte, payload: Bytes)
    requires len <= |buf| && buf[..len] == [flags, packetType] + payload
    ensures HoldsAudio(buf, len, flags, packetType, payload)
  {
    PrefixSlice(buf, len, 2, len);
    var data := buf[..len];
    assert buf[0] == data[0] && buf[1] == data[1];
  }

  /** The first `len` bytes of a buffer are this tag's data, as the parsers read it. */
  ghost predicate Holds(buf: Bytes, len: nat, b: Body) {
    match b
    case Config(_, _, sps, pps, _) => HoldsConfig(buf, sps, pps) && buf[1] == 0x00
    case Frame(flags, _, nalu) => HoldsFrame(buf, flags, nalu)
    case Audio(flags, packetType, payload) => HoldsAudio(buf, len, flags, packetType, payload)
    case Script(_) => true
  }

  lemma {:induction false} DataInBuffer(buf: Bytes, len: nat, b: Body)
    requires ValidBody(b)
    requires len <= |buf| && buf[..len] == Data(b)
    ensures Holds(buf, len, b)
  {
    match b
    case Config(flags, fixed, sps, pps, trailer) =>
      ConfigInBuffer(buf, len, flags, fixed, sps, pps, trailer);
    case Frame(flags, time, nalu) =>
      FrameInBuffer(buf, len, flags, time, nalu);
    case Audio(flags, packetType, payload) =>
      AudioInBuffer(buf, len, flags, packetType, payload);
    case Script(_) =>
  }

  /** The bytes of small recordings: the file header, a sequence header, a key frame, an AAC frame. */
  lemma {:induction false} SampleHeader()
    ensures File(0x05, []) == [0x46, 0x4C, 0x56, 0x01, 0x05, 0x00, 0x00, 0x00, 0x09, 0x00, 0x00, 0x00, 0x00]
  {
  }

  lemma {:induction false} SampleConfig()
    ensures ConfigData(0x17, [0, 0, 0, 1, 100, 0, 30, 0xFF], [[0x67, 7]], [[0x68]], [])
            == [0x17, 0, 0, 0, 0, 1, 100, 0, 30, 0xFF] + [0xE1, 0, 2, 0x67, 7] + [1, 0, 1, 0x68]
  {
    assert SetBytes([[0x67, 7]]) == [0, 2, 0x67, 7] + SetBytes([]);
    assert SetBytes([[0x68]]) == [0, 1, 0x68] + SetBytes([]);
  }

  lemma {:induction false} SampleFrame()
    ensures FrameData(0x17, [0, 0, 0], [0x65, 1]) == [0x17, 1, 0, 0, 0, 0, 0, 0, 2, 0x65, 1]
    ensures Kind(Frame(0x17, [0, 0, 0], [0x65, 1])) == 9 && Kind(Audio(0xAF, 1, [0x21])) == 8
  {
  }

  lemma {:induction false} SampleTag()
    ensures TagBytes(RawTag(8, [0, 0, 0, 0, 0, 0, 0], [0xAF, 1, 0x21]))
            == [8, 0, 0, 3] + [0, 0, 0, 0, 0, 0, 0] + [0xAF, 1, 0x21] + [0, 0, 0, 14]
    ensures Data(Audio(0xAF, 1, [0x21])) == [0xAF, 1, 0x21]
  {
  }
}
