/**
 The player's callbacks: NALUs get their start codes back on the way to the H.264
 decoder, and AAC units get an ADTS header that is patched in place.
 */
module VideoCtrl {
  import opened Bytes
  import opened Types
  import opened AnnexB
  import opened Crypto
  import opened VideoChannel

  // ---------------------------------------------------------------- video

  /** The bytes of a NALU once decrypted: only IDR units are, and only with a key set. */
  function Plain(n: Nalu, key: Bytes): Bytes {
    if n.kind == IDR && key != [] then Keystream(key, n.data) else n.data
  }

  function PlainAll(nalus: seq<Nalu>, key: Bytes): (r: seq<Bytes>)
    ensures |r| == |nalus|
    ensures forall i :: 0 <= i < |nalus| ==> r[i] == Plain(nalus[i], key)
  {
    seq(|nalus|, i requires 0 <= i < |nalus| => Plain(nalus[i], key))
  }

  /** IDR units go behind three-byte start codes, the others behind four-byte ones. */
  function LongCodes(nalus: seq<Nalu>): (r: seq<bool>)
    ensures |r| == |nalus|
  {
    seq(|nalus|, i requires 0 <= i < |nalus| => nalus[i].kind != IDR)
  }

  /** What the decoder has been fed after a list of NALUs. */
  function Fed(nalus: seq<Nalu>, key: Bytes): Bytes {
    Written(LongCodes(nalus), PlainAll(nalus, key))
  }

  lemma {:induction false} FedAppend(nalus: seq<Nalu>, n: Nalu, key: Bytes)
    ensures Fed(nalus + [n], key) == Fed(nalus, key) + (StartCode(n.kind != IDR) + Plain(n, key))
  {
    assert LongCodes(nalus + [n]) == LongCodes(nalus) + [n.kind != IDR];
    assert PlainAll(nalus + [n], key) == PlainAll(nalus, key) + [Plain(n, key)];
    WrittenAppend(LongCodes(nalus), PlainAll(nalus, key), n.kind != IDR, Plain(n, key));
  }

  lemma {:induction false} FedNow(before: Bytes, after: Bytes, nalus: seq<Nalu>, n: Nalu, key: Bytes)
    requires before == Fed(nalus, key)
    requires after == before + StartCode(n.kind != IDR) + Plain(n, key)
    ensures after == Fed(nalus + [n], key)
  {
    FedAppend(nalus, n, key);
  }

  /** The decoder splits what it is fed into exactly the plain units, in order. */
  lemma {:induction false} DecoderGetsUnits(nalus: seq<Nalu>, key: Bytes)
    requires forall i :: 0 <= i < |nalus| ==> WellFormedUnit(Plain(nalus[i], key))
    ensures Split(Fed(nalus, key)) == PlainAll(nalus, key)
  {
    SplitUndoesWrite(LongCodes(nalus), PlainAll(nalus, key));
  }

  function Contents(nals: seq<Nal>): (r: seq<Bytes>)
    ensures |r| == |nals|
    ensures forall i :: 0 <= i < |nals| ==> r[i] == nals[i].content
  {
    seq(|nals|, i requires 0 <= i < |nals| => nals[i].content)
  }

  /** The NALUs of the encoder's units, one by one. */
  ghost predicate AreNalusOf(out: seq<Nalu>, nals: seq<Nal>) {
    |out| == |nals| && forall i :: 0 <= i < |nals| ==> out[i] == NaluOf(nals[i])
  }

  /** Without a key, the units fed are the encoder's. */
  lemma {:induction false} ContentsDecode(out: seq<Nalu>, nals: seq<Nal>)
    requires AreNalusOf(out, nals)
    requires forall i :: 0 <= i < |nals| ==> WellFormedUnit(nals[i].content)
    ensures Split(Fed(out, [])) == Contents(nals)
  {
    assert forall i :: 0 <= i < |out| ==> Plain(out[i], []) == nals[i].content;
    DecoderGetsUnits(out, []);
    assert PlainAll(out, []) == Contents(nals);
  }

  /**
   From the encoder to the decoder: with decryption off and parameter sets in pairs, the
   decoder gets exactly the encoder's units back.
   */
  lemma {:induction false} PipelineRoundTrip(nals: seq<Nal>)
    requires Paired(nals)
    requires forall i :: 0 <= i < |nals| ==> WellFormedUnit(nals[i].content)
    ensures Split(Fed(Delivered(nals), [])) == Contents(nals)
  {
    var out := Delivered(nals);
    assert AreNalusOf(out, nals) by {
      DeliversExactlyPairs(nals);
      NaluListAt(nals);
    }
    ContentsDecode(out, nals);
  }

  /** A device that encrypts the IDR units of its stream. */
  function EncryptIdr(n: Nalu, key: Bytes): Nalu {
    if n.kind == IDR && key != [] then Nalu(IDR, Keystream(key, n.data)) else n
  }

  function EncryptAll(nalus: seq<Nalu>, key: Bytes): (r: seq<Nalu>)
    ensures |r| == |nalus|
  {
    seq(|nalus|, i requires 0 <= i < |nalus| => EncryptIdr(nalus[i], key))
  }

  /** The player undoes that encryption before the decoder sees the units. */
  lemma {:induction false} DecryptedBeforeDecoding(nalus: seq<Nalu>, key: Bytes)
    requires forall i :: 0 <= i < |nalus| ==> WellFormedUnit(nalus[i].data)
    ensures Split(Fed(EncryptAll(nalus, key), key)) == PlainAll(nalus, [])
  {
    var sent := EncryptAll(nalus, key);
    forall i | 0 <= i < |nalus|
      ensures Plain(sent[i], key) == nalus[i].data
    {
      if key != [] {
        DecryptUndoesEncrypt(key, nalus[i].data);
      }
    }
    DecoderGetsUnits(sent, key);
    assert PlainAll(sent, key) == PlainAll(nalus, []);
  }

  // ---------------------------------------------------------------- audio

  type Header = h: Bytes | |h| == 7 witness [0, 0, 0, 0, 0, 0, 0]

  /** The fields of an ADTS header (section 1.A.2.2 of ISO/IEC 14496-3). */
  datatype Adts = Adts(
    syncword: nat,
    profile: nat,
    samplingIndex: nat,
    channelConfiguration: nat,
    frameLength: nat,
    bufferFullness: nat,
    blocks: nat)

  /** The thirteen bits of the frame length. */
  function FrameLength(h: Header): nat {
    var h3: nat, h4: nat, h5: nat := h[3], h[4], h[5];
    h3 % 4 * 0x800 + h4 * 8 + h5 / 0x20
  }

  function Decode(h: Header): Adts {
    var h0: nat, h1: nat, h2: nat, h3: nat, h5: nat, h6: nat := h[0], h[1], h[2], h[3], h[5], h[6];
    Adts(h0 * 0x10 + h1 / 0x10,
         h2 / 0x40,
         h2 / 4 % 0x10,
         h2 % 2 * 4 + h3 / 0x40,
         FrameLength(h),
         h5 % 0x20 * 0x40 + h6 / 4,
         h6 % 4)
  }

  /** The header of an AAC frame of `length` bytes in a low-complexity stream. */
  function Expected(samplingIndex: nat, channels: nat, length: nat): Adts {
    Adts(0xFFF, 1, samplingIndex, channels % 8, length % 0x2000, 0x7FF, 0)
  }

  /** An AudioSpecificConfig of two bytes: object type, sampling index, channel configuration. */
  function SpecificConfig(objectType: nat, samplingIndex: nat, channels: nat): Bytes
    requires objectType < 0x20 && samplingIndex < 0x10 && channels < 0x10
  {
    [objectType * 8 + samplingIndex / 2, samplingIndex % 2 * 0x80 + channels * 8]
  }

  /** The header built from the first two bytes of an AudioSpecificConfig. */
  function HeaderFrom(b0: byte, b1: byte): Header {
    var sampleIdx := b0 % 8 * 2 + b1 / 0x80;
    var channelsIdx := b1 / 8 % 0x10;
    [0xFF, 0xF1, 0x40 + sampleIdx * 4 + channelsIdx / 4 % 2, channelsIdx % 4 * 0x40, 0x00, 0x1F, 0xFC]
  }

  /** The length of a frame of `len` bytes written into a header, on 32-bit arithmetic. */
  function Patched(h: Header, len: nat): Header {
    var allLen := (7 + len) % 0x1_0000_0000;
    h[3 := h[3] / 4 * 4 + allLen / 0x800 % 4][4 := allLen / 8 % 0x100][5 := h[5] % 0x20 + allLen % 8 * 0x20]
  }

  /** What the callback reads off a configuration. */
  lemma {:induction false} ConfigFields(objectType: nat, samplingIndex: nat, channels: nat)
    requires objectType < 0x20 && samplingIndex < 0x10 && channels < 0x10
    ensures var c := SpecificConfig(objectType, samplingIndex, channels);
            c[0] % 8 * 2 + c[1] / 0x80 == samplingIndex && c[1] / 8 % 0x10 == channels
  {
    var b: nat := samplingIndex % 2 * 0x80 + channels * 8;
    assert b / 0x80 == samplingIndex % 2;
    assert b / 8 == samplingIndex % 2 * 0x10 + channels;
  }

  /** The header the callback builds, from the fields of the configuration. */
  lemma {:induction false} HeaderIs(objectType: nat, samplingIndex: nat, channels: nat)
    requires objectType < 0x20 && samplingIndex < 0x10 && channels < 0x10
    ensures var c := SpecificConfig(objectType, samplingIndex, channels);
            HeaderFrom(c[0], c[1])
            == [0xFF, 0xF1, 0x40 + samplingIndex * 4 + channels / 4 % 2, channels % 4 * 0x40, 0x00, 0x1F, 0xFC]
  {
    ConfigFields(objectType, samplingIndex, channels);
  }

  /** The two bytes that carry the configuration, taken apart again. */
  lemma {:induction false} HeaderFields(samplingIndex: nat, channels: nat)
    requires samplingIndex < 0x10 && channels < 0x10
    ensures var h2, h3 := 0x40 + samplingIndex * 4 + channels / 4 % 2, channels % 4 * 0x40;
            && h2 / 0x40 == 1 && h2 / 4 % 0x10 == samplingIndex
            && h2 % 2 * 4 + h3 / 0x40 == channels % 8 && h3 % 4 == 0
  {
    var h2: nat, h3: nat := 0x40 + samplingIndex * 4 + channels / 4 % 2, channels % 4 * 0x40;
    assert h2 / 4 == 0x10 + samplingIndex && h2 % 2 == channels / 4 % 2;
    assert h3 / 0x40 == channels % 4;
    assert channels % 8 == channels / 4 % 2 * 4 + channels % 4;
  }

  /** AAC-LC, 44.1 kHz, stereo, and a frame of 249 bytes. */
  lemma {:induction false} HeaderExample()
    ensures SpecificConfig(2, 4, 2) == [0x12, 0x10]
    ensures HeaderFrom(0x12, 0x10) == [0xFF, 0xF1, 0x50, 0x80, 0x00, 0x1F, 0xFC]
    ensures Patched([0xFF, 0xF1, 0x50, 0x80, 0x00, 0x1F, 0xFC], 249) == [0xFF, 0xF1, 0x50, 0x80, 0x20, 0x1F, 0xFC]
  {
  }

  lemma {:induction false} DecodeBuilt(h2: byte, h3: byte)
    ensures var x2: nat, x3: nat := h2, h3;
            Decode([0xFF, 0xF1, h2, h3, 0x00, 0x1F, 0xFC])
            == Adts(0xFFF, x2 / 0x40, x2 / 4 % 0x10, x2 % 2 * 4 + x3 / 0x40, x3 % 4 * 0x800, 0x7FF, 0)
  {
    var h: Header := [0xFF, 0xF1, h2, h3, 0x00, 0x1F, 0xFC];
    assert FrameLength(h) == h3 % 4 * 0x800;
  }

  /** The first header carries the configuration, whatever its object type. */
  lemma {:induction false} HeaderDecodes(objectType: nat, samplingIndex: nat, channels: nat)
    requires objectType < 0x20 && samplingIndex < 0x10 && channels < 0x10
    ensures var c := SpecificConfig(objectType, samplingIndex, channels);
            Decode(HeaderFrom(c[0], c[1])) == Expected(samplingIndex, channels, 0)
  {
    HeaderIs(objectType, samplingIndex, channels);
    HeaderFields(samplingIndex, channels);
    DecodeBuilt(0x40 + samplingIndex * 4 + channels / 4 % 2, channels % 4 * 0x40);
  }

  lemma {:induction false} HighBitsKept(h: nat, x: nat)
    requires x < 4
    ensures (h / 4 * 4 + x) % 4 == x && (h / 4 * 4 + x) / 0x40 == h / 0x40
  {
    var high := h / 4;
    var y := high * 4 + x;
    assert y / 4 == high;
    assert y / 0x40 == high / 0x10 == h / 0x40;
  }

  lemma LowBitsKept(h: nat, y: nat)
    ensures (h % 0x20 + y * 0x20) % 0x20 == h % 0x20 && (h % 0x20 + y * 0x20) / 0x20 == y
  {
  }

  lemma SplitMod(b: nat)
    ensures b % 0x400 == b / 0x100 % 4 * 0x100 + b % 0x100
  {
  }

  lemma {:induction false} LengthFields(a: nat)
    ensures a / 0x800 % 4 * 0x800 + a / 8 % 0x100 * 8 + a % 8 == a % 0x2000
  {
    var b := a / 8;
    assert a / 0x800 == b / 0x100;
    SplitMod(b);
    assert a % 0x2000 == b % 0x400 * 8 + a % 8;
  }

  lemma WordLength(n: nat)
    ensures n % 0x1_0000_0000 % 0x2000 == n % 0x2000
  {
  }

  /** Patching a header changes its frame length only, and the old length leaves no trace. */
  lemma {:induction false} PatchDecodes(h: Header, len: nat)
    ensures Decode(Patched(h, len)) == Decode(h).(frameLength := (7 + len) % 0x2000)
  {
    var a := (7 + len) % 0x1_0000_0000;
    WordLength(7 + len);
    LengthFields(a);
    HighBitsKept(h[3], a / 0x800 % 4);
    LowBitsKept(h[5], a % 8);
  }

  datatype AudioEvent =
    | Info(objectType: nat, samplingIndex: nat, channels: nat)
    | Samples(frame: Bytes)
    | SetPlaying(on: bool)

  ghost predicate ValidEvent(e: AudioEvent) {
    e.Info? ==> e.objectType < 0x20 && e.samplingIndex < 0x10 && e.channels < 0x10
  }

  /** The header and the audio switch after a list of callbacks. */
  datatype AudioState = AudioState(header: Header, playing: bool)

  function OnEvent(s: AudioState, e: AudioEvent): AudioState
    requires ValidEvent(e)
  {
    match e
    case Info(o, f, c) => var config := SpecificConfig(o, f, c); s.(header := HeaderFrom(config[0], config[1]))
    case Samples(frame) => if s.playing then s.(header := Patched(s.header, |frame|)) else s
    case SetPlaying(on) => s.(playing := on)
  }

  function OnEvents(s: AudioState, events: seq<AudioEvent>): AudioState
    requires forall i :: 0 <= i < |events| ==> ValidEvent(events[i])
  {
    if events == [] then s
    else OnEvent(OnEvents(s, events[..|events| - 1]), events[|events| - 1])
  }

  /** The header is that of a frame of `length` bytes under this configuration. */
  predicate Carries(h: Header, samplingIndex: nat, channels: nat, length: nat) {
    Decode(h) == Expected(samplingIndex, channels, length)
  }

  /** The length of the last frame played, header included; 0 if there is none. */
  function LastPlayed(s: AudioState, events: seq<AudioEvent>): nat
    requires forall i :: 0 <= i < |events| ==> ValidEvent(events[i])
  {
    if events == [] then 0
    else
      var front, e := events[..|events| - 1], events[|events| - 1];
      if e.Samples? && OnEvents(s, front).playing then 7 + |e.frame| else LastPlayed(s, front)
  }

  lemma {:induction false} EventCarries(s: AudioState, e: AudioEvent, samplingIndex: nat, channels: nat, length: nat)
    requires ValidEvent(e) && !e.Info?
    requires Carries(s.header, samplingIndex, channels, length)
    ensures Carries(OnEvent(s, e).header, samplingIndex, channels,
                    if e.Samples? && s.playing then 7 + |e.frame| else length)
  {
    if e.Samples? {
      PatchDecodes(s.header, |e.frame|);
    }
  }

  /**
   After any callbacks that follow a configuration, the header decodes to that
   configuration with the length of the last frame played.
   */
  lemma {:induction false} HeaderTracksConfig(s: AudioState, config: AudioEvent, events: seq<AudioEvent>)
    requires config.Info? && ValidEvent(config)
    requires forall i :: 0 <= i < |events| ==> ValidEvent(events[i]) && !events[i].Info?
    ensures var started := OnEvent(s, config);
            Carries(OnEvents(started, events).header, config.samplingIndex, config.channels,
                    LastPlayed(started, events))
    decreases |events|
  {
    var started := OnEvent(s, config);
    if events == [] {
      HeaderDecodes(config.objectType, config.samplingIndex, config.channels);
    } else {
      var front, e := events[..|events| - 1], events[|events| - 1];
      HeaderTracksConfig(s, config, front);
      EventCarries(OnEvents(started, front), e, config.samplingIndex, config.channels, LastPlayed(started, front));
    }
  }

  // ---------------------------------------------------------------- the AAC stream

  /** A frame behind its ADTS header. */
  datatype AdtsUnit = AdtsUnit(header: Header, frame: Bytes)

  function AdtsBytes(units: seq<AdtsUnit>): Bytes {
    if units == [] then [] else units[0].header + units[0].frame + AdtsBytes(units[1..])
  }

  /** A decoder's reading: each header's frame length tells where the next header is. */
  function AdtsSplit(s: Bytes): seq<Bytes>
    decreases |s|
  {
    if |s| < 7 then []
    else
      var n := FrameLength(s[..7]);
      if n < 7 || n > |s| then [] else [s[7..n]] + AdtsSplit(s[n..])
  }

  predicate HasLength(u: AdtsUnit) {
    FrameLength(u.header) == (7 + |u.frame|) % 0x2000
  }

  /** The frame length of each header is its frame's, as far as its thirteen bits go. */
  predicate Framed(units: seq<AdtsUnit>) {
    forall i :: 0 <= i < |units| ==> HasLength(units[i])
  }

  function Frames(units: seq<AdtsUnit>): (r: seq<Bytes>)
    ensures |r| == |units|
    ensures forall i :: 0 <= i < |units| ==> r[i] == units[i].frame
  {
    seq(|units|, i requires 0 <= i < |units| => units[i].frame)
  }

  lemma {:induction false} AdtsBytesAppend(units: seq<AdtsUnit>, u: AdtsUnit)
    ensures AdtsBytes(units + [u]) == AdtsBytes(units) + (u.header + u.frame)
    decreases |units|
  {
    if units == [] {
      assert [u][1..] == [];
    } else {
      AdtsBytesAppend(units[1..], u);
      assert (units + [u])[1..] == units[1..] + [u];
    }
  }

  lemma {:induction false} FirstUnit(u: AdtsUnit, rest: Bytes)
    requires HasLength(u) && 7 + |u.frame| < 0x2000
    ensures AdtsSplit(u.header + u.frame + rest) == [u.frame] + AdtsSplit(rest)
  {
    var s, n := u.header + u.frame + rest, 7 + |u.frame|;
    assert s[..7] == u.header;
    assert FrameLength(s[..7]) == n;
    assert s[7..n] == u.frame && s[n..] == rest;
  }

  /** The decoder splits the stream into exactly the frames, when they fit the length field. */
  lemma {:induction false} AdtsSplitUndoesFeed(units: seq<AdtsUnit>)
    requires Framed(units)
    requires forall i :: 0 <= i < |units| ==> 7 + |units[i].frame| < 0x2000
    ensures AdtsSplit(AdtsBytes(units)) == Frames(units)
    decreases |units|
  {
    if units == [] {
    } else {
      FirstUnit(units[0], AdtsBytes(units[1..]));
      AdtsSplitUndoesFeed(units[1..]);
      assert Frames(units) == [units[0].frame] + Frames(units[1..]);
    }
  }

  lemma {:induction false} FramedAppend(units: seq<AdtsUnit>, h: Header, frame: Bytes)
    requires Framed(units)
    ensures Framed(units + [AdtsUnit(Patched(h, |frame|), frame)])
  {
    PatchDecodes(h, |frame|);
  }

  /** The stream `fed` is that of these units, each behind a header with its length. */
  predicate AudioFed(fed: Bytes, units: seq<AdtsUnit>) {
    fed == AdtsBytes(units) && Framed(units)
  }

  lemma {:induction false} AudioFedNow(before: Bytes, after: Bytes, units: seq<AdtsUnit>, h: Header, frame: Bytes)
    requires AudioFed(before, units)
    requires after == before + Patched(h, |frame|) + frame
    ensures AudioFed(after, units + [AdtsUnit(Patched(h, |frame|), frame)])
  {
    AdtsBytesAppend(units, AdtsUnit(Patched(h, |frame|), frame));
    FramedAppend(units, h, frame);
    assert after == before + (Patched(h, |frame|) + frame);
  }

  // ---------------------------------------------------------------- the player

  class VideoCtrl {
    const encryption: array<byte>
    const adtsHeader: array<byte>
    var isPlayingAudio: bool

    /** Everything the H.264 decoder has been given. */
    var videoFed: Bytes

    /** Everything the AAC decoder has been given. */
    var audioFed: Bytes

    /** The NALUs behind `videoFed`, as received. */
    ghost var received: seq<Nalu>

    /** The frames behind `audioFed`, with the headers they got. */
    ghost var played: seq<AdtsUnit>

    ghost predicate Valid()
      reads this, encryption, adtsHeader
    {
      && adtsHeader.Length == 7 && adtsHeader != encryption
      && videoFed == Fed(received, encryption[..])
      && AudioFed(audioFed, played)
    }

    constructor (encryption: array<byte>)
      ensures Valid() && fresh(adtsHeader) && this.encryption == encryption
      ensures videoFed == [] && audioFed == [] && received == [] && played == [] && !isPlayingAudio
    {
      this.encryption := encryption;
      adtsHeader := new byte[7];
      isPlayingAudio := false;
      videoFed, audioFed, received, played := [], [], [], [];
    }

    method DecryptAll(data: array<byte>)
      requires encryption.Length > 0 && data != encryption
      modifies data
      ensures data[..] == Keystream(encryption[..], old(data[..]))
    {
      assert data[..data.Length] == data[..] && encryption[..encryption.Length] == encryption[..];
      Decrypt(encryption, encryption.Length, data, data.Length);
      assert data[..data.Length] == data[..];
    }

    /** The NALU callback; IDR data is decrypted in place. */
    method OnNalu(kind: NaluType, data: array<byte>)
      requires Valid() && data != encryption && data != adtsHeader
      modifies this`videoFed, this`received, data
      ensures Valid()
      ensures received == old(received) + [Nalu(kind, old(data[..]))]
      ensures videoFed == old(videoFed)
                          + (if kind == IDR then [0x00, 0x00, 0x01] else [0x00, 0x00, 0x00, 0x01]) + data[..]
      ensures if kind == IDR && encryption.Length > 0 then data[..] == Keystream(encryption[..], old(data[..]))
              else data[..] == old(data[..])
      ensures data[..] == Plain(Nalu(kind, old(data[..])), encryption[..])
    {
      ghost var n := Nalu(kind, data[..]);
      if kind == IDR {
        videoFed := videoFed + [0x00, 0x00, 0x01];
        if encryption.Length > 0 {
          DecryptAll(data);
        }
      } else {
        videoFed := videoFed + [0x00, 0x00, 0x00, 0x01];
      }
      videoFed := videoFed + data[..];
      FedNow(old(videoFed), videoFed, old(received), n, encryption[..]);
      received := received + [n];
    }

    /** The header is built anew. */
    method BuildHeader(data: Bytes)
      requires adtsHeader.Length == 7 && |data| >= 2
      modifies adtsHeader
      ensures adtsHeader[..] == HeaderFrom(data[0], data[1])
    {
      var num0 := data[0] % 8;
      var num1 := data[1] / 0x80;
      var sampleIdx := num0 * 2 + num1;
      var channelsIdx := data[1] / 8 % 0x10;
      var temp: Bytes := [0xFF, 0xF1, 0x40, 0x00, 0x00, 0x1F, 0xFC];
      temp := temp[2 := temp[2] + sampleIdx * 4];
      temp := temp[2 := temp[2] + channelsIdx / 4 % 2];
      temp := temp[3 := temp[3] + channelsIdx % 4 * 0x40];
      forall k | 0 <= k < 7 {
        adtsHeader[k] := temp[k];
      }
      assert adtsHeader[..] == temp;
    }

    /** An AudioSpecificConfig. */
    method OnAudioInfo(data: Bytes)
      requires Valid() && |data| >= 2
      modifies adtsHeader
      ensures Valid() && adtsHeader[..] == HeaderFrom(data[0], data[1])
    {
      BuildHeader(data);
      assert encryption[..] == old(encryption[..]);
    }

    /** The length fields are cleared and set in place. */
    method PatchHeader(len: nat)
      requires adtsHeader.Length == 7
      modifies adtsHeader
      ensures adtsHeader[..] == Patched(old(adtsHeader[..]), len)
    {
      var allLen := (7 + len) % 0x1_0000_0000;
      var num0 := allLen / 0x800 % 4;
      var num1 := allLen / 8 % 0x100;
      var num2 := allLen % 8 * 0x20;
      adtsHeader[3] := adtsHeader[3] / 4 * 4;
      adtsHeader[4] := 0;
      adtsHeader[5] := adtsHeader[5] % 0x20;
      adtsHeader[3] := adtsHeader[3] + num0;
      adtsHeader[4] := adtsHeader[4] + num1;
      adtsHeader[5] := adtsHeader[5] + num2;
    }

    /** An AAC frame: the patched header and the frame are fed, unless audio is off. */
    method OnAudioData(data: Bytes)
      requires Valid()
      modifies this`audioFed, this`played, adtsHeader
      ensures Valid()
      ensures adtsHeader[..] == if isPlayingAudio then Patched(old(adtsHeader[..]), |data|) else old(adtsHeader[..])
      ensures audioFed == old(audioFed) + if isPlayingAudio then adtsHeader[..] + data else []
      ensures played == old(played) + if isPlayingAudio then [AdtsUnit(adtsHeader[..], data)] else []
    {
      if !isPlayingAudio {
        return;
      }
      PatchHeader(|data|);
      assert encryption[..] == old(encryption[..]);
      audioFed := audioFed + adtsHeader[..];
      audioFed := audioFed + data;
      AudioFedNow(old(audioFed), audioFed, played, old(adtsHeader[..]), data);
      played := played + [AdtsUnit(adtsHeader[..], data)];
    }

    /** The AAC decoder gets exactly the frames played, in order. */
    lemma {:induction false} DecoderGetsFrames()
      requires Valid()
      requires forall i :: 0 <= i < |played| ==> 7 + |played[i].frame| < 0x2000
      ensures AdtsSplit(audioFed) == Frames(played)
    {
      AdtsSplitUndoesFeed(played);
    }

    method PlayAudio()
      requires Valid()
      modifies this`isPlayingAudio
      ensures Valid() && isPlayingAudio
    {
      isPlayingAudio := true;
    }

    method StopAudio()
      requires Valid()
      modifies this`isPlayingAudio
      ensures Valid() && !isPlayingAudio
    {
      isPlayingAudio := false;
    }

    ghost function AudioNow(): AudioState
      requires adtsHeader.Length == 7
      reads this`isPlayingAudio, adtsHeader
    {
      AudioState(adtsHeader[..], isPlayingAudio)
    }

    /** One audio callback, or a press of the audio switch. */
    method OnAudio(e: AudioEvent)
      requires Valid() && ValidEvent(e)
      modifies this`isPlayingAudio, this`audioFed, this`played, adtsHeader
      ensures Valid() && AudioNow() == OnEvent(old(AudioNow()), e)
    {
      match e
      case Info(o, f, c) => OnAudioInfo(SpecificConfig(o, f, c));
      case Samples(frame) => OnAudioData(frame);
      case SetPlaying(on) =>
        if on {
          PlayAudio();
        } else {
          StopAudio();
        }
    }

    /** A configuration and what follows it: the header array decodes to it, with the last played length. */
    method OnAudioStream(config: AudioEvent, events: seq<AudioEvent>)
      requires Valid() && config.Info? && ValidEvent(config)
      requires forall i :: 0 <= i < |events| ==> ValidEvent(events[i]) && !events[i].Info?
      modifies this`isPlayingAudio, this`audioFed, this`played, adtsHeader
      ensures Valid()
      ensures var started := OnEvent(old(AudioNow()), config);
              && AudioNow() == OnEvents(started, events)
              && Carries(adtsHeader[..], config.samplingIndex, config.channels, LastPlayed(started, events))
    {
      ghost var before := AudioNow();
      OnAudio(config);
      ghost var started := AudioNow();
      assert events[..0] == [];
      for i := 0 to |events|
        invariant Valid() && AudioNow() == OnEvents(started, events[..i])
      {
        OnAudio(events[i]);
        assert events[..i + 1][..i] == events[..i];
      }
      assert events[..|events|] == events;
      HeaderTracksConfig(before, config, events);
    }
  }
}
