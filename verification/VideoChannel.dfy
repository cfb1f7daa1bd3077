/**
 The sending side of the video pipeline: YUYV frames become I420 planes for the
 encoder, and the encoder's NAL units become RTMP video packets.
 */
module VideoChannel {
  import opened Bytes
  import opened ParameterSets
  import opened FlvFormat
  import opened Types
  import opened AnnexB

  const NAL_SLICE_IDR := 5
  const NAL_SPS := 7
  const NAL_PPS := 8

  /** Room in the buffers that hold a parameter set until its pair is complete. */
  const SET_BUFFER := 100

  /** An encoder output unit: its type, and the payload with a start code of either length. */
  datatype Nal = Nal(kind: int, longCode: bool, content: Bytes) {
    function Payload(): Bytes {
      StartCode(longCode) + content
    }
  }

  predicate IsSet(n: Nal) {
    n.kind == NAL_SPS || n.kind == NAL_PPS
  }

  /** Parameter sets carry four-byte start codes and fit their buffers; lengths fit the packets. */
  predicate ValidNal(n: Nal) {
    |n.content| < 0x1_0000_0000 && (IsSet(n) ==> n.longCode && |n.content| <= SET_BUFFER)
  }

  predicate InSetBuffer(k: nat) {
    k < SET_BUFFER
  }

  /** The bytes copied for a parameter set, four fewer than its payload, stay inside the buffer. */
  predicate CopyFits(n: Nal) {
    forall k :: 0 <= k < |n.Payload()| - 4 ==> InSetBuffer(k)
  }

  /** Behind a four-byte start code a set fits exactly up to the size of the buffer. */
  lemma {:induction false} CopyFitsExactly(n: Nal)
    requires n.longCode
    ensures CopyFits(n) <==> |n.content| <= SET_BUFFER
  {
    if |n.content| > SET_BUFFER {
      assert !InSetBuffer(SET_BUFFER);
    }
  }

  /** A set that does not fit. */
  lemma {:induction false} LongSetDoesNotFit() returns (n: Nal)
    ensures n.kind == NAL_SPS && n.longCode && !CopyFits(n)
  {
    n := Nal(NAL_SPS, true, seq(SET_BUFFER + 1, _ => 0x67));
    CopyFitsExactly(n);
  }

  predicate SpsBeforePps(nals: seq<Nal>) {
    forall i :: 0 <= i < |nals| && nals[i].kind == NAL_PPS ==> exists j :: 0 <= j < i && nals[j].kind == NAL_SPS
  }

  // ---------------------------------------------------------------- what is sent

  /** One NALU for each set, in order. */
  function Nalus(kind: NaluType, sets: seq<Bytes>): (r: seq<Nalu>)
    ensures |r| == |sets|
    ensures forall i :: 0 <= i < |sets| ==> r[i] == Nalu(kind, sets[i])
  {
    seq(|sets|, i requires 0 <= i < |sets| => Nalu(kind, sets[i]))
  }

  /** The NALUs a receiver reports for a video packet body. */
  function Reported(b: Body): seq<Nalu> {
    match b
    case Config(_, _, sps, pps, _) => Nalus(SPS, sps) + Nalus(PPS, pps)
    case Frame(flags, _, nalu) => [Nalu(if flags == KEY_FRAME then IDR else OTHER, nalu)]
    case _ => []
  }

  function AllReported(bodies: seq<Body>): seq<Nalu> {
    if bodies == [] then []
    else AllReported(bodies[..|bodies| - 1]) + Reported(bodies[|bodies| - 1])
  }

  ghost predicate ValidVideo(b: Body) {
    ValidBody(b) && (b.Config? || b.Frame?)
  }

  ghost predicate SentAs(packet: Bytes, b: Body) {
    ValidVideo(b) && packet == Data(b)
  }

  /** The packet bodies `sent` are the bytes of these. */
  ghost predicate Sends(sent: seq<Bytes>, bodies: seq<Body>) {
    && |sent| == |bodies|
    && forall i {:trigger SentAs(sent[i], bodies[i])} :: 0 <= i < |sent| ==> SentAs(sent[i], bodies[i])
  }

  function NaluOf(n: Nal): Nalu {
    Nalu(if n.kind == NAL_SPS then SPS else if n.kind == NAL_PPS then PPS
         else if n.kind == NAL_SLICE_IDR then IDR else OTHER, n.content)
  }

  /** The unit types of table 7-1 of ITU-T H.264. */
  lemma {:induction false} UnitTypes(content: Bytes)
    ensures NaluOf(Nal(5, false, content)).kind == IDR && NaluOf(Nal(1, false, content)).kind == OTHER
    ensures NaluOf(Nal(7, true, content)).kind == SPS && NaluOf(Nal(8, true, content)).kind == PPS
  {
  }

  function NaluList(nals: seq<Nal>): seq<Nalu> {
    if nals == [] then [] else NaluList(nals[..|nals| - 1]) + [NaluOf(nals[|nals| - 1])]
  }

  /** The last SPS of a list. */
  function LastSps(nals: seq<Nal>): Bytes {
    if nals == [] then []
    else if nals[|nals| - 1].kind == NAL_SPS then nals[|nals| - 1].content
    else LastSps(nals[..|nals| - 1])
  }

  /** What the encoder's units amount to at the receiver: a PPS goes out with the last SPS. */
  function Delivered(nals: seq<Nal>): seq<Nalu> {
    if nals == [] then []
    else
      var front, n := nals[..|nals| - 1], nals[|nals| - 1];
      Delivered(front)
      + (if n.kind == NAL_SPS then []
         else if n.kind == NAL_PPS then [Nalu(SPS, LastSps(front)), NaluOf(n)]
         else [NaluOf(n)])
  }

  /** SPS and PPS come in adjacent pairs. */
  predicate Paired(nals: seq<Nal>) {
    && (forall i :: 0 <= i < |nals| && nals[i].kind == NAL_SPS ==> i + 1 < |nals| && nals[i + 1].kind == NAL_PPS)
    && (forall i :: 0 <= i < |nals| && nals[i].kind == NAL_PPS ==> i > 0 && nals[i - 1].kind == NAL_SPS)
  }

  /** Pairs up to the end, which may be the SPS of a pair to come. */
  predicate PairedSoFar(nals: seq<Nal>) {
    && (forall i :: 0 <= i < |nals| - 1 && nals[i].kind == NAL_SPS ==> nals[i + 1].kind == NAL_PPS)
    && (forall i :: 0 <= i < |nals| && nals[i].kind == NAL_PPS ==> i > 0 && nals[i - 1].kind == NAL_SPS)
  }

  predicate EndsWithSps(nals: seq<Nal>) {
    nals != [] && nals[|nals| - 1].kind == NAL_SPS
  }

  lemma {:induction false} PairedDelivered(nals: seq<Nal>)
    requires PairedSoFar(nals)
    ensures NaluList(nals) == Delivered(nals) + if EndsWithSps(nals) then [Nalu(SPS, LastSps(nals))] else []
    decreases |nals|
  {
    if nals == [] {
    } else {
      var front, n := nals[..|nals| - 1], nals[|nals| - 1];
      forall i | 0 <= i < |front| - 1 && front[i].kind == NAL_SPS
        ensures front[i + 1].kind == NAL_PPS
      {
        assert nals[i].kind == NAL_SPS && nals[i + 1] == front[i + 1];
      }
      PairedDelivered(front);
      if front != [] {
        assert front[|front| - 1] == nals[|front| - 1];
        assert nals[|front|] == n;
      }
    }
  }

  /** Every PPS a receiver gets directly follows an SPS, and every SPS is directly followed by a PPS. */
  predicate PairedNalus(out: seq<Nalu>) {
    && (forall i :: 0 <= i < |out| && out[i].kind == SPS ==> i + 1 < |out| && out[i + 1].kind == PPS)
    && (forall i :: 0 <= i < |out| && out[i].kind == PPS ==> i > 0 && out[i - 1].kind == SPS)
  }

  lemma PairAppended(out: seq<Nalu>, sps: Bytes, pps: Bytes)
    requires PairedNalus(out)
    ensures PairedNalus(out + [Nalu(SPS, sps), Nalu(PPS, pps)])
  {
  }

  lemma OtherAppended(out: seq<Nalu>, n: Nalu)
    requires PairedNalus(out) && n.kind != SPS && n.kind != PPS
    ensures PairedNalus(out + [n])
  {
  }

  lemma {:induction false} DeliveredIsPaired(nals: seq<Nal>)
    ensures PairedNalus(Delivered(nals))
    decreases |nals|
  {
    if nals == [] {
    } else {
      var front, n := nals[..|nals| - 1], nals[|nals| - 1];
      DeliveredIsPaired(front);
      if n.kind == NAL_PPS {
        PairAppended(Delivered(front), LastSps(front), n.content);
      } else if n.kind != NAL_SPS {
        OtherAppended(Delivered(front), NaluOf(n));
      }
    }
  }

  lemma {:induction false} NaluListAt(nals: seq<Nal>)
    ensures |NaluList(nals)| == |nals|
    ensures forall i :: 0 <= i < |nals| ==> NaluList(nals)[i] == NaluOf(nals[i])
    decreases |nals|
  {
    if nals == [] {
    } else {
      NaluListAt(nals[..|nals| - 1]);
    }
  }

  lemma {:induction false} PairedNalusPairNals(nals: seq<Nal>)
    requires PairedNalus(NaluList(nals))
    ensures Paired(nals)
  {
    NaluListAt(nals);
    var out := NaluList(nals);
    forall i | 0 <= i < |nals| && nals[i].kind == NAL_SPS
      ensures i + 1 < |nals| && nals[i + 1].kind == NAL_PPS
    {
      assert out[i].kind == SPS && out[i + 1].kind == PPS;
    }
    forall i | 0 <= i < |nals| && nals[i].kind == NAL_PPS
      ensures i > 0 && nals[i - 1].kind == NAL_SPS
    {
      assert out[i].kind == PPS && out[i - 1].kind == SPS;
    }
  }

  /**
   The receiver gets the encoder's units, all of them, in order and with their types, if
   and only if the parameter sets come in adjacent pairs.
   */
  lemma {:induction false} DeliversExactlyPairs(nals: seq<Nal>)
    ensures Delivered(nals) == NaluList(nals) <==> Paired(nals)
  {
    DeliveredIsPaired(nals);
    if Paired(nals) {
      PairedDelivered(nals);
    } else if Delivered(nals) == NaluList(nals) {
      PairedNalusPairNals(nals);
    }
  }

  predicate HasSps(nals: seq<Nal>) {
    exists j :: 0 <= j < |nals| && nals[j].kind == NAL_SPS
  }

  /** What one more unit adds. */
  lemma {:induction false} DeliveredNext(front: seq<Nal>, n: Nal)
    ensures Delivered(front + [n])
            == Delivered(front)
               + (if n.kind == NAL_SPS then []
                  else if n.kind == NAL_PPS then [Nalu(SPS, LastSps(front)), NaluOf(n)]
                  else [NaluOf(n)])
    ensures LastSps(front + [n]) == if n.kind == NAL_SPS then n.content else LastSps(front)
    ensures HasSps(front + [n]) <==> HasSps(front) || n.kind == NAL_SPS
  {
    var next := front + [n];
    assert next[..|front|] == front;
    assert next[|front|] == n;
    if HasSps(front) {
      var j :| 0 <= j < |front| && front[j].kind == NAL_SPS;
      assert next[j].kind == NAL_SPS;
    }
  }

  /** A second PPS behind one SPS: the receiver gets that SPS twice. */
  lemma {:induction false} SecondPpsRepeatsSps() returns (nals: seq<Nal>)
    ensures (forall i :: 0 <= i < |nals| ==> ValidNal(nals[i])) && SpsBeforePps(nals)
    ensures Delivered(nals) == [Nalu(SPS, [0x67]), Nalu(PPS, [0x68]), Nalu(SPS, [0x67]), Nalu(PPS, [0x69])]
    ensures Delivered(nals) != NaluList(nals)
  {
    var first, second, third := Nal(NAL_SPS, true, [0x67]), Nal(NAL_PPS, true, [0x68]), Nal(NAL_PPS, true, [0x69]);
    nals := [first, second, third];
    DeliveredNext([], first);
    DeliveredNext([first], second);
    DeliveredNext([first, second], third);
    assert [] + [first] == [first] && [first] + [second] == [first, second] && [first, second] + [third] == nals;
    NaluListAt(nals);
  }

  // ---------------------------------------------------------------- pixels

  /** Index of row `r`, column `c` in a plane with rows of `stride` elements. */
  function At(stride: nat, r: nat, c: nat): nat {
    r * stride + c
  }

  lemma {:induction false} Grows(stride: nat, a: nat, b: nat)
    requires a <= b
    ensures a * stride <= b * stride
  {
    assert (b - a) * stride >= 0;
    assert b * stride == a * stride + (b - a) * stride;
  }

  lemma {:induction false} AtRowBelow(stride: nat, r: nat, c: nat, i: nat, j: nat)
    requires c < stride && r < i
    ensures At(stride, r, c) < At(stride, i, j)
  {
    Grows(stride, r + 1, i);
    assert (r + 1) * stride == r * stride + stride;
  }

  lemma {:induction false} AtInPlane(stride: nat, rows: nat, r: nat, c: nat)
    requires r < rows && c < stride
    ensures At(stride, r, c) < stride * rows
  {
    AtRowBelow(stride, r, c, rows, 0);
  }

  /** Where a YUYV buffer has the luma byte of pixel (r, c). */
  function LumaAt(width: nat, r: nat, c: nat): nat {
    2 * At(width, r, c)
  }

  /** The pair of pixels that starts at an even column shares the U byte at +1 and the V byte at +3. */
  lemma {:induction false} PairInBuffer(width: nat, height: nat, i: nat, j: nat)
    requires i < height / 2 && j < width / 2
    ensures i * (width * 4) + j * 4 == LumaAt(width, 2 * i, 2 * j)
    ensures LumaAt(width, 2 * i, 2 * j) + 3 < 2 * (width * height)
  {
    AtInPlane(width, height, 2 * i, 2 * j + 1);
    assert i * (width * 4) == 2 * (2 * i * width);
  }

  /** `body[pos++] = b`. */
  method PutByte(body: array<byte>, pos: nat, b: byte) returns (next: nat)
    requires pos < body.Length
    modifies body
    ensures next == pos + 1 && body[..next] == old(body[..pos]) + [b]
  {
    body[pos] := b;
    next := pos + 1;
  }

  method PutBytes(body: array<byte>, pos: nat, src: Bytes) returns (next: nat)
    requires pos + |src| <= body.Length
    modifies body
    ensures next == pos + |src| && body[..next] == old(body[..pos]) + src
  {
    forall k | 0 <= k < |src| {
      body[pos + k] := src[k];
    }
    next := pos + |src|;
  }

  /** The sequence header the sender writes: one SPS, one PPS, profile bytes from the SPS buffer. */
  function SentConfig(profile: Bytes, sps: Bytes, pps: Bytes): Body {
    Config(KEY_FRAME, [0x00, 0x00, 0x00, 0x01] + profile + [0xFF], [sps], [pps], [])
  }

  function SentFrame(kind: int, unit: Bytes): Body {
    Frame(if kind == NAL_SLICE_IDR then KEY_FRAME else 0x27, [0x00, 0x00, 0x00], unit)
  }

  lemma {:induction false} SentConfigBytes(profile: Bytes, sps: Bytes, pps: Bytes)
    requires |profile| == 3 && |sps| < 0x1_0000 && |pps| < 0x1_0000
    ensures ValidVideo(SentConfig(profile, sps, pps))
    ensures Data(SentConfig(profile, sps, pps))
            == [KEY_FRAME, 0x00, 0x00, 0x00, 0x00, 0x01] + profile + [0xFF]
               + [0xE1] + Be16(|sps|) + sps + [0x01] + Be16(|pps|) + pps
  {
    assert SetBytes([sps]) == Be16(|sps|) + sps + SetBytes([]);
    assert SetBytes([pps]) == Be16(|pps|) + pps + SetBytes([]);
  }

  lemma {:induction false} PpsHasSps(nals: seq<Nal>, i: nat)
    requires i < |nals| && SpsBeforePps(nals)
    ensures nals[i].kind == NAL_PPS ==> HasSps(nals[..i])
  {
    if nals[i].kind == NAL_PPS {
      var j :| 0 <= j < i && nals[j].kind == NAL_SPS;
      assert nals[..i][j].kind == NAL_SPS;
    }
  }

  ghost function Record(sent: seq<Bytes>, before: seq<Bytes>, bodies: seq<Body>, b: Body): (more: seq<Body>)
    requires |before| <= |sent| && sent[..|before|] == before && Sends(sent[|before|..], bodies) && ValidVideo(b)
    ensures (sent + [Data(b)])[..|before|] == before
    ensures Sends((sent + [Data(b)])[|before|..], more)
    ensures AllReported(more) == AllReported(bodies) + Reported(b)
  {
    assert (bodies + [b])[..|bodies|] == bodies;
    var added := (sent + [Data(b)])[|before|..];
    assert added == sent[|before|..] + [Data(b)];
    assert forall i {:trigger SentAs(added[i], (bodies + [b])[i])} :: 0 <= i < |added| ==>
        (i < |bodies| ==> SentAs(sent[|before|..][i], bodies[i])) && SentAs(added[i], (bodies + [b])[i]);
    bodies + [b]
  }

  lemma {:induction false} SentFrameBytes(kind: int, unit: Bytes)
    requires |unit| < 0x1_0000_0000
    ensures ValidVideo(SentFrame(kind, unit))
    ensures Data(SentFrame(kind, unit))
            == [if kind == NAL_SLICE_IDR then 0x17 else 0x27, 0x01, 0x00, 0x00, 0x00] + Be32(|unit|) + unit
  {
    var flags := if kind == NAL_SLICE_IDR then KEY_FRAME else 0x27;
    assert [flags, 0x01] + [0x00, 0x00, 0x00] == [flags, 0x01, 0x00, 0x00, 0x00];
  }

  class VideoChannel {
    const width: nat
    const height: nat
    const plane0: array<byte>
    const plane1: array<byte>
    const plane2: array<byte>

    /** The bodies of the video packets handed to the sender. */
    var sent: seq<Bytes>

    ghost predicate PlanesOk() {
      && plane0.Length == width * height
      && plane1.Length == plane2.Length == (width / 2) * (height / 2)
      && plane0 != plane1 && plane0 != plane2 && plane1 != plane2
    }

    constructor (width: nat, height: nat)
      ensures PlanesOk() && sent == [] && this.width == width && this.height == height
      ensures fresh(plane0) && fresh(plane1) && fresh(plane2)
    {
      this.width, this.height := width, height;
      plane0 := new byte[width * height];
      plane1 := new byte[(width / 2) * (height / 2)];
      plane2 := new byte[(width / 2) * (height / 2)];
      sent := [];
    }

    /** Every luma byte is copied from its pixel. */
    method FillLuma(data: array<byte>)
      requires PlanesOk() && data.Length >= 2 * (width * height) && data != plane0
      modifies plane0
      ensures forall r, c :: 0 <= r < height && 0 <= c < width ==>
                At(width, r, c) < plane0.Length
                && LumaAt(width, r, c) < data.Length
                && plane0[At(width, r, c)] == data[LumaAt(width, r, c)]
    {
      for i := 0 to width * height
        invariant forall k :: 0 <= k < i ==> plane0[k] == data[2 * k]
      {
        plane0[i] := data[i * 2];
      }
      forall r, c | 0 <= r < height && 0 <= c < width
        ensures At(width, r, c) < plane0.Length
      {
        AtInPlane(width, height, r, c);
      }
    }

    ghost predicate ChromaAt(data: array<byte>, r: nat, c: nat)
      requires PlanesOk()
      reads data, plane1, plane2
    {
      var at, from := At(width / 2, r, c), LumaAt(width, 2 * r, 2 * c);
      && at < plane1.Length && from + 3 < data.Length
      && plane1[at] == data[from + 1]
      && plane2[at] == data[from + 3]
    }

    /** The U and V planes hold the chroma of rows before `i`, and of row `i` before column `j`. */
    ghost predicate ChromaUpTo(data: array<byte>, i: nat, j: nat)
      requires PlanesOk()
      reads data, plane1, plane2
    {
      forall r: nat, c: nat :: (r < i && c < width / 2) || (r == i && c < j) ==> ChromaAt(data, r, c)
    }

    /** The two assignments of the inner loop. */
    method CopyPair(data: array<byte>, i: nat, j: nat)
      requires PlanesOk() && data.Length >= 2 * (width * height) && data != plane1 && data != plane2
      requires i < height / 2 && j < width / 2
      modifies plane1, plane2
      ensures ChromaAt(data, i, j)
      ensures forall k :: 0 <= k < plane1.Length && k != At(width / 2, i, j) ==>
                plane1[k] == old(plane1[k]) && plane2[k] == old(plane2[k])
    {
      PairInBuffer(width, height, i, j);
      AtInPlane(width / 2, height / 2, i, j);
      plane1[i * (width / 2) + j] := data[i * (width * 4) + j * 4 + 1];
      plane2[i * (width / 2) + j] := data[i * (width * 4) + j * 4 + 3];
    }

    /** U(r,c) and V(r,c) come from the pair of pixels at row 2r, column 2c. */
    method FillChroma(data: array<byte>)
      requires PlanesOk() && data.Length >= 2 * (width * height) && data != plane1 && data != plane2
      modifies plane1, plane2
      ensures forall r: nat, c: nat :: r < height / 2 && c < width / 2 ==> ChromaAt(data, r, c)
    {
      for i := 0 to height / 2
        invariant ChromaUpTo(data, i, 0)
      {
        for j := 0 to width / 2
          invariant ChromaUpTo(data, i, j)
        {
          label before:
          CopyPair(data, i, j);
          forall r: nat, c: nat | (r < i && c < width / 2) || (r == i && c < j + 1)
            ensures ChromaAt(data, r, c)
          {
            if r < i {
              assert old@before(ChromaAt(data, r, c));
              AtRowBelow(width / 2, r, c, i, j);
            } else if c < j {
              assert old@before(ChromaAt(data, r, c));
            }
          }
        }
      }
    }

    method PutProfile(body: array<byte>, sps: array<byte>) returns (pos: nat)
      requires body.Length >= 10 && sps.Length == SET_BUFFER && body != sps
      modifies body
      ensures pos == 9 && body[..9] == old(body[..6]) + sps[1..4]
    {
      pos := PutByte(body, 6, sps[1]);
      pos := PutByte(body, pos, sps[2]);
      pos := PutByte(body, pos, sps[3]);
    }

    method PutHead(body: array<byte>, sps: array<byte>) returns (pos: nat)
      requires body.Length >= 10 && sps.Length == SET_BUFFER && body != sps
      modifies body
      ensures pos == 10
      ensures body[..10] == [KEY_FRAME, 0x00, 0x00, 0x00, 0x00, 0x01] + sps[1..4] + [0xFF]
    {
      pos := PutByte(body, 0, 0x17);
      pos := PutByte(body, pos, 0x00);
      pos := PutByte(body, pos, 0x00);
      pos := PutByte(body, pos, 0x00);
      pos := PutByte(body, pos, 0x00);
      pos := PutByte(body, pos, 0x01);
      assert body[..6] == [KEY_FRAME, 0x00, 0x00, 0x00, 0x00, 0x01];
      pos := PutProfile(body, sps);
      pos := PutByte(body, pos, 0xFF);
    }

    /** A count byte, a 16-bit length and the set. */
    method PutSet(body: array<byte>, from: nat, count: byte, item: Bytes) returns (pos: nat)
      requires from + 3 + |item| <= body.Length && |item| < 0x1_0000
      modifies body
      ensures pos == from + 3 + |item|
      ensures body[..pos] == old(body[..from]) + [count] + Be16(|item|) + item
    {
      pos := PutByte(body, from, count);
      pos := PutByte(body, pos, |item| / 0x100 % 0x100);
      pos := PutByte(body, pos, |item| % 0x100);
      pos := PutBytes(body, pos, item);
    }

    /** Packs a parameter-set pair; the running position ends exactly at the computed size. */
    method SendSpsPps(sps: array<byte>, spsLen: nat, pps: array<byte>, ppsLen: nat) returns (ghost b: Body)
      requires sps.Length == pps.Length == SET_BUFFER && spsLen <= SET_BUFFER && ppsLen <= SET_BUFFER
      modifies this`sent
      ensures b == SentConfig(sps[1..4], sps[..spsLen], pps[..ppsLen])
      ensures ValidVideo(b) && sent == old(sent) + [Data(b)]
      ensures Data(b) == [0x17, 0x00, 0x00, 0x00, 0x00, 0x01] + sps[1..4] + [0xFF]
                         + [0xE1] + Be16(spsLen) + sps[..spsLen] + [0x01] + Be16(ppsLen) + pps[..ppsLen]
      ensures Reported(b) == [Nalu(SPS, sps[..spsLen]), Nalu(PPS, pps[..ppsLen])]
    {
      var size := 10 + 3 + spsLen + 3 + ppsLen;
      var body := new byte[size];
      var pos := PutHead(body, sps);
      pos := PutSet(body, pos, 0xE1, sps[..spsLen]);
      pos := PutSet(body, pos, 0x01, pps[..ppsLen]);
      SentConfigBytes(sps[1..4], sps[..spsLen], pps[..ppsLen]);
      b := SentConfig(sps[1..4], sps[..spsLen], pps[..ppsLen]);
      assert pos == size && body[..] == body[..pos] == Data(b);
      sent := sent + [body[..]];
    }

    method PutLength(body: array<byte>, len: nat) returns (pos: nat)
      requires body.Length >= 9 && len < 0x1_0000_0000
      modifies body
      ensures pos == 9
      ensures body[..9] == old(body[..5]) + Be32(len)
    {
      pos := PutByte(body, 5, len / 0x100_0000 % 0x100);
      pos := PutByte(body, pos, len / 0x1_0000 % 0x100);
      pos := PutByte(body, pos, len / 0x100 % 0x100);
      pos := PutByte(body, pos, len % 0x100);
    }

    method PutFrameHead(body: array<byte>, first: byte, len: nat) returns (pos: nat)
      requires body.Length >= 9 && len < 0x1_0000_0000
      modifies body
      ensures pos == 9
      ensures body[..9] == [first, 0x01] + [0x00, 0x00, 0x00] + Be32(len)
    {
      pos := PutByte(body, 0, first);
      pos := PutByte(body, pos, 0x01);
      pos := PutByte(body, pos, 0x00);
      pos := PutByte(body, pos, 0x00);
      pos := PutByte(body, pos, 0x00);
      assert body[..5] == [first, 0x01] + [0x00, 0x00, 0x00];
      pos := PutLength(body, len);
    }

    /** Strips the start code, whatever its length, and packs the unit behind a 32-bit length. */
    method SendFrame(n: Nal) returns (ghost b: Body)
      requires |n.content| < 0x1_0000_0000
      modifies this`sent
      ensures b == SentFrame(n.kind, n.content)
      ensures Data(b) == [if n.kind == NAL_SLICE_IDR then 0x17 else 0x27, 0x01, 0x00, 0x00, 0x00]
                         + Be32(|n.content|) + n.content
      ensures ValidVideo(b) && sent == old(sent) + [Data(b)]
      ensures !IsSet(n) ==> Reported(b) == [NaluOf(n)]
    {
      var payload := n.Payload();
      payload := if payload[2] == 0x00 then payload[4..] else payload[3..];
      assert payload == n.content;
      var body := new byte[9 + |payload|];
      var pos := PutFrameHead(body, if n.kind == NAL_SLICE_IDR then 0x17 else 0x27, |payload|);
      pos := PutBytes(body, pos, payload);
      b := SentFrame(n.kind, n.content);
      SentFrameBytes(n.kind, n.content);
      assert body[..] == body[..pos] == Data(b);
      sent := sent + [body[..]];
    }

    /** Since it had sent `before`, the sender has sent these bodies. */
    ghost predicate SentSince(before: seq<Bytes>, bodies: seq<Body>)
      reads this`sent
    {
      |before| <= |sent| && sent[..|before|] == before && Sends(sent[|before|..], bodies)
    }

    method SendPair(sps: array<byte>, spsLen: nat, pps: array<byte>, ppsLen: nat,
                    ghost before: seq<Bytes>, ghost bodies: seq<Body>)
      returns (ghost more: seq<Body>)
      requires sps.Length == pps.Length == SET_BUFFER && spsLen <= SET_BUFFER && ppsLen <= SET_BUFFER
      requires SentSince(before, bodies)
      modifies this`sent
      ensures SentSince(before, more)
      ensures AllReported(more) == AllReported(bodies) + [Nalu(SPS, sps[..spsLen]), Nalu(PPS, pps[..ppsLen])]
    {
      ghost var b := SendSpsPps(sps, spsLen, pps, ppsLen);
      more := Record(old(sent), before, bodies, b);
    }

    method SendUnit(n: Nal, ghost before: seq<Bytes>, ghost bodies: seq<Body>) returns (ghost more: seq<Body>)
      requires |n.content| < 0x1_0000_0000 && !IsSet(n)
      requires SentSince(before, bodies)
      modifies this`sent
      ensures SentSince(before, more)
      ensures AllReported(more) == AllReported(bodies) + [NaluOf(n)]
    {
      ghost var b := SendFrame(n);
      more := Record(old(sent), before, bodies, b);
    }

    /** Copies a parameter set, without its four-byte start code, into its buffer. */
    method CopySet(buf: array<byte>, n: Nal)
      requires buf.Length == SET_BUFFER && ValidNal(n) && IsSet(n)
      modifies buf
      ensures buf[..|n.content|] == n.content
    {
      var payload := n.Payload();
      assert payload[4..] == n.content;
      forall k | 0 <= k < |payload| - 4 {
        buf[k] := payload[k + 4];
      }
    }

    /** Since it had sent `before`, the sender has sent what these units amount to. */
    ghost predicate SentFor(before: seq<Bytes>, bodies: seq<Body>, front: seq<Nal>)
      reads this`sent
    {
      SentSince(before, bodies) && AllReported(bodies) == Delivered(front)
    }

    /** The last SPS is in its buffer. */
    ghost predicate Buffered(sps: array<byte>, spsLen: nat, front: seq<Nal>)
      reads sps
    {
      sps.Length == SET_BUFFER && spsLen <= SET_BUFFER && (HasSps(front) ==> sps[..spsLen] == LastSps(front))
    }

    /** One turn of the dispatch loop; `spsLen` is the length of the SPS buffered last. */
    method SendNal(n: Nal, sps: array<byte>, pps: array<byte>, spsLen: nat,
                   ghost before: seq<Bytes>, ghost bodies: seq<Body>, ghost front: seq<Nal>)
      returns (newSpsLen: nat, ghost more: seq<Body>)
      requires ValidNal(n) && pps.Length == SET_BUFFER && sps != pps
      requires n.kind == NAL_PPS ==> HasSps(front)
      requires Buffered(sps, spsLen, front) && SentFor(before, bodies, front)
      modifies this`sent, sps, pps
      ensures Buffered(sps, newSpsLen, front + [n]) && SentFor(before, more, front + [n])
    {
      newSpsLen, more := spsLen, bodies;
      if n.kind == NAL_SPS {
        DeliveredNext(front, n);
        newSpsLen := |n.Payload()| - 4;
        CopySet(sps, n);
      } else if n.kind == NAL_PPS {
        var ppsLen := |n.Payload()| - 4;
        CopySet(pps, n);
        DeliveredNext(front, n);
        more := SendPair(sps, spsLen, pps, ppsLen, before, bodies);
      } else {
        DeliveredNext(front, n);
        more := SendUnit(n, before, bodies);
      }
    }

    /** The dispatch loop over the encoder's units. */
    method SendNals(nals: seq<Nal>) returns (ghost bodies: seq<Body>)
      requires (forall i :: 0 <= i < |nals| ==> ValidNal(nals[i])) && SpsBeforePps(nals)
      modifies this`sent
      ensures SentSince(old(sent), bodies)
      ensures AllReported(bodies) == Delivered(nals)
    {
      var sps, pps := new byte[SET_BUFFER], new byte[SET_BUFFER];
      var spsLen: nat := 0;
      bodies := [];
      ghost var front: seq<Nal> := [];
      for i := 0 to |nals|
        invariant front == nals[..i]
        invariant Buffered(sps, spsLen, front) && SentFor(old(sent), bodies, front)
      {
        PpsHasSps(nals, i);
        spsLen, bodies := SendNal(nals[i], sps, pps, spsLen, old(sent), bodies, front);
        front := front + [nals[i]];
      }
      assert nals[..|nals|] == nals;
    }

    /**
     Converts a frame and sends what the encoder makes of it, `nals`. A receiver of the
     new packets gets exactly `Delivered(nals)`.
     */
    method EncodeData(data: array<byte>, nals: seq<Nal>) returns (ghost bodies: seq<Body>)
      requires PlanesOk() && data.Length >= 2 * (width * height)
      requires data != plane0 && data != plane1 && data != plane2
      requires (forall i :: 0 <= i < |nals| ==> ValidNal(nals[i])) && SpsBeforePps(nals)
      modifies this`sent, plane0, plane1, plane2
      ensures forall r, c :: 0 <= r < height && 0 <= c < width ==>
                At(width, r, c) < plane0.Length
                && LumaAt(width, r, c) < data.Length
                && plane0[At(width, r, c)] == data[LumaAt(width, r, c)]
      ensures forall r: nat, c: nat :: r < height / 2 && c < width / 2 ==> ChromaAt(data, r, c)
      ensures SentSince(old(sent), bodies)
      ensures AllReported(bodies) == Delivered(nals)
    {
      FillLuma(data);
      FillChroma(data);
      bodies := SendNals(nals);
    }
  }
}
