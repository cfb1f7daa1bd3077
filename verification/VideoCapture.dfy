/** The receiving side: RTMP packets parsed into NALUs and audio units. */
module VideoCapture {
  import opened Bytes
  import opened ParameterSets
  import opened FlvFormat
  import opened Types
  import opened VideoChannel

  /** One call of the audio callback. */
  datatype AudioUnit = AudioUnit(info: AudioType, channels: ChannelType, samples: Bytes)

  function AudioReported(b: Body): seq<AudioUnit> {
    match b
    case Audio(flags, packetType, payload) =>
      [AudioUnit(if packetType == 0 then AUDIO_INFO else AUDIO_DATA, if flags == 0xAE then MONO else STEREO, payload)]
    case _ => []
  }

  function AllAudio(bodies: seq<Body>): seq<AudioUnit> {
    if bodies == [] then []
    else AllAudio(bodies[..|bodies| - 1]) + AudioReported(bodies[|bodies| - 1])
  }

  lemma Associates<T>(a: seq<T>, b: seq<T>, c: seq<T>)
    ensures a + b + c == a + (b + c)
  {
  }

  lemma {:induction false} ReportedNext(bodies: seq<Body>, i: nat)
    requires i < |bodies|
    ensures AllReported(bodies[..i + 1]) == AllReported(bodies[..i]) + Reported(bodies[i])
    ensures AllAudio(bodies[..i + 1]) == AllAudio(bodies[..i]) + AudioReported(bodies[i])
  {
    assert bodies[..i + 1][..i] == bodies[..i];
  }

  /** From `at` on come the SPS, then the PPS, each in order. */
  ghost predicate SetsAt(nalus: seq<Nalu>, at: nat, sps: seq<Bytes>, pps: seq<Bytes>) {
    && at + |sps| + |pps| <= |nalus|
    && (forall i :: 0 <= i < |sps| ==> nalus[at + i] == Nalu(SPS, sps[i]))
    && (forall i :: 0 <= i < |pps| ==> nalus[at + |sps| + i] == Nalu(PPS, pps[i]))
  }

  lemma {:induction false} ReportedPrefix(bodies: seq<Body>, i: nat)
    requires i <= |bodies|
    ensures |AllReported(bodies[..i])| <= |AllReported(bodies)|
    ensures AllReported(bodies)[..|AllReported(bodies[..i])|] == AllReported(bodies[..i])
    decreases |bodies|
  {
    if i == |bodies| {
      assert bodies[..i] == bodies;
    } else {
      var front := bodies[..|bodies| - 1];
      assert bodies[..i] == front[..i];
      ReportedPrefix(front, i);
    }
  }

  lemma {:induction false} SetsBetween(before: seq<Nalu>, sps: seq<Bytes>, pps: seq<Bytes>, rest: seq<Nalu>)
    ensures SetsAt(before + (Nalus(SPS, sps) + Nalus(PPS, pps)) + rest, |before|, sps, pps)
  {
    var s, p := Nalus(SPS, sps), Nalus(PPS, pps);
    var all := before + (s + p) + rest;
    assert forall i {:trigger s[i]} :: 0 <= i < |s| ==> all[|before| + i] == s[i];
    assert forall i {:trigger p[i]} :: 0 <= i < |p| ==> all[|before| + |s| + i] == p[i];
  }

  lemma Regroup<T>(a: seq<T>, b: seq<T>, c: seq<T>, d: seq<T>)
    ensures a + (b + c + d) == a + b + c + d
  {
  }

  lemma AfterPrefix<T>(all: seq<T>, prefix: seq<T>) returns (rest: seq<T>)
    requires |prefix| <= |all| && all[..|prefix|] == prefix
    ensures all == prefix + rest
  {
    rest := all[|prefix|..];
  }

  lemma {:induction false} AfterNext(bodies: seq<Body>, i: nat) returns (rest: seq<Nalu>)
    requires i < |bodies|
    ensures AllReported(bodies) == AllReported(bodies[..i]) + Reported(bodies[i]) + rest
  {
    var all, upTo := AllReported(bodies), AllReported(bodies[..i + 1]);
    ReportedPrefix(bodies, i + 1);
    ReportedNext(bodies, i);
    rest := AfterPrefix(all, upTo);
  }

  /** The sets of a sequence header come out together and in order, whatever is around it. */
  lemma {:induction false} SetsReported(before: seq<Nalu>, bodies: seq<Body>, i: nat)
    requires i < |bodies| && bodies[i].Config?
    ensures SetsAt(before + AllReported(bodies), |before| + |AllReported(bodies[..i])|, bodies[i].sps, bodies[i].pps)
  {
    var front := AllReported(bodies[..i]);
    var rest := AfterNext(bodies, i);
    Regroup(before, front, Reported(bodies[i]), rest);
    SetsBetween(before + front, bodies[i].sps, bodies[i].pps, rest);
  }

  ghost predicate AllSetsAt(nalus: seq<Nalu>, from: nat, bodies: seq<Body>) {
    forall i :: 0 <= i < |bodies| && bodies[i].Config? ==>
      SetsAt(nalus, from + |AllReported(bodies[..i])|, bodies[i].sps, bodies[i].pps)
  }

  lemma {:induction false} AllSetsReported(before: seq<Nalu>, bodies: seq<Body>)
    ensures AllSetsAt(before + AllReported(bodies), |before|, bodies)
  {
    forall i | 0 <= i < |bodies| && bodies[i].Config?
      ensures SetsAt(before + AllReported(bodies), |before| + |AllReported(bodies[..i])|, bodies[i].sps, bodies[i].pps)
    {
      SetsReported(before, bodies, i);
    }
  }

  /** The VIDEO bodies among them. */
  function VideoBodies(bodies: seq<Body>): seq<Body> {
    if bodies == [] then []
    else
      var b := bodies[|bodies| - 1];
      VideoBodies(bodies[..|bodies| - 1]) + (if Kind(b) == VIDEO then [b] else [])
  }

  lemma {:induction false} AllReportedAppend(bodies: seq<Body>, b: Body)
    ensures AllReported(bodies + [b]) == AllReported(bodies) + Reported(b)
  {
    assert (bodies + [b])[..|bodies|] == bodies;
  }

  /** Audio packets between the video packets change nothing for the NALU callback. */
  lemma {:induction false} AudioLeavesVideoAlone(bodies: seq<Body>)
    ensures AllReported(bodies) == AllReported(VideoBodies(bodies))
    decreases |bodies|
  {
    if bodies == [] {
    } else {
      var front, b := bodies[..|bodies| - 1], bodies[|bodies| - 1];
      AudioLeavesVideoAlone(front);
      if Kind(b) == VIDEO {
        AllReportedAppend(VideoBodies(front), b);
      } else {
        assert Reported(b) == [] && VideoBodies(bodies) == VideoBodies(front) + [] == VideoBodies(front);
      }
    }
  }

  datatype Packet = Packet(packetType: byte, body: Bytes)

  ghost predicate Brings(packet: Packet, b: Body) {
    ValidBody(b) && packet == Packet(Kind(b), Data(b))
  }

  ghost predicate BringAll(packets: seq<Packet>, bodies: seq<Body>) {
    |packets| == |bodies| && forall i :: 0 <= i < |packets| ==> Brings(packets[i], bodies[i])
  }

  /** The bodies a video channel sends, as RTMP video packets. */
  function VideoPackets(sent: seq<Bytes>): (r: seq<Packet>)
    ensures |r| == |sent|
    ensures forall i :: 0 <= i < |sent| ==> r[i] == Packet(VIDEO, sent[i])
  {
    seq(|sent|, i requires 0 <= i < |sent| => Packet(VIDEO, sent[i]))
  }

  lemma {:induction false} SentPacketsBring(sent: seq<Bytes>, bodies: seq<Body>)
    requires Sends(sent, bodies)
    ensures BringAll(VideoPackets(sent), bodies)
  {
    forall i | 0 <= i < |sent|
      ensures Brings(VideoPackets(sent)[i], bodies[i])
    {
      assert SentAs(sent[i], bodies[i]);
    }
  }

  class VideoCapture {
    /** Everything the NALU callback has been given. */
    var nalus: seq<Nalu>

    /** Everything the audio callback has been given. */
    var audio: seq<AudioUnit>

    constructor ()
      ensures nalus == [] && audio == []
    {
      nalus, audio := [], [];
    }

    method HandleSpsPpsPacket(body: Bytes, ghost sets: seq<Bytes>, ghost pictureSets: seq<Bytes>)
      requires HoldsConfig(body, sets, pictureSets)
      modifies this`nalus
      ensures nalus == old(nalus) + (Nalus(SPS, sets) + Nalus(PPS, pictureSets))
      ensures |nalus| == |old(nalus)| + |sets| + |pictureSets|
      ensures SetsAt(nalus, |old(nalus)|, sets, pictureSets)
    {
      var sps, offset := ReportSets(body, 10, sets);
      nalus := nalus + Nalus(SPS, sps);
      var pps, end := ReportSets(body, offset, pictureSets);
      nalus := nalus + Nalus(PPS, pps);
    }

    method HandleNaluFramePacket(body: Bytes, ghost flags: byte, ghost nalu: Bytes)
      requires HoldsFrame(body, flags, nalu)
      modifies this`nalus
      ensures nalus == old(nalus) + [Nalu(if flags == KEY_FRAME then IDR else OTHER, nalu)]
    {
      var offset := 9;
      var dataLen := FromBe32(body[5], body[6], body[7], body[8]);
      if body[0] == 0x17 {
        nalus := nalus + [Nalu(IDR, body[offset..offset + dataLen])];
      } else {
        nalus := nalus + [Nalu(OTHER, body[offset..offset + dataLen])];
      }
    }

    method HandleAudioPacket(body: Bytes, ghost flags: byte, ghost packetType: byte, ghost payload: Bytes)
      requires HoldsAudio(body, |body|, flags, packetType, payload)
      modifies this`audio
      ensures audio == old(audio) + AudioReported(Audio(flags, packetType, payload))
      ensures audio == old(audio) + [AudioUnit(if packetType == 0x00 then AUDIO_INFO else AUDIO_DATA,
                                               if flags == 0xAE then MONO else STEREO, payload)]
    {
      var info := if body[1] == 0x00 then AUDIO_INFO else AUDIO_DATA;
      var channels := if body[0] == 0xAE then MONO else STEREO;
      var samples := body[2..];
      assert samples == body[2..|body|] == payload;
      audio := audio + [AudioUnit(info, channels, samples)];
    }

    /**
     A packet whose body carries `b` is reported as exactly `b`'s NALUs or audio unit;
     packets of other types are ignored.
     */
    method HandlePacket(packetType: byte, body: Bytes, ghost b: Body)
      requires packetType == Kind(b)
      requires Holds(body, |body|, b)
      modifies this
      ensures nalus == old(nalus) + Reported(b)
      ensures audio == old(audio) + AudioReported(b)
    {
      if packetType == VIDEO {
        var sequence := body[1] == 0x00;
        if sequence {
          HandleSpsPpsPacket(body, b.sps, b.pps);
        } else {
          HandleNaluFramePacket(body, b.flags, b.nalu);
        }
      } else if packetType == AUDIO {
        HandleAudioPacket(body, b.flags, b.packetType, b.payload);
      }
    }

    /** One packet off the wire. */
    method PullOne(packet: Packet, ghost b: Body)
      requires Brings(packet, b)
      modifies this
      ensures nalus == old(nalus) + Reported(b)
      ensures audio == old(audio) + AudioReported(b)
    {
      assert packet.body[..|packet.body|] == packet.body;
      DataInBuffer(packet.body, |packet.body|, b);
      HandlePacket(packet.packetType, packet.body, b);
    }

    /** Packet `i` of a sender, the ones before it being reported. */
    method PullNext(packets: seq<Packet>, i: nat, ghost bodies: seq<Body>,
                    ghost nalus0: seq<Nalu>, ghost audio0: seq<AudioUnit>)
      requires BringAll(packets, bodies) && i < |packets|
      requires nalus == nalus0 + AllReported(bodies[..i]) && audio == audio0 + AllAudio(bodies[..i])
      modifies this
      ensures nalus == nalus0 + AllReported(bodies[..i + 1]) && audio == audio0 + AllAudio(bodies[..i + 1])
    {
      PullOne(packets[i], bodies[i]);
      ReportedNext(bodies, i);
      Associates(nalus0, AllReported(bodies[..i]), Reported(bodies[i]));
      Associates(audio0, AllAudio(bodies[..i]), AudioReported(bodies[i]));
    }

    /** The pull loop over a sender's packets, video and audio in any order. */
    method Pull(packets: seq<Packet>, ghost bodies: seq<Body>)
      requires BringAll(packets, bodies)
      modifies this
      ensures nalus == old(nalus) + AllReported(bodies)
      ensures audio == old(audio) + AllAudio(bodies)
      ensures AllSetsAt(nalus, |old(nalus)|, bodies)
    {
      assert bodies[..0] == [];
      for i := 0 to |packets|
        invariant nalus == old(nalus) + AllReported(bodies[..i])
        invariant audio == old(audio) + AllAudio(bodies[..i])
      {
        PullNext(packets, i, bodies, old(nalus), old(audio));
      }
      assert bodies[..|bodies|] == bodies;
      AllSetsReported(old(nalus), bodies);
    }
  }
}
