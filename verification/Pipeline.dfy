/** The video pipeline end to end: encoder units, RTMP packets, NALUs, the decoder's byte stream. */
module Pipeline {
  import opened Bytes
  import opened Types
  import opened AnnexB
  import opened VideoChannel
  import opened VideoCapture
  import opened VideoCtrl

  /** Hands one NALU to the player's callback, in a buffer of its own. */
  method PlayOne(n: Nalu, player: VideoCtrl)
    requires player.Valid()
    modifies player`videoFed, player`received
    ensures player.Valid()
    ensures player.received == old(player.received) + [n]
  {
    var data := new byte[|n.data|](k requires 0 <= k < |n.data| => n.data[k]);
    assert data[..] == n.data;
    player.OnNalu(n.kind, data);
  }

  /** Hands each reported NALU to the player's callback, in order. */
  method Play(nalus: seq<Nalu>, player: VideoCtrl)
    requires player.Valid()
    modifies player`videoFed, player`received
    ensures player.Valid()
    ensures player.received == old(player.received) + nalus
  {
    for i := 0 to |nalus|
      invariant player.Valid() && player.received == old(player.received) + nalus[..i]
    {
      PlayOne(nalus[i], player);
      assert nalus[..i + 1] == nalus[..i] + [nalus[i]];
    }
    assert nalus[..|nalus|] == nalus;
  }

  /** What a session's encoder outputs amount to at the receiver, output by output. */
  function DeliveredEach(outputs: seq<seq<Nal>>): seq<Nalu> {
    if outputs == [] then []
    else DeliveredEach(outputs[..|outputs| - 1]) + Delivered(outputs[|outputs| - 1])
  }

  function AllUnits(outputs: seq<seq<Nal>>): seq<Nal> {
    if outputs == [] then [] else AllUnits(outputs[..|outputs| - 1]) + outputs[|outputs| - 1]
  }

  predicate ValidOutput(nals: seq<Nal>) {
    (forall i :: 0 <= i < |nals| ==> ValidNal(nals[i])) && SpsBeforePps(nals)
  }

  predicate GoodOutput(nals: seq<Nal>) {
    Paired(nals) && forall i :: 0 <= i < |nals| ==> WellFormedUnit(nals[i].content)
  }

  /** With paired parameter sets the receiver gets every unit of the session, in order and typed. */
  lemma {:induction false} DeliversEachUnit(outputs: seq<seq<Nal>>)
    requires forall k :: 0 <= k < |outputs| ==> GoodOutput(outputs[k])
    ensures AreNalusOf(DeliveredEach(outputs), AllUnits(outputs))
    ensures forall i :: 0 <= i < |AllUnits(outputs)| ==> WellFormedUnit(AllUnits(outputs)[i].content)
    decreases |outputs|
  {
    if outputs == [] {
    } else {
      var last := outputs[|outputs| - 1];
      DeliversEachUnit(outputs[..|outputs| - 1]);
      DeliversExactlyPairs(last);
      NaluListAt(last);
    }
  }

  /** From the encoder to the decoder over a session: exactly the units of all outputs. */
  lemma {:induction false} SessionRoundTrip(outputs: seq<seq<Nal>>)
    requires forall k :: 0 <= k < |outputs| ==> GoodOutput(outputs[k])
    ensures Split(Fed(DeliveredEach(outputs), [])) == Contents(AllUnits(outputs))
  {
    DeliversEachUnit(outputs);
    ContentsDecode(DeliveredEach(outputs), AllUnits(outputs));
  }

  /** One encoder output sent, received and played. */
  method Transmit(sender: VideoChannel, capture: VideoCapture, player: VideoCtrl, nals: seq<Nal>)
    requires player.Valid() && ValidOutput(nals)
    modifies sender`sent, capture, player`videoFed, player`received
    ensures player.Valid()
    ensures player.received == old(player.received) + Delivered(nals)
  {
    var sent, reported := sender.sent, capture.nalus;
    ghost var bodies := sender.SendNals(nals);
    SentPacketsBring(sender.sent[|sent|..], bodies);
    capture.Pull(VideoPackets(sender.sent[|sent|..]), bodies);
    Play(capture.nalus[|reported|..], player);
  }

  /**
   A whole session through one sender, one receiver and one player without a key: the
   decoder's stream splits into exactly the units of all encoder outputs, in order, when
   the parameter sets are paired and the units well formed.
   */
  method Session(sender: VideoChannel, outputs: seq<seq<Nal>>, key: array<byte>) returns (player: VideoCtrl)
    requires forall k :: 0 <= k < |outputs| ==> ValidOutput(outputs[k])
    modifies sender`sent
    ensures player.Valid() && player.encryption == key && player.received == DeliveredEach(outputs)
    ensures key.Length == 0 && (forall k :: 0 <= k < |outputs| ==> GoodOutput(outputs[k])) ==>
              Split(player.videoFed) == Contents(AllUnits(outputs))
  {
    var capture := new VideoCapture();
    player := new VideoCtrl(key);
    assert outputs[..0] == [];
    for k := 0 to |outputs|
      invariant player.Valid() && player.encryption == key
      invariant fresh(capture) && fresh(player)
      invariant player.received == DeliveredEach(outputs[..k])
    {
      Transmit(sender, capture, player, outputs[k]);
      assert outputs[..k + 1][..k] == outputs[..k];
    }
    assert outputs[..|outputs|] == outputs;
    if key.Length == 0 && forall k :: 0 <= k < |outputs| ==> GoodOutput(outputs[k]) {
      SessionRoundTrip(outputs);
      assert key[..] == [];
    }
  }
}
