/**
 The callbacks of the record player: what each delivered tag means to them, and what a
 whole playback gives the two decoders.
 */
module FlvCallbacks {
  import opened AnnexB
  import opened Bytes
  import opened FlvFormat
  import opened FlvTimeline
  import opened ParameterSets
  import opened Types

  datatype Callback =
    | VideoCallback(nalu: NaluType, data: Bytes, play: bool)
    | AudioCallback(info: AudioType, channels: ChannelType, samples: Bytes, play: bool)

  /** One video callback for each NALU, in order. */
  function VideoCallbacks(kind: NaluType, nalus: seq<Bytes>, play: bool): (r: seq<Callback>)
    ensures |r| == |nalus|
    ensures forall i :: 0 <= i < |nalus| ==> r[i] == VideoCallback(kind, nalus[i], play)
  {
    seq(|nalus|, i requires 0 <= i < |nalus| => VideoCallback(kind, nalus[i], play))
  }

  /** What one delivered tag means to the callbacks. */
  function TagCallbacks(t: Tag, play: bool): seq<Callback> {
    match t.body
    case Config(_, _, sps, pps, _) => VideoCallbacks(SPS, sps, play) + VideoCallbacks(PPS, pps, play)
    case Frame(_, _, nalu) => [VideoCallback(if IsI(t) then IDR else OTHER, nalu, play)]
    case Audio(flags, packetType, payload) =>
      [AudioCallback(if packetType == 0 then AUDIO_INFO else AUDIO_DATA,
                     if flags == 0xAE then MONO else STEREO, payload, play)]
    case Script(_) => []
  }

  /** The callbacks of a whole delivery log. */
  function Callbacks(tags: seq<Tag>, log: seq<Delivery>): seq<Callback> {
    if log == [] then []
    else
      var d := log[|log| - 1];
      Callbacks(tags, log[..|log| - 1])
      + (if d.tag < |tags| then TagCallbacks(tags[d.tag], d.play) else [])
  }

  lemma {:induction false} CallbacksExtend(tags: seq<Tag>, log: seq<Delivery>, d: Delivery, delivers: bool)
    requires d.tag < |tags|
    ensures Callbacks(tags, if delivers then log + [d] else log)
            == Callbacks(tags, log) + if delivers then TagCallbacks(tags[d.tag], d.play) else []
  {
    assert (log + [d])[..|log|] == log;
    assert Callbacks(tags, log) + [] == Callbacks(tags, log);
  }

  // ---------------------------------------------------------------- from the data bytes

  /** A sequence header reports its SPS, then its PPS, each in order, and nothing else. */
  lemma {:induction false} ConfigCallbacks(t: Tag, play: bool)
    requires t.body.Config?
    ensures var r, s, p := TagCallbacks(t, play), t.body.sps, t.body.pps;
            && |r| == |s| + |p|
            && (forall i :: 0 <= i < |s| ==> r[i] == VideoCallback(SPS, s[i], play))
            && (forall i :: 0 <= i < |p| ==> r[|s| + i] == VideoCallback(PPS, p[i], play))
  {
    var s, p := VideoCallbacks(SPS, t.body.sps, play), VideoCallbacks(PPS, t.body.pps, play);
    var r := s + p;
    assert TagCallbacks(t, play) == r;
    assert forall i :: 0 <= i < |s| ==> r[i] == s[i];
    assert forall i {:trigger p[i]} :: 0 <= i < |p| ==> r[|s| + i] == p[i];
  }

  /** A frame reports the NALU after its nine-byte head, as IDR iff the first data byte is 0x17. */
  lemma {:induction false} FrameCallbacks(t: Tag, play: bool)
    requires t.body.Frame? && ValidTag(t)
    ensures var r, data := TagCallbacks(t, play), Data(t.body);
            |data| >= 9 && r == [VideoCallback(if data[0] == 0x17 then IDR else OTHER, data[9..], play)]
  {
    FrameLayout(t.body.flags, t.body.compositionTime, t.body.nalu);
  }

  /** An audio tag reports what follows its two flag bytes. */
  lemma {:induction false} AudioCallbacks(t: Tag, play: bool)
    requires t.body.Audio?
    ensures var r, data := TagCallbacks(t, play), Data(t.body);
            && |data| >= 2
            && r == [AudioCallback(if data[1] == 0x00 then AUDIO_INFO else AUDIO_DATA,
                                   if data[0] == 0xAE then MONO else STEREO, data[2..], play)]
  {
  }

  // ---------------------------------------------------------------- what the decoders get

  /** The data of the video callbacks. */
  function VideoData(callbacks: seq<Callback>): seq<Bytes> {
    if callbacks == [] then []
    else
      var last := callbacks[|callbacks| - 1];
      VideoData(callbacks[..|callbacks| - 1]) + (if last.VideoCallback? then [last.data] else [])
  }

  /** The samples of the audio callbacks. */
  function AudioData(callbacks: seq<Callback>): seq<Bytes> {
    if callbacks == [] then []
    else
      var last := callbacks[|callbacks| - 1];
      AudioData(callbacks[..|callbacks| - 1]) + (if last.AudioCallback? then [last.samples] else [])
  }

  lemma {:induction false} DataAppend(a: seq<Callback>, c: Callback)
    ensures VideoData(a + [c]) == VideoData(a) + (if c.VideoCallback? then [c.data] else [])
    ensures AudioData(a + [c]) == AudioData(a) + (if c.AudioCallback? then [c.samples] else [])
  {
    assert (a + [c])[..|a|] == a;
  }

  lemma {:induction false} DataOfOne(c: Callback)
    ensures VideoData([c]) == (if c.VideoCallback? then [c.data] else [])
    ensures AudioData([c]) == (if c.AudioCallback? then [c.samples] else [])
  {
    DataAppend([], c);
    assert [] + [c] == [c];
  }

  lemma Associates<T>(a: seq<T>, b: seq<T>, c: seq<T>)
    ensures a + b + c == a + (b + c)
  {
  }

  lemma {:induction false} VideoDataOfConcat(a: seq<Callback>, b: seq<Callback>)
    ensures VideoData(a + b) == VideoData(a) + VideoData(b)
    decreases |b|
  {
    if b == [] {
      assert a + b == a;
    } else {
      var front, c := b[..|b| - 1], b[|b| - 1];
      var more := if c.VideoCallback? then [c.data] else [];
      VideoDataOfConcat(a, front);
      DataAppend(a + front, c);
      assert a + b == (a + front) + [c];
      assert VideoData(b) == VideoData(front) + more;
      Associates(VideoData(a), VideoData(front), more);
    }
  }

  lemma {:induction false} AudioDataOfConcat(a: seq<Callback>, b: seq<Callback>)
    ensures AudioData(a + b) == AudioData(a) + AudioData(b)
    decreases |b|
  {
    if b == [] {
      assert a + b == a;
    } else {
      var front, c := b[..|b| - 1], b[|b| - 1];
      var more := if c.AudioCallback? then [c.samples] else [];
      AudioDataOfConcat(a, front);
      DataAppend(a + front, c);
      assert a + b == (a + front) + [c];
      assert AudioData(b) == AudioData(front) + more;
      Associates(AudioData(a), AudioData(front), more);
    }
  }

  lemma {:induction false} DataOfConcat(a: seq<Callback>, b: seq<Callback>)
    ensures VideoData(a + b) == VideoData(a) + VideoData(b)
    ensures AudioData(a + b) == AudioData(a) + AudioData(b)
  {
    VideoDataOfConcat(a, b);
    AudioDataOfConcat(a, b);
  }

  lemma {:induction false} DataOfSets(kind: NaluType, sets: seq<Bytes>, play: bool)
    ensures VideoData(VideoCallbacks(kind, sets, play)) == sets
    ensures AudioData(VideoCallbacks(kind, sets, play)) == []
    decreases |sets|
  {
    if sets == [] {
    } else {
      var front, all := sets[..|sets| - 1], VideoCallbacks(kind, sets, play);
      DataOfSets(kind, front, play);
      assert all[..|all| - 1] == VideoCallbacks(kind, front, play);
    }
  }

  /** The first I frame of a file, or the number of tags. */
  function FirstI(tags: seq<Tag>): (n: nat)
    ensures n <= |tags|
    ensures n < |tags| ==> IsI(tags[n])
    ensures forall k :: 0 <= k < n ==> !IsI(tags[k])
  {
    if tags == [] then 0
    else
      var n := FirstI(tags[..|tags| - 1]);
      if n < |tags| - 1 || IsI(tags[n]) then n else |tags|
  }

  /** The NAL units of a tag: all parameter sets, and a frame's if frames count. */
  function UnitsOf(t: Tag, frames: bool): seq<Bytes> {
    match t.body
    case Config(_, _, sps, pps, _) => sps + pps
    case Frame(_, _, nalu) => if frames then [nalu] else []
    case _ => []
  }

  /** The NAL units of the first `n` tags, frames from tag `first` on. */
  function UnitsFrom(tags: seq<Tag>, first: nat, n: nat): seq<Bytes>
    requires n <= |tags|
  {
    if n == 0 then [] else UnitsFrom(tags, first, n - 1) + UnitsOf(tags[n - 1], n - 1 >= first)
  }

  /** The payloads of the audio tags. */
  function AudioPayloads(tags: seq<Tag>, n: nat): seq<Bytes>
    requires n <= |tags|
  {
    if n == 0 then []
    else
      AudioPayloads(tags, n - 1)
      + (if tags[n - 1].body.Audio? then [tags[n - 1].body.payload] else [])
  }

  lemma {:induction false} DataOfTag(t: Tag, play: bool)
    ensures VideoData(TagCallbacks(t, play)) == UnitsOf(t, true)
    ensures AudioData(TagCallbacks(t, play)) == if t.body.Audio? then [t.body.payload] else []
  {
    match t.body
    case Config(_, _, sps, pps, _) =>
      DataOfSets(SPS, sps, play);
      DataOfSets(PPS, pps, play);
      DataOfConcat(VideoCallbacks(SPS, sps, play), VideoCallbacks(PPS, pps, play));
    case Frame(_, _, _) => DataOfOne(TagCallbacks(t, play)[0]);
    case Audio(_, _, _) => DataOfOne(TagCallbacks(t, play)[0]);
    case Script(_) =>
  }

  /** Without seeks a tag is played iff it is no script data, and no frame before the first I frame. */
  lemma {:induction false} PlayedExactly(tags: seq<Tag>, j: nat)
    requires j < |tags|
    ensures Played(tags, j) <==> !tags[j].body.Script? && (tags[j].body.Frame? ==> j >= FirstI(tags))
  {
  }

  lemma {:induction false} DataOfPlayed(tags: seq<Tag>, j: nat)
    requires j < |tags|
    ensures var more := if Played(tags, j) then TagCallbacks(tags[j], true) else [];
            && VideoData(more) == UnitsOf(tags[j], j >= FirstI(tags))
            && AudioData(more) == if tags[j].body.Audio? then [tags[j].body.payload] else []
  {
    PlayedExactly(tags, j);
    DataOfTag(tags[j], true);
  }

  lemma {:induction false} PlaybackCallbacks(tags: seq<Tag>, j: nat)
    requires j < |tags|
    ensures Callbacks(tags, Playback(tags, j + 1))
            == Callbacks(tags, Playback(tags, j)) + if Played(tags, j) then TagCallbacks(tags[j], true) else []
  {
    var log := Playback(tags, j);
    CallbacksExtend(tags, log, Delivery(j, true), Played(tags, j));
    assert Playback(tags, j + 1) == if Played(tags, j) then log + [Delivery(j, true)] else log;
  }

  /** These callbacks carry what the first `n` tags of the file have to give. */
  ghost predicate Give(callbacks: seq<Callback>, tags: seq<Tag>, n: nat)
    requires n <= |tags|
  {
    VideoData(callbacks) == UnitsFrom(tags, FirstI(tags), n) && AudioData(callbacks) == AudioPayloads(tags, n)
  }

  lemma {:induction false} GiveNext(callbacks: seq<Callback>, tags: seq<Tag>, j: nat)
    requires j < |tags| && Give(callbacks, tags, j)
    ensures Give(callbacks + if Played(tags, j) then TagCallbacks(tags[j], true) else [], tags, j + 1)
  {
    var more := if Played(tags, j) then TagCallbacks(tags[j], true) else [];
    DataOfPlayed(tags, j);
    DataOfConcat(callbacks, more);
  }

  /** Played through, a file gives every parameter set, every frame from its first I frame on, and all its audio. */
  lemma {:induction false} PlaybackData(tags: seq<Tag>, n: nat)
    requires n <= |tags|
    ensures Give(Callbacks(tags, Playback(tags, n)), tags, n)
  {
    if n == 0 {
    } else {
      var j := n - 1;
      var before := Callbacks(tags, Playback(tags, j));
      var more := if Played(tags, j) then TagCallbacks(tags[j], true) else [];
      assert Callbacks(tags, Playback(tags, n)) == before + more by {
        PlaybackCallbacks(tags, j);
      }
      assert Give(before + more, tags, n) by {
        PlaybackData(tags, j);
        GiveNext(before, tags, j);
      }
    }
  }

  /**
   What playback feeds the H.264 decoder, each unit behind a start code of either length,
   splits into exactly the file's parameter sets and frames from its first I frame on.
   */
  lemma {:induction false} DecoderGetsRecording(tags: seq<Tag>, long: seq<bool>)
    requires |long| == |UnitsFrom(tags, FirstI(tags), |tags|)|
    requires forall i :: 0 <= i < |long| ==> WellFormedUnit(UnitsFrom(tags, FirstI(tags), |tags|)[i])
    ensures var fed := VideoData(Callbacks(tags, Playback(tags, |tags|)));
            |fed| == |long| && Split(Written(long, fed)) == UnitsFrom(tags, FirstI(tags), |tags|)
  {
    PlaybackData(tags, |tags|);
    SplitUndoesWrite(long, UnitsFrom(tags, FirstI(tags), |tags|));
  }
}
