/**
 The record player on the bytes of its file. Every method is tied to the tag-index
 player of FlvTimeline: the file offset, `cur_idx` and the tag boundary agree at every
 step boundary, and the callbacks are those of the tags delivered.
 */
module FlvPlayer {
  import opened Bytes
  import opened ParameterSets
  import opened FlvContainer
  import opened FlvFormat
  import opened FlvTimeline
  import opened FlvCallbacks
  import opened Types

  /** What the player's tests on the type and the first two data bytes decide about a tag. */
  ghost predicate Classified(r: RawTag, t: Tag) {
    && r.kind == Kind(t.body)
    && (IsVideo(t) ==>
          && |r.data| >= 2
          && (r.data[1] == 0x01 <==> IsFrame(t))
          && (r.data[0] == KEY_FRAME && r.data[1] == 0x01 <==> IsI(t)))
  }

  /** The bytes of a tag, once in a buffer, are what the parsers take for its contents. */
  ghost predicate Carries(r: RawTag, t: Tag) {
    && ValidRaw(r)
    && Classified(r, t)
    && forall buf: Bytes {:trigger Holds(buf, |r.data|, t.body)} ::
         |r.data| <= |buf| && buf[..|r.data|] == r.data ==> Holds(buf, |r.data|, t.body)
  }

  lemma {:induction false} RawCarries(t: Tag)
    requires ValidTag(t)
    ensures Carries(Raw(t), t)
  {
    var r := Raw(t);
    forall buf: Bytes | |r.data| <= |buf| && buf[..|r.data|] == r.data
      ensures Holds(buf, |r.data|, t.body)
    {
      DataInBuffer(buf, |r.data|, t.body);
    }
  }

  class FlvPlayer {
    const file: Bytes
    ghost const streams: byte
    ghost const tags: seq<Tag>
    ghost const raws: seq<RawTag>

    const tagHeader: array<byte>
    const tagData: array<byte>

    var fileOffset: nat
    var curIdx: nat
    var totalBytes: nat
    var bufLen: nat

    var needIFrame: bool
    var isRegulating: bool
    var regulateTagCount: int
    var isPause: bool
    var stepOneFrame: bool

    /** Everything the callbacks have been given. */
    var callbacks: seq<Callback>

    ghost var pos: int
    ghost var target: nat
    ghost var log: seq<Delivery>

    /** The file and the buffers, fixed when the player opens the file. */
    ghost predicate FileOk() {
      && Laid(file, raws)
      && |raws| == |tags|
      && (forall i {:trigger Carries(raws[i], tags[i])} :: 0 <= i < |tags| ==> Carries(raws[i], tags[i]))
      && tagHeader.Length == TAG_HEADER_SIZE && tagData.Length == TAG_DATA_SIZE && tagHeader != tagData
    }

    ghost predicate HeaderOk() {
      |file| >= FLV_HEADER_LENGTH + PREVIOUS_TAG_SIZE && file[..FLV_HEADER_LENGTH] == FlvHeader(streams)
    }

    /** Both positions are the boundary of tag `pos`. */
    ghost predicate AtBoundary()
      requires |raws| == |tags|
      reads this`pos, this`fileOffset, this`curIdx, this`totalBytes
    {
      && totalBytes == |file|
      && -1 <= pos <= |tags|
      && fileOffset == curIdx == Offset(raws, pos)
    }

    /** The state at every step boundary. */
    ghost predicate Valid()
      reads this
    {
      FileOk() && HeaderOk() && AtBoundary() && callbacks == Callbacks(tags, log)
    }

    ghost function Abs(): Player
      reads this
    {
      Player(pos, needIFrame, isRegulating, regulateTagCount, isPause, stepOneFrame, target, log)
    }

    /** The player once `start` has launched the feed loop on a file. */
    constructor (ghost streams: byte, ghost tags: seq<Tag>, file: Bytes)
      requires ValidTags(tags)
      requires file == File(streams, Raws(tags))
      ensures Valid() && Started(Abs())
      ensures this.tags == tags && this.file == file
      ensures fresh(tagHeader) && fresh(tagData)
    {
      this.file := file;
      this.streams := streams;
      this.tags := tags;
      this.raws := Raws(tags);
      tagHeader := new byte[TAG_HEADER_SIZE];
      tagData := new byte[TAG_DATA_SIZE];
      totalBytes := |file|;
      fileOffset, curIdx, bufLen := 0, 0, 0;
      needIFrame, isRegulating, regulateTagCount := true, false, 0;
      isPause, stepOneFrame := false, false;
      callbacks := [];
      pos, target, log := -1, 0, [];
      new;
      FileIsLaid(streams, raws);
      forall i | 0 <= i < |tags|
        ensures Carries(raws[i], tags[i])
      {
        RawCarries(tags[i]);
      }
    }

    /** `read` on the file: as many bytes as there are, placed in `buf` from `at` on. */
    method Read(buf: array<byte>, at: nat, n: nat) returns (got: nat)
      requires at + n <= buf.Length && fileOffset <= |file|
      modifies this`fileOffset, buf
      ensures got == if n <= |file| - old(fileOffset) then n else |file| - old(fileOffset)
      ensures fileOffset == old(fileOffset) + got
      ensures forall k {:trigger buf[k]} :: at <= k < at + got ==> buf[k] == file[old(fileOffset) + k - at]
      ensures forall k :: 0 <= k < buf.Length && !(at <= k < at + got) ==> buf[k] == old(buf[k])
    {
      got := if n <= |file| - fileOffset then n else |file| - fileOffset;
      forall k | at <= k < at + got {
        buf[k] := file[fileOffset + k - at];
      }
      fileOffset := fileOffset + got;
    }

    /** Reads the tag header at the file position and takes its DataSize. */
    method ReadTagHeader(ghost t: RawTag)
      requires tagHeader.Length == TAG_HEADER_SIZE
      requires fileOffset == curIdx && Fields(file, curIdx, t)
      modifies this`fileOffset, this`curIdx, this`bufLen, tagHeader
      ensures fileOffset == curIdx == old(curIdx) + TAG_HEADER_SIZE
      ensures bufLen == |t.data| && tagHeader[0] == t.kind
    {
      ghost var at := fileOffset;
      var got := Read(tagHeader, 0, TAG_HEADER_SIZE);
      assert tagHeader[0] == file[at] && tagHeader[1] == file[at + 1];
      assert tagHeader[2] == file[at + 2] && tagHeader[3] == file[at + 3];
      curIdx := curIdx + got;
      bufLen := FromBe24(tagHeader[1], tagHeader[2], tagHeader[3]);
    }

    /** Lands on tag min(pos + n, N). */
    method MoveForward(n: nat)
      requires FileOk() && AtBoundary() && pos >= 0
      modifies this`fileOffset, this`curIdx, this`bufLen, this`pos, tagHeader
      ensures AtBoundary()
      ensures pos == if old(pos) + n <= |tags| then old(pos) + n else |tags|
    {
      var tagCount := n;
      BoundaryTests(file, raws, pos);
      while tagCount > 0 && curIdx + TAG_HEADER_SIZE <= totalBytes
        invariant AtBoundary() && old(pos) <= pos
        invariant pos + tagCount == old(pos) + n
        invariant curIdx + TAG_HEADER_SIZE > totalBytes <==> pos == |tags|
      {
        tagCount := tagCount - 1;
        TagFields(file, raws, pos);
        ReadTagHeader(raws[pos]);
        fileOffset := fileOffset + bufLen + PREVIOUS_TAG_SIZE;
        curIdx := curIdx + bufLen + PREVIOUS_TAG_SIZE;
        pos := pos + 1;
        BoundaryTests(file, raws, pos);
      }
    }

    /** Steps back over the size field that ends the tag before the file position and reads it. */
    method ReadPreviousSize()
      requires tagHeader.Length == TAG_HEADER_SIZE
      requires PREVIOUS_TAG_SIZE <= fileOffset <= |file|
      modifies this`fileOffset, this`bufLen, tagHeader
      ensures fileOffset == old(fileOffset)
      ensures bufLen == SizeField(file, fileOffset - PREVIOUS_TAG_SIZE)
    {
      fileOffset := fileOffset - PREVIOUS_TAG_SIZE;
      ghost var at := fileOffset;
      var got := Read(tagHeader, 0, PREVIOUS_TAG_SIZE);
      assert tagHeader[0] == file[at] && tagHeader[1] == file[at + 1];
      assert tagHeader[2] == file[at + 2] && tagHeader[3] == file[at + 3];
      bufLen := FromBe32(tagHeader[0], tagHeader[1], tagHeader[2], tagHeader[3]);
    }

    /** One turn of the backward walk; `floor` tells that it met the zero size. */
    method BackOneTag() returns (floor: bool)
      requires FileOk() && AtBoundary() && pos >= 0
      modifies this`fileOffset, this`curIdx, this`bufLen, this`pos, tagHeader
      ensures AtBoundary()
      ensures floor <==> old(pos) == 0
      ensures pos == if floor then 0 else old(pos) - 1
      ensures curIdx > 0
    {
      FlvContainer.PreviousTagSize(file, raws, pos);
      ReadPreviousSize();
      if bufLen == 0 {
        return true;
      }
      curIdx := curIdx - (PREVIOUS_TAG_SIZE + bufLen);
      fileOffset := fileOffset - PREVIOUS_TAG_SIZE - bufLen;
      pos := pos - 1;
      BoundaryTests(file, raws, pos);
      return false;
    }

    /** Lands on tag max(pos - n, 0): the zero size before the first tag stops the walk. */
    method MoveBackward(n: nat)
      requires FileOk() && AtBoundary() && pos >= 0
      modifies this`fileOffset, this`curIdx, this`bufLen, this`pos, tagHeader
      ensures AtBoundary()
      ensures pos == if old(pos) >= n then old(pos) - n else 0
    {
      var tagCount := n;
      BoundaryTests(file, raws, pos);
      while tagCount > 0 && curIdx > 0
        invariant AtBoundary() && pos >= 0
        invariant curIdx > 0
        invariant pos - tagCount == old(pos) - n
      {
        tagCount := tagCount - 1;
        var floor := BackOneTag();
        if floor {
          break;
        }
      }
    }

    /** The header bytes that tell the kind of the tag at the position. */
    lemma {:induction false} HeaderBytes()
      requires FileOk() && AtBoundary() && 0 <= pos < |tags|
      ensures fileOffset + TAG_HEADER_SIZE + 2 <= |file|
      ensures file[fileOffset] == Kind(tags[pos].body)
      ensures IsVideo(tags[pos]) ==>
                && (file[fileOffset + 12] == 0x01 <==> IsFrame(tags[pos]))
                && (file[fileOffset + 11] == KEY_FRAME && file[fileOffset + 12] == 0x01 <==> IsI(tags[pos]))
    {
      TagFields(file, raws, pos);
      assert Carries(raws[pos], tags[pos]);
      if IsVideo(tags[pos]) {
        FirstDataBytes(file, curIdx, raws[pos]);
      }
    }

    /** Where a move of `count` tags from tag `i` ends. */
    ghost function Landing(i: int, count: int): int {
      if i + count > |tags| then |tags| else if i + count < 0 then 0 else i + count
    }

    /** Reads a tag header and two data bytes and goes back to where it started. */
    method Peek() returns (tagType: byte, isIFrame: bool)
      requires tagHeader.Length == TAG_HEADER_SIZE && tagData.Length == TAG_DATA_SIZE && tagHeader != tagData
      requires fileOffset + TAG_HEADER_SIZE + 2 <= |file|
      modifies this`fileOffset, tagHeader, tagData
      ensures fileOffset == old(fileOffset)
      ensures tagType == file[fileOffset] % 0x20
      ensures tagData[0] == file[fileOffset + 11] && tagData[1] == file[fileOffset + 12]
      ensures isIFrame <==> tagType == VIDEO && tagData[0] == KEY_FRAME && tagData[1] == 0x01
    {
      ghost var at := fileOffset;
      var got := Read(tagHeader, 0, TAG_HEADER_SIZE);
      assert tagHeader[0] == file[at];
      got := Read(tagData, 0, 2);
      fileOffset := fileOffset - TAG_HEADER_SIZE - 2;
      tagType := tagHeader[0] % 0x20;
      isIFrame := tagType == VIDEO && tagData[0] == KEY_FRAME && tagData[1] == 0x01;
    }

    /**
     Moves by a number of tags, forward or backward, and looks at the tag landed on
     without consuming it. At the end of the file the type reads as AUDIO.
     */
    method Move(count: int) returns (tagType: byte, isIFrame: bool)
      requires FileOk() && AtBoundary() && pos >= 0
      modifies this`fileOffset, this`curIdx, this`bufLen, this`pos, tagHeader, tagData
      ensures AtBoundary()
      ensures pos == Landing(old(pos), count)
      ensures isIFrame <==> pos < |tags| && IsI(tags[pos])
      ensures tagType == VIDEO <==> pos < |tags| && IsVideo(tags[pos])
      ensures pos < |tags| && IsVideo(tags[pos]) ==> (tagData[1] == 0x01 <==> IsFrame(tags[pos]))
    {
      if count >= 0 {
        MoveForward(count);
      } else {
        MoveBackward(-count);
      }
      tagType := AUDIO;
      BoundaryTests(file, raws, pos);
      if curIdx + TAG_HEADER_SIZE > totalBytes {
        return tagType, false;
      }
      HeaderBytes();
      tagType, isIFrame := Peek();
    }

    /** The counting loop of the seek: walks until `n` frames are counted or the walk hits an end. */
    method CountFramesFrom(dire: int, n: nat)
      requires FileOk() && AtBoundary() && pos >= 0
      requires n > 0 && (dire == 1 || dire == -1)
      modifies this`fileOffset, this`curIdx, this`bufLen, this`pos, tagHeader, tagData
      ensures AtBoundary() && pos >= 0
      ensures pos < |tags| ==> IsTarget(tags, old(pos), SeekCount(dire, n), pos)
      ensures pos == |tags| ==> RunsOffEnd(tags, old(pos), SeekCount(dire, n))
    {
      var count := n;
      while count > 0
        invariant AtBoundary() && pos >= 0 && count <= n
        invariant Scanning(tags, old(pos), dire, n, count, pos)
        decreases if dire == 1 then |tags| - pos else pos
      {
        ghost var before := pos;
        var tagType, isI := Move(dire);
        BoundaryTests(file, raws, pos);
        if curIdx + TAG_HEADER_SIZE > totalBytes || curIdx == FLV_HEADER_LENGTH + 4 {
          ScanBreaksOff(tags, old(pos), dire, n, count, before, pos);
          return;
        }
        ScanOn(tags, old(pos), dire, n, count, before, pos);
        if tagType == VIDEO && tagData[1] == 0x01 {
          count := count - 1;
        }
      }
      ScanSucceeds(tags, old(pos), dire, n, pos);
    }

    /** Pass `k + 1` of the loop that backs up from the end of any file: it leaves exactly at a VIDEO tag. */
    method BackPass(ghost k: nat) returns (isVideo: bool)
      requires FileOk() && AtBoundary() && pos == BackFromEnd(tags, k)
      modifies this`fileOffset, this`curIdx, this`bufLen, this`pos, tagHeader, tagData
      ensures AtBoundary() && pos == BackFromEnd(tags, k + 1)
      ensures isVideo <==> LeavesEndLoop(tags, k + 1)
    {
      var tagType, isI := Move(-1);
      isVideo := tagType == VIDEO;
    }

    /** The loop that backs up from the end of the file to the last VIDEO tag. */
    method BackToLastVideo()
      requires FileOk() && AtBoundary() && pos == |tags|
      requires HasVideo(tags)
      modifies this`fileOffset, this`curIdx, this`bufLen, this`pos, tagHeader, tagData
      ensures AtBoundary() && 0 <= pos < |tags| && IsVideo(tags[pos])
      ensures forall k :: pos < k < |tags| ==> !IsVideo(tags[k])
    {
      ghost var v :| 0 <= v < |tags| && IsVideo(tags[v]);
      ghost var passes := 0;
      while true
        invariant AtBoundary() && v < pos <= |tags|
        invariant pos == BackFromEnd(tags, passes)
        invariant forall k :: pos <= k < |tags| ==> !IsVideo(tags[k])
        decreases pos
      {
        var isVideo := BackPass(passes);
        passes := passes + 1;
        assert v <= pos < |tags| && (isVideo <==> IsVideo(tags[pos]));
        if isVideo {
          break;
        }
      }
    }

    /** The loop that backs up to the nearest I frame, counting the VIDEO tags it passes. */
    method BackToIFrame() returns (isIFrame: bool)
      requires FileOk() && AtBoundary() && 0 <= pos < |tags| && !IsI(tags[pos])
      modifies this`fileOffset, this`curIdx, this`bufLen, this`pos, this`regulateTagCount, tagHeader, tagData
      ensures AtBoundary() && BackingUp(tags, old(pos), pos, regulateTagCount, isIFrame)
      ensures !isIFrame ==> pos == 0
    {
      isIFrame := false;
      regulateTagCount := 0;
      BoundaryTests(file, raws, pos);
      while curIdx != FLV_HEADER_LENGTH + 4 && !isIFrame
        invariant AtBoundary() && BackingUp(tags, old(pos), pos, regulateTagCount, isIFrame)
        invariant curIdx == FLV_HEADER_LENGTH + 4 <==> pos == 0
        decreases pos
      {
        BackUpOn(tags, old(pos), pos, regulateTagCount);
        var tagType;
        tagType, isIFrame := Move(-1);
        BoundaryTests(file, raws, pos);
        if tagType == VIDEO {
          regulateTagCount := regulateTagCount + 1;
        }
      }
    }

    /** The search for the target, in either direction. */
    method SeekTarget(dire: int, n: nat)
      requires FileOk() && AtBoundary() && pos >= 0
      requires n > 0 && (dire == 1 || dire == -1) && SeekReturns(tags, false, SeekCount(dire, n))
      modifies this`fileOffset, this`curIdx, this`bufLen, this`pos, tagHeader, tagData
      ensures AtBoundary() && 0 <= pos < |tags| && IsTarget(tags, old(pos), SeekCount(dire, n), pos)
    {
      CountFramesFrom(dire, n);
      BoundaryTests(file, raws, pos);
      if curIdx + TAG_HEADER_SIZE > totalBytes {
        OffEndTarget(tags, old(pos), SeekCount(dire, n));
        BackToLastVideo();
      }
    }

    /** From the target on: decode it at once if it is an I frame, else back up to one. */
    method BackUpForDecoding()
      requires FileOk() && AtBoundary() && 0 <= pos < |tags| && isRegulating
      modifies this`fileOffset, this`curIdx, this`bufLen, this`pos, this`target
      modifies this`isRegulating, this`needIFrame, this`regulateTagCount, tagHeader, tagData
      ensures AtBoundary()
      ensures Abs() == AfterSeek(tags, old(Abs()).(regulating := false), old(pos))
    {
      ghost var t := pos;
      var tagType, isIFrame := Move(0);
      if tagType == VIDEO && isIFrame {
        isRegulating := false;
        return;
      }
      isIFrame := BackToIFrame();
      NearestIUnique(tags, t, if isIFrame then pos else -1);
      if !isIFrame {
        needIFrame := true;
        isRegulating := false;
      } else {
        target := t;
      }
    }

    /**
     `step_by_frame`: a seek to the target of `c` and from there back to an I frame.
     It delivers nothing, and its precondition holds of exactly the calls that return.
     */
    method StepByFrame(c: int)
      requires FileOk() && AtBoundary() && pos >= 0
      requires SeekReturns(tags, isRegulating, c)
      modifies this`fileOffset, this`curIdx, this`bufLen, this`pos, this`target
      modifies this`isRegulating, this`needIFrame, this`regulateTagCount, tagHeader, tagData
      ensures AtBoundary()
      ensures SeekStep(tags, old(Abs()), c, Abs())
    {
      if isRegulating {
        return;
      }
      isRegulating := true;
      var count := c - 1;
      if count == 0 {
        isRegulating := false;
        return;
      }
      var dire := if count > 0 then 1 else -1;
      SeekTarget(dire, if count > 0 then count else -count);
      ghost var t := pos;
      BackUpForDecoding();
      assert Abs() == AfterSeek(tags, old(Abs()), t);
    }

    /** Reports the parameter sets of the sequence header in `tagData`. */
    method HandleSpsPps(ghost sets: seq<Bytes>, ghost pictureSets: seq<Bytes>)
      requires HoldsConfig(tagData[..], sets, pictureSets)
      modifies this`callbacks
      ensures callbacks == old(callbacks)
                           + (VideoCallbacks(SPS, sets, !isRegulating)
                              + VideoCallbacks(PPS, pictureSets, !isRegulating))
      ensures |callbacks| == |old(callbacks)| + |sets| + |pictureSets|
      ensures forall i :: 0 <= i < |sets| ==>
                callbacks[|old(callbacks)| + i] == VideoCallback(SPS, sets[i], !isRegulating)
      ensures forall i :: 0 <= i < |pictureSets| ==>
                callbacks[|old(callbacks)| + |sets| + i] == VideoCallback(PPS, pictureSets[i], !isRegulating)
    {
      var sps, offset := ReportSets(tagData[..], 10, sets);
      callbacks := callbacks + VideoCallbacks(SPS, sps, !isRegulating);
      var pps, end := ReportSets(tagData[..], offset, pictureSets);
      callbacks := callbacks + VideoCallbacks(PPS, pps, !isRegulating);
    }

    /** Reports the NALU of the frame in `tagData`, unless it must wait for an I frame. */
    method HandleFrame(ghost t: Tag)
      requires IsFrame(t) && HoldsFrame(tagData[..], t.body.flags, t.body.nalu)
      modifies this`callbacks, this`needIFrame
      ensures callbacks == old(callbacks)
                           + if Delivers(t, old(needIFrame)) then TagCallbacks(t, !isRegulating) else []
      ensures needIFrame == (old(needIFrame) && !IsI(t))
    {
      var offset := 9;
      var dataLen := FromBe32(tagData[5], tagData[6], tagData[7], tagData[8]);
      var nalu := tagData[offset..offset + dataLen];
      assert nalu == tagData[..][9..9 + dataLen];
      if tagData[0] == KEY_FRAME {
        callbacks := callbacks + [VideoCallback(IDR, nalu, !isRegulating)];
        needIFrame := false;
      } else if !needIFrame {
        callbacks := callbacks + [VideoCallback(OTHER, nalu, !isRegulating)];
      }
    }

    method HandleAudio(len: nat, ghost t: Tag)
      requires t.body.Audio?
      requires HoldsAudio(tagData[..], len, t.body.flags, t.body.packetType, t.body.payload)
      modifies this`callbacks
      ensures callbacks == old(callbacks) + TagCallbacks(t, !isRegulating)
    {
      assert tagData[2..len] == tagData[..][2..len];
      var info := if tagData[1] == 0x00 then AUDIO_INFO else AUDIO_DATA;
      var channels := if tagData[0] == 0xAE then MONO else STEREO;
      callbacks := callbacks + [AudioCallback(info, channels, tagData[2..len], !isRegulating)];
    }

    method HandleVideo(len: nat, ghost t: Tag)
      requires IsVideo(t) && Holds(tagData[..], len, t.body)
      modifies this`callbacks, this`needIFrame
      ensures callbacks == old(callbacks)
                           + if Delivers(t, old(needIFrame)) then TagCallbacks(t, !isRegulating) else []
      ensures needIFrame == (old(needIFrame) && !IsI(t))
    {
      if tagData[1] == 0x00 {
        HandleSpsPps(t.body.sps, t.body.pps);
      } else {
        HandleFrame(t);
      }
    }

    /** The callbacks of one whole tag, dispatched on its type and second data byte. */
    method HandleTag(tagType: byte, len: nat, ghost t: Tag)
      requires tagType == Kind(t.body) && Holds(tagData[..], len, t.body)
      modifies this`callbacks, this`needIFrame
      ensures callbacks == old(callbacks)
                           + if Delivers(t, old(needIFrame)) then TagCallbacks(t, !isRegulating) else []
      ensures needIFrame == (old(needIFrame) && !IsI(t))
    {
      if tagType == VIDEO {
        HandleVideo(len, t);
      } else if tagType == AUDIO {
        HandleAudio(len, t);
      }
    }

    /** Compares the nine bytes just read with the FLV header, byte 4 excepted. */
    method IsFlvHeader() returns (isHeader: bool)
      requires tagHeader.Length == TAG_HEADER_SIZE
      ensures isHeader <==> tagHeader[..FLV_HEADER_LENGTH] == FlvHeader(tagHeader[4])
    {
      ghost var header := FlvHeader(tagHeader[4]);
      var expected := FlvHeader(0);
      for i := 0 to FLV_HEADER_LENGTH
        invariant forall k :: 0 <= k < i ==> tagHeader[k] == header[k]
      {
        if i != 4 && tagHeader[i] != expected[i] {
          assert tagHeader[..FLV_HEADER_LENGTH][i] != header[i];
          return false;
        }
      }
      return true;
    }

    /** With nine header bytes read, reads the rest of the header and the data of the tag at `at`. */
    method ReadRestOfTag(ghost t: RawTag, ghost at: nat)
      requires tagHeader.Length == TAG_HEADER_SIZE && tagData.Length == TAG_DATA_SIZE && tagHeader != tagData
      requires ValidRaw(t) && Fields(file, at, t)
      requires fileOffset == curIdx == at + FLV_HEADER_LENGTH
      requires forall k :: 0 <= k < FLV_HEADER_LENGTH ==> tagHeader[k] == file[at + k]
      modifies this`fileOffset, this`curIdx, this`bufLen, tagHeader, tagData
      ensures bufLen == |t.data| && tagHeader[0] == t.kind
      ensures fileOffset == curIdx == at + TAG_HEADER_SIZE + bufLen
      ensures tagData[..bufLen] == t.data
    {
      var got := Read(tagHeader, FLV_HEADER_LENGTH, TAG_HEADER_SIZE - FLV_HEADER_LENGTH);
      curIdx := curIdx + got;
      assert tagHeader[0] == file[at] && tagHeader[1] == file[at + 1];
      assert tagHeader[2] == file[at + 2] && tagHeader[3] == file[at + 3];
      bufLen := FromBe24(tagHeader[1], tagHeader[2], tagHeader[3]);
      got := Read(tagData, 0, bufLen);
      curIdx := curIdx + got;
      assert tagData[..bufLen] == file[at + 11..at + 11 + bufLen];
    }

    /** What a fed tag does to the step request and to a silent replay. */
    method CountTag(ghost t: Tag)
      requires tagHeader.Length == TAG_HEADER_SIZE && tagData.Length == TAG_DATA_SIZE
      requires tagHeader[0] == Kind(t.body)
      requires IsVideo(t) ==> (tagData[1] == 0x01 <==> IsFrame(t))
      modifies this`stepOneFrame, this`isRegulating, this`regulateTagCount
      ensures stepOneFrame == (old(stepOneFrame) && (old(isRegulating) || !IsFrame(t)))
      ensures regulateTagCount == old(regulateTagCount) - if old(isRegulating) && IsVideo(t) then 1 else 0
      ensures isRegulating == (old(isRegulating) && !(IsVideo(t) && regulateTagCount == 0))
    {
      if stepOneFrame && !isRegulating && tagHeader[0] % 0x20 == VIDEO && tagData[1] == 0x01 {
        stepOneFrame := false;
      }
      if isRegulating && tagHeader[0] % 0x20 == VIDEO {
        regulateTagCount := regulateTagCount - 1;
        if regulateTagCount == 0 {
          isRegulating := false;
        }
      }
    }

    /** With nine header bytes read, reads the tag at `at` and hands it to the callbacks. */
    method ReadAndHandle(ghost r: RawTag, ghost t: Tag, ghost at: nat)
      requires tagHeader.Length == TAG_HEADER_SIZE && tagData.Length == TAG_DATA_SIZE && tagHeader != tagData
      requires Carries(r, t) && Fields(file, at, r)
      requires fileOffset == curIdx == at + FLV_HEADER_LENGTH
      requires forall k :: 0 <= k < FLV_HEADER_LENGTH ==> tagHeader[k] == file[at + k]
      modifies this`fileOffset, this`curIdx, this`bufLen, this`callbacks, this`needIFrame, tagHeader, tagData
      ensures fileOffset == curIdx == at + TagSize(r) - PREVIOUS_TAG_SIZE
      ensures callbacks == old(callbacks)
                           + if Delivers(t, old(needIFrame)) then TagCallbacks(t, !isRegulating) else []
      ensures needIFrame == (old(needIFrame) && !IsI(t))
      ensures tagHeader[0] == Kind(t.body)
      ensures IsVideo(t) ==> (tagData[1] == 0x01 <==> IsFrame(t))
    {
      ReadRestOfTag(r, at);
      assert tagData[..][..bufLen] == tagData[..bufLen];
      assert Holds(tagData[..], bufLen, t.body);
      assert IsVideo(t) ==> tagData[1] == tagData[..bufLen][1];
      HandleTag(tagHeader[0] % 0x20, bufLen, t);
    }

    /** Reads nine bytes and tells the FLV header, at the start of the file, from a tag. */
    method ReadStart() returns (isHeader: bool)
      requires HeaderOk() && tagHeader.Length == TAG_HEADER_SIZE
      requires fileOffset == curIdx && curIdx + FLV_HEADER_LENGTH <= |file|
      requires curIdx == 0 || file[curIdx] != 0x46
      modifies this`fileOffset, this`curIdx, tagHeader
      ensures isHeader <==> old(curIdx) == 0
      ensures fileOffset == curIdx == old(curIdx) + FLV_HEADER_LENGTH
      ensures forall k :: 0 <= k < FLV_HEADER_LENGTH ==> tagHeader[k] == file[old(curIdx) + k]
    {
      var got := Read(tagHeader, 0, FLV_HEADER_LENGTH);
      curIdx := curIdx + got;
      isHeader := IsFlvHeader();
      if old(curIdx) == 0 {
        assert tagHeader[..FLV_HEADER_LENGTH] == file[..FLV_HEADER_LENGTH];
        assert tagHeader[4] == file[..FLV_HEADER_LENGTH][4] == streams;
      } else {
        assert tagHeader[..FLV_HEADER_LENGTH][0] == file[old(curIdx)];
      }
    }

    /** The bookkeeping that ends an iteration which fed tag `t`. */
    method FinishTag(ghost t: Tag, ghost neededI: bool)
      requires tagHeader.Length == TAG_HEADER_SIZE && tagData.Length == TAG_DATA_SIZE && tagHeader != tagData
      requires tagHeader[0] == Kind(t.body)
      requires IsVideo(t) ==> (tagData[1] == 0x01 <==> IsFrame(t))
      requires needIFrame == (neededI && !IsI(t)) && pos >= 0
      modifies this`fileOffset, this`curIdx, this`pos, this`log
      modifies this`stepOneFrame, this`isRegulating, this`regulateTagCount
      ensures fileOffset == old(fileOffset) + PREVIOUS_TAG_SIZE && curIdx == old(curIdx) + PREVIOUS_TAG_SIZE
      ensures Abs() == FedTag(t, old(Abs()).(needI := neededI))
    {
      log := if Delivers(t, neededI) then log + [Delivery(pos, !isRegulating)] else log;
      CountTag(t);
      fileOffset := fileOffset + PREVIOUS_TAG_SIZE;
      curIdx := curIdx + PREVIOUS_TAG_SIZE;
      pos := pos + 1;
    }

    /** The iterations that feed a tag, once its first nine bytes are read. */
    method FeedNextTag(ghost r: RawTag, ghost t: Tag, ghost at: nat)
      requires tagHeader.Length == TAG_HEADER_SIZE && tagData.Length == TAG_DATA_SIZE && tagHeader != tagData
      requires Carries(r, t) && Fields(file, at, r)
      requires fileOffset == curIdx == at + FLV_HEADER_LENGTH
      requires forall k :: 0 <= k < FLV_HEADER_LENGTH ==> tagHeader[k] == file[at + k]
      requires pos >= 0
      modifies this`fileOffset, this`curIdx, this`bufLen, this`pos, this`callbacks, this`log
      modifies this`needIFrame, this`stepOneFrame, this`isRegulating, this`regulateTagCount, tagHeader, tagData
      ensures fileOffset == curIdx == at + TagSize(r)
      ensures callbacks == old(callbacks)
                           + if Delivers(t, old(needIFrame)) then TagCallbacks(t, !old(isRegulating)) else []
      ensures Abs() == FedTag(t, old(Abs()))
    {
      ReadAndHandle(r, t, at);
      FinishTag(t, old(needIFrame));
    }

    /** The same at the tag the file is positioned at. */
    method FeedTagHere(ghost at: nat)
      requires FileOk() && totalBytes == |file| && 0 <= pos < |tags| && at == Offset(raws, pos)
      requires fileOffset == curIdx == at + FLV_HEADER_LENGTH <= |file|
      requires forall k :: 0 <= k < FLV_HEADER_LENGTH ==> tagHeader[k] == file[at + k]
      modifies this`fileOffset, this`curIdx, this`bufLen, this`pos, this`callbacks, this`log
      modifies this`needIFrame, this`stepOneFrame, this`isRegulating, this`regulateTagCount, tagHeader, tagData
      ensures AtBoundary()
      ensures callbacks == old(callbacks)
                           + if Delivers(tags[old(pos)], old(needIFrame))
                             then TagCallbacks(tags[old(pos)], !old(isRegulating)) else []
      ensures Abs() == FedTag(tags[old(pos)], old(Abs()))
    {
      assert Carries(raws[pos], tags[pos]);
      TagFields(file, raws, pos);
      FeedNextTag(raws[pos], tags[pos], at);
    }

    /** A tag never starts with the first byte of the FLV header. */
    lemma {:induction false} TagIsNoHeader()
      requires FileOk() && AtBoundary() && 0 <= pos < |tags|
      ensures curIdx + FLV_HEADER_LENGTH <= |file| && file[curIdx] != 0x46
    {
      assert Carries(raws[pos], tags[pos]);
      TagFields(file, raws, pos);
    }

    /** One iteration of the feed loop past its gate, under the lock. */
    method FeedIteration()
      requires Valid()
      modifies this`fileOffset, this`curIdx, this`bufLen, this`pos, this`callbacks, this`log
      modifies this`needIFrame, this`stepOneFrame, this`isRegulating, this`regulateTagCount, tagHeader, tagData
      ensures Valid()
      ensures Abs() == FeedStep(tags, old(Abs()))
    {
      if pos >= 0 {
        BoundaryTests(file, raws, pos);
      }
      if curIdx + FLV_HEADER_LENGTH > totalBytes {
        return;
      }
      ghost var at := curIdx;
      if pos >= 0 {
        TagIsNoHeader();
      }
      var isHeader := ReadStart();
      if isHeader {
        fileOffset := fileOffset + PREVIOUS_TAG_SIZE;
        curIdx := curIdx + PREVIOUS_TAG_SIZE;
        pos := 0;
      } else {
        CallbacksExtend(tags, log, Delivery(pos, !isRegulating), Delivers(tags[pos], needIFrame));
        FeedTagHere(at);
      }
    }

    /**
     `passes` turns of the feed loop. Played from the start, the bytes of a file give
     exactly the callbacks of its tags in order, minus the frames before the first I
     frame, and the position ends at the last byte.
     */
    method FeedTask(passes: nat)
      requires Valid()
      modifies this`fileOffset, this`curIdx, this`bufLen, this`pos, this`callbacks, this`log
      modifies this`needIFrame, this`stepOneFrame, this`isRegulating, this`regulateTagCount, tagHeader, tagData
      ensures Valid()
      ensures Abs() == FeedPasses(tags, old(Abs()), passes)
      ensures Started(old(Abs())) && passes > |tags| ==>
                && curIdx == totalBytes && callbacks == Callbacks(tags, Playback(tags, |tags|))
                && VideoData(callbacks) == UnitsFrom(tags, FirstI(tags), |tags|)
                && AudioData(callbacks) == AudioPayloads(tags, |tags|)
    {
      for pass := 0 to passes
        invariant Valid()
        invariant Abs() == FeedPasses(tags, old(Abs()), pass)
      {
        if isPause && !stepOneFrame {
          continue;
        }
        FeedIteration();
      }
      if Started(old(Abs())) && passes > |tags| {
        PlaysWholeFile(tags, old(Abs()), passes);
        PlaybackData(tags, |tags|);
      }
    }

    method Pause()
      requires Valid()
      modifies this`isPause
      ensures Valid() && Abs() == old(Abs()).(pause := !old(isPause))
    {
      isPause := !isPause;
    }

    method StepOneFrameForward()
      requires Valid()
      modifies this`isPause, this`stepOneFrame
      ensures Valid() && Abs() == old(Abs()).(pause := true, stepOne := true)
    {
      isPause := true;
      stepOneFrame := true;
    }

    method StepOneFrameBackward()
      requires Valid() && pos >= 0 && SeekReturns(tags, isRegulating, -1)
      modifies this`fileOffset, this`curIdx, this`bufLen, this`pos, this`target
      modifies this`isRegulating, this`needIFrame, this`regulateTagCount, this`isPause, this`stepOneFrame
      modifies tagHeader, tagData
      ensures Valid() && stepOneFrame
      ensures SeekStep(tags, old(Abs()).(pause := true), -1, Abs().(stepOne := old(stepOneFrame)))
    {
      isPause := true;
      StepByFrame(-1);
      stepOneFrame := true;
    }

    /** `step_by_seconds`, run to the end of its helper thread. */
    method StepBySeconds(sec: int, fps: nat)
      requires Valid() && pos >= 0 && SeekReturns(tags, isRegulating, sec * fps)
      modifies this`fileOffset, this`curIdx, this`bufLen, this`pos, this`target
      modifies this`isRegulating, this`needIFrame, this`regulateTagCount, this`isPause
      modifies tagHeader, tagData
      ensures Valid() && !isPause
      ensures SeekStep(tags, old(Abs()).(pause := true), sec * fps, Abs().(pause := true))
    {
      isPause := true;
      StepByFrame(sec * fps);
      isPause := false;
    }
  }
}
