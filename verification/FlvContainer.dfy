/**
 The FLV container (sections E.3 and E.4.1 of the Adobe Flash Video File Format
 Specification, version 10.1): where each tag lies in the bytes of a file.
 */
module FlvContainer {
  import opened Bytes

  const FLV_HEADER_LENGTH := 9
  const TAG_HEADER_SIZE := 11
  const TAG_DATA_SIZE := 0x10_0000
  const PREVIOUS_TAG_SIZE := 4

  /** `stamp` is the timestamp and stream id, seven bytes the player never looks at. */
  datatype RawTag = RawTag(kind: byte, stamp: Bytes, data: Bytes)

  ghost predicate ValidRaw(t: RawTag) {
    |t.stamp| == 7 && |t.data| <= TAG_DATA_SIZE
  }

  ghost predicate ValidRaws(tags: seq<RawTag>) {
    forall i :: 0 <= i < |tags| ==> ValidRaw(tags[i])
  }

  /** Tag header, data and the PreviousTagSize field that closes the tag. */
  function TagBytes(t: RawTag): (r: Bytes)
    requires ValidRaw(t)
    ensures |r| == TAG_HEADER_SIZE + |t.data| + PREVIOUS_TAG_SIZE
  {
    [t.kind] + Be24(|t.data|) + t.stamp + t.data + Be32(TAG_HEADER_SIZE + |t.data|)
  }

  function Stream(tags: seq<RawTag>): Bytes
    requires ValidRaws(tags)
  {
    if tags == [] then [] else TagBytes(tags[0]) + Stream(tags[1..])
  }

  /** The nine-byte header; byte 4 tells which streams the file has. */
  function FlvHeader(streams: byte): Bytes {
    [0x46, 0x4C, 0x56, 0x01, streams, 0x00, 0x00, 0x00, 0x09]
  }

  function File(streams: byte, tags: seq<RawTag>): Bytes
    requires ValidRaws(tags)
  {
    FlvHeader(streams) + Be32(0) + Stream(tags)
  }

  /** Byte position of tag `i`; -1 stands for the start of the file, before the FLV header. */
  function Offset(tags: seq<RawTag>, i: int): nat
    requires -1 <= i <= |tags|
    decreases i
  {
    if i == -1 then 0
    else if i == 0 then FLV_HEADER_LENGTH + PREVIOUS_TAG_SIZE
    else Offset(tags, i - 1) + TAG_HEADER_SIZE + |tags[i - 1].data| + PREVIOUS_TAG_SIZE
  }

  lemma {:induction false} StreamFront(tags: seq<RawTag>, i: nat)
    requires ValidRaws(tags)
    requires 0 < i <= |tags|
    ensures Stream(tags[..i]) == TagBytes(tags[0]) + Stream(tags[..i][1..])
  {
    assert tags[..i][0] == tags[0];
  }

  lemma Associates(a: Bytes, b: Bytes, c: Bytes)
    ensures a + (b + c) == (a + b) + c
  {
  }

  lemma {:induction false} StreamSplit(tags: seq<RawTag>, i: nat)
    requires ValidRaws(tags)
    requires i <= |tags|
    ensures Stream(tags) == Stream(tags[..i]) + Stream(tags[i..])
  {
    if i == 0 {
      assert tags[..0] == [] && tags[0..] == tags;
    } else {
      StreamSplit(tags[1..], i - 1);
      assert tags[1..][i - 1..] == tags[i..];
      assert tags[..i][1..] == tags[1..][..i - 1];
      StreamFront(tags, i);
      Associates(TagBytes(tags[0]), Stream(tags[1..][..i - 1]), Stream(tags[i..]));
    }
  }

  lemma {:induction false} OffsetIsPrefixLength(tags: seq<RawTag>, i: nat)
    requires ValidRaws(tags)
    requires i <= |tags|
    ensures Offset(tags, i) == FLV_HEADER_LENGTH + PREVIOUS_TAG_SIZE + |Stream(tags[..i])|
  {
    if i == 0 {
      assert tags[..0] == [];
    } else {
      OffsetIsPrefixLength(tags, i - 1);
      var front := tags[..i];
      StreamSplit(front, i - 1);
      assert front[..i - 1] == tags[..i - 1];
      assert front[i - 1..] == [tags[i - 1]];
      assert Stream([tags[i - 1]]) == TagBytes(tags[i - 1]) + Stream([]);
    }
  }

  function TagSize(t: RawTag): nat {
    TAG_HEADER_SIZE + |t.data| + PREVIOUS_TAG_SIZE
  }

  function SizeField(file: Bytes, at: nat): nat
    requires at + PREVIOUS_TAG_SIZE <= |file|
  {
    FromBe32(file[at], file[at + 1], file[at + 2], file[at + 3])
  }

  ghost predicate Fields(file: Bytes, at: nat, t: RawTag) {
    && at + TagSize(t) <= |file|
    && file[at] == t.kind
    && FromBe24(file[at + 1], file[at + 2], file[at + 3]) == |t.data|
    && file[at + 11..at + 11 + |t.data|] == t.data
    && SizeField(file, at + 11 + |t.data|) == TAG_HEADER_SIZE + |t.data|
  }

  /** The fields of tag `i`, read at its place in the file. */
  ghost predicate TagFills(file: Bytes, tags: seq<RawTag>, i: nat)
    requires i < |tags|
  {
    Fields(file, Offset(tags, i), tags[i]) && Offset(tags, i) + TagSize(tags[i]) == Offset(tags, i + 1)
  }

  /**
   A file laid out for walking: every tag fills the bytes from its offset to the next
   one, the last tag ends the file, and the size field before the first tag is zero.
   */
  ghost predicate Laid(file: Bytes, tags: seq<RawTag>) {
    && ValidRaws(tags)
    && |file| == Offset(tags, |tags|) >= FLV_HEADER_LENGTH + PREVIOUS_TAG_SIZE
    && SizeField(file, FLV_HEADER_LENGTH) == 0
    && (forall i {:trigger TagFills(file, tags, i)} :: 0 <= i < |tags| ==> TagFills(file, tags, i))
  }

  /** One tag's bytes have its fields. */
  lemma {:induction false} TagLayout(t: RawTag)
    requires ValidRaw(t)
    ensures Fields(TagBytes(t), 0, t)
  {
    BeRoundTrip24(|t.data|);
    BeRoundTrip32(TAG_HEADER_SIZE + |t.data|);
  }

  /** Fields do not depend on what comes before and after the tag. */
  lemma {:induction false} FieldsShift(before: Bytes, tag: Bytes, after: Bytes, t: RawTag)
    requires Fields(tag, 0, t)
    ensures Fields(before + tag + after, |before|, t)
  {
    var file, n := before + tag + after, |before|;
    assert forall k {:trigger tag[k]} :: 0 <= k < |tag| ==> file[n + k] == tag[k];
    assert file[n + 11..n + 11 + |t.data|] == tag[11..11 + |t.data|];
    var e := 11 + |t.data|;
    assert file[n + 0] == tag[0] && file[n + 1] == tag[1] && file[n + 2] == tag[2] && file[n + 3] == tag[3];
    assert file[n + e] == tag[e] && file[n + (e + 1)] == tag[e + 1];
    assert file[n + (e + 2)] == tag[e + 2] && file[n + (e + 3)] == tag[e + 3];
  }

  lemma {:induction false} StreamAt(tags: seq<RawTag>, i: nat)
    requires ValidRaws(tags)
    requires i < |tags|
    ensures Stream(tags) == Stream(tags[..i]) + (TagBytes(tags[i]) + Stream(tags[i + 1..]))
  {
    StreamSplit(tags, i);
    assert tags[i..][0] == tags[i] && tags[i..][1..] == tags[i + 1..];
  }

  lemma {:induction false} FieldsWithin(file: Bytes, head: Bytes, before: Bytes, tag: Bytes, after: Bytes, t: RawTag)
    requires Fields(tag, 0, t)
    requires file == head + (before + (tag + after))
    ensures Fields(file, |head| + |before|, t)
  {
    assert file == (head + before) + tag + after;
    FieldsShift(head + before, tag, after, t);
  }

  lemma {:induction false} FieldsAt(file: Bytes, head: Bytes, tags: seq<RawTag>, i: nat)
    requires ValidRaws(tags)
    requires i < |tags|
    requires file == head + Stream(tags)
    ensures Fields(file, |head| + |Stream(tags[..i])|, tags[i])
  {
    StreamAt(tags, i);
    var t := tags[i];
    var before, tag, after := Stream(tags[..i]), TagBytes(t), Stream(tags[i + 1..]);
    assert Fields(tag, 0, t) by { TagLayout(t); }
    FieldsWithin(file, head, before, tag, after, t);
  }

  lemma {:induction false} TagAt(file: Bytes, head: Bytes, tags: seq<RawTag>, i: nat)
    requires ValidRaws(tags)
    requires i < |tags|
    requires |head| == FLV_HEADER_LENGTH + PREVIOUS_TAG_SIZE
    requires file == head + Stream(tags)
    ensures TagFills(file, tags, i)
  {
    OffsetIsPrefixLength(tags, i);
    FieldsAt(file, head, tags, i);
  }

  lemma HeaderAt(streams: byte, stream: Bytes)
    ensures var file := FlvHeader(streams) + Be32(0) + stream;
            && file == (FlvHeader(streams) + Be32(0)) + stream
            && file[..FLV_HEADER_LENGTH] == FlvHeader(streams)
            && SizeField(file, FLV_HEADER_LENGTH) == 0
  {
  }

  /** Every FLV file is laid out for walking. */
  lemma {:induction false} FileIsLaid(streams: byte, tags: seq<RawTag>)
    requires ValidRaws(tags)
    ensures Laid(File(streams, tags), tags)
    ensures File(streams, tags)[..FLV_HEADER_LENGTH] == FlvHeader(streams)
  {
    var file, head := File(streams, tags), FlvHeader(streams) + Be32(0);
    HeaderAt(streams, Stream(tags));
    assert |file| == Offset(tags, |tags|) by {
      OffsetIsPrefixLength(tags, |tags|);
      assert tags[..|tags|] == tags;
    }
    forall i: nat | i < |tags|
      ensures TagFills(file, tags, i)
    {
      TagAt(file, head, tags, i);
    }
  }

  lemma {:induction false} OffsetMonotone(tags: seq<RawTag>, i: int, j: int)
    requires -1 <= i <= j <= |tags|
    ensures Offset(tags, i) <= Offset(tags, j)
    ensures 0 <= i < j ==> Offset(tags, i) + TAG_HEADER_SIZE + PREVIOUS_TAG_SIZE <= Offset(tags, j)
    decreases j
  {
    if i == j {
    } else {
      OffsetMonotone(tags, i, j - 1);
    }
  }

  /**
   The two end-of-file tests and the start-of-tags test of the player, made on
   byte positions, are tests on the tag index.
   */
  lemma {:induction false} BoundaryTests(file: Bytes, tags: seq<RawTag>, i: nat)
    requires Laid(file, tags)
    requires i <= |tags|
    ensures Offset(tags, i) <= |file|
    ensures Offset(tags, i) + TAG_HEADER_SIZE > |file| <==> i == |tags|
    ensures Offset(tags, i) + FLV_HEADER_LENGTH > |file| <==> i == |tags|
    ensures Offset(tags, i) == FLV_HEADER_LENGTH + PREVIOUS_TAG_SIZE <==> i == 0
    ensures Offset(tags, i) >= FLV_HEADER_LENGTH + PREVIOUS_TAG_SIZE
  {
    OffsetMonotone(tags, i, |tags|);
    OffsetMonotone(tags, 0, i);
  }

  /** What the player reads off the header of tag `i`, and where the next tag starts. */
  lemma {:induction false} TagFields(file: Bytes, tags: seq<RawTag>, i: nat)
    requires Laid(file, tags)
    requires i < |tags|
    ensures Fields(file, Offset(tags, i), tags[i])
    ensures Offset(tags, i + 1) == Offset(tags, i) + TagSize(tags[i]) <= |file|
  {
    assert TagFills(file, tags, i);
  }

  lemma {:induction false} FirstDataBytes(file: Bytes, at: nat, t: RawTag)
    requires Fields(file, at, t) && |t.data| >= 2
    ensures file[at + 11] == t.data[0] && file[at + 12] == t.data[1]
  {
    assert file[at + 11..at + 11 + |t.data|][0] == file[at + 11];
    assert file[at + 11..at + 11 + |t.data|][1] == file[at + 12];
  }

  lemma SizeAfterData(file: Bytes, at: nat, t: RawTag)
    requires Fields(file, at, t)
    ensures SizeField(file, at + TagSize(t) - PREVIOUS_TAG_SIZE) == TAG_HEADER_SIZE + |t.data|
  {
  }

  /** The four bytes before tag `i` give the size of the tag before it, zero before the first tag. */
  lemma {:induction false} PreviousTagSize(file: Bytes, tags: seq<RawTag>, i: nat)
    requires Laid(file, tags)
    requires i <= |tags|
    ensures PREVIOUS_TAG_SIZE <= Offset(tags, i) <= |file|
    ensures SizeField(file, Offset(tags, i) - PREVIOUS_TAG_SIZE)
            == if i == 0 then 0 else TAG_HEADER_SIZE + |tags[i - 1].data|
  {
    if i > 0 {
      TagFields(file, tags, i - 1);
      SizeAfterData(file, Offset(tags, i - 1), tags[i - 1]);
    }
  }
}
