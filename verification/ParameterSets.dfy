/**
 The parameter-set arrays of an AVCDecoderConfigurationRecord (section 5.2.4.1 of
 ISO/IEC 14496-15:2010) and the parsing loop that FlvPlayer and VideoCapture share.
 */
module ParameterSets {
  import opened Bytes

  /** At most 31 sets (the parser masks the count with 0x1F), 16-bit lengths. */
  ghost predicate ValidSets(sets: seq<Bytes>) {
    |sets| <= 31 && forall s :: s in sets ==> |s| < 0x1_0000
  }

  /** Each set preceded by its length on 16 bits. */
  function SetBytes(sets: seq<Bytes>): Bytes
    requires forall s :: s in sets ==> |s| < 0x1_0000
  {
    if sets == [] then [] else Be16(|sets[0]|) + sets[0] + SetBytes(sets[1..])
  }

  lemma {:induction false} SetBytesSplit(sets: seq<Bytes>, i: nat)
    requires forall s :: s in sets ==> |s| < 0x1_0000
    requires i <= |sets|
    ensures SetBytes(sets) == SetBytes(sets[..i]) + SetBytes(sets[i..])
  {
    if i == 0 {
      assert sets[..0] == [] && sets[0..] == sets;
    } else {
      SetBytesSplit(sets[1..], i - 1);
      assert sets[..i][1..] == sets[1..][..i - 1];
      assert sets[1..][i - 1..] == sets[i..];
    }
  }

  /** Set `i` starts, with its length field, right after the first `i` sets. */
  lemma {:induction false} SetAt(sets: seq<Bytes>, i: nat)
    requires forall s :: s in sets ==> |s| < 0x1_0000
    requires i < |sets|
    ensures SetBytes(sets) == SetBytes(sets[..i]) + Be16(|sets[i]|) + sets[i] + SetBytes(sets[i + 1..])
    ensures SetBytes(sets[..i + 1]) == SetBytes(sets[..i]) + Be16(|sets[i]|) + sets[i]
  {
    SetBytesSplit(sets, i);
    assert sets[i..][1..] == sets[i + 1..];
    SetBytesSplit(sets[..i + 1], i);
    assert sets[..i + 1][..i] == sets[..i];
    assert sets[..i + 1][i..] == [sets[i]];
    assert SetBytes([sets[i]]) == Be16(|sets[i]|) + sets[i];
  }

  lemma {:induction false} SetBetween(buf: Bytes, from: nat, before: Bytes, head: Bytes, item: Bytes, after: Bytes)
    requires |head| == 2
    requires var all := before + head + item + after; from + |all| <= |buf| && buf[from..from + |all|] == all
    ensures var at := from + |before|;
            && buf[at] == head[0] && buf[at + 1] == head[1]
            && buf[at + 2..at + 2 + |item|] == item
  {
    var all, at := before + head + item + after, from + |before|;
    assert forall k {:trigger all[k]} :: 0 <= k < |all| ==> buf[from + k] == all[k];
    assert all[|before|] == head[0] && all[|before| + 1] == head[1];
    forall k | 0 <= k < |item|
      ensures buf[at + 2..at + 2 + |item|][k] == item[k]
    {
      assert all[|before| + 2 + k] == item[k];
    }
  }

  /** Where set `i` lies in a buffer that holds the sets from `from` on. */
  lemma {:induction false} SetInBuffer(buf: Bytes, from: nat, sets: seq<Bytes>, i: nat)
    requires forall s :: s in sets ==> |s| < 0x1_0000
    requires i < |sets|
    requires from + |SetBytes(sets)| <= |buf| && buf[from..from + |SetBytes(sets)|] == SetBytes(sets)
    ensures var at, len := from + |SetBytes(sets[..i])|, |sets[i]|;
            && at + 2 + len <= |buf|
            && FromBe16(buf[at], buf[at + 1]) == len
            && buf[at + 2..at + 2 + len] == sets[i]
            && from + |SetBytes(sets[..i + 1])| == at + 2 + len
  {
    SetAt(sets, i);
    var before, item, after := SetBytes(sets[..i]), sets[i], SetBytes(sets[i + 1..]);
    var head := Be16(|item|);
    SetBetween(buf, from, before, head, item, after);
    BeRoundTrip16(|item|);
  }

  /**
   One counted array of parameter sets starting at `start`: `found` is what the
   callback receives, in order, and `offset` is where the caller goes on reading.
   */
  method ReportSets(buf: Bytes, start: nat, ghost sets: seq<Bytes>) returns (found: seq<Bytes>, offset: nat)
    requires ValidSets(sets)
    requires start + 1 + |SetBytes(sets)| <= |buf|
    requires buf[start] % 0x20 == |sets|
    requires buf[start + 1..start + 1 + |SetBytes(sets)|] == SetBytes(sets)
    ensures found == sets
    ensures offset == start + 1 + |SetBytes(sets)|
  {
    offset := start;
    var num := buf[offset] % 0x20;
    offset := offset + 1;
    found := [];
    assert sets[..0] == [];
    for i := 0 to num
      invariant found == sets[..i]
      invariant offset == start + 1 + |SetBytes(sets[..i])|
    {
      SetInBuffer(buf, start + 1, sets, i);
      var num0, num1 := buf[offset], buf[offset + 1];
      offset := offset + 2;
      var len := FromBe16(num0, num1);
      found := found + [buf[offset..offset + len]];
      offset := offset + len;
      assert sets[..i + 1] == sets[..i] + [sets[i]];
    }
    assert sets[..num] == sets;
  }
}
