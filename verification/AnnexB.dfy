/** The byte stream format of ITU-T H.264 Annex B, read by a decoder. */
module AnnexB {
  import opened Bytes

  /** Bytes up to and including the first start code prefix 00 00 01; -1 if there is none. */
  function UnitStart(s: Bytes): (n: int)
    ensures -1 <= n <= |s|
    ensures n != -1 ==> n >= 3
  {
    if |s| < 3 then -1
    else if s[0] == 0 && s[1] == 0 && s[2] == 1 then 3
    else
      var n := UnitStart(s[1..]);
      if n == -1 then -1 else n + 1
  }

  /** A NAL unit extends to the next 00 00 00 or 00 00 01 or to the end of the stream. */
  predicate UnitEndsAt(s: Bytes) {
    s == [] || (|s| >= 3 && s[0] == 0 && s[1] == 0 && s[2] <= 1)
  }

  function UnitLength(s: Bytes): (n: nat)
    ensures n <= |s|
  {
    if UnitEndsAt(s) then 0 else 1 + UnitLength(s[1..])
  }

  /** The NAL units of a byte stream (section B.1.1). */
  function Split(s: Bytes): seq<Bytes>
    decreases |s|
  {
    var start := UnitStart(s);
    if start == -1 then []
    else
      var t := s[start..];
      [t[..UnitLength(t)]] + Split(t[UnitLength(t)..])
  }

  predicate NoStartCodeInside(u: Bytes) {
    forall i :: 0 <= i && i + 2 < |u| ==> !(u[i] == 0 && u[i + 1] == 0 && u[i + 2] <= 1)
  }

  /** What section 7.4.1 gives of a NAL unit: no start code inside, no zero byte at its end. */
  predicate WellFormedUnit(u: Bytes) {
    && u != []
    && u[|u| - 1] != 0
    && NoStartCodeInside(u)
  }

  function StartCode(long: bool): Bytes {
    if long then [0x00, 0x00, 0x00, 0x01] else [0x00, 0x00, 0x01]
  }

  /** Units written one after the other, each behind a start code of either length. */
  function Written(long: seq<bool>, units: seq<Bytes>): Bytes
    requires |long| == |units|
  {
    if units == [] then []
    else StartCode(long[0]) + units[0] + Written(long[1..], units[1..])
  }

  lemma {:induction false} NoStartCodeInRest(u: Bytes)
    requires NoStartCodeInside(u) && u != []
    ensures NoStartCodeInside(u[1..])
  {
    var rest := u[1..];
    forall i | 0 <= i && i + 2 < |rest|
      ensures !(rest[i] == 0 && rest[i + 1] == 0 && rest[i + 2] <= 1)
    {
      assert rest[i] == u[i + 1] && rest[i + 1] == u[(i + 1) + 1] && rest[i + 2] == u[(i + 1) + 2];
    }
  }

  /** No unit ends inside it. */
  lemma {:induction false} NoEndInside(u: Bytes, rest: Bytes)
    requires NoStartCodeInside(u) && u != [] && u[|u| - 1] != 0
    ensures !UnitEndsAt(u + rest)
  {
    var s := u + rest;
    if |u| >= 3 {
      assert s[0] == u[0] && s[1] == u[0 + 1] && s[2] == u[0 + 2];
    } else {
      assert s[|u| - 1] == u[|u| - 1];
    }
  }

  lemma {:induction false} UnitLengthIs(u: Bytes, rest: Bytes)
    requires NoStartCodeInside(u) && (u != [] ==> u[|u| - 1] != 0)
    requires UnitEndsAt(rest)
    ensures UnitLength(u + rest) == |u|
  {
    if u == [] {
      assert u + rest == rest;
    } else {
      NoEndInside(u, rest);
      NoStartCodeInRest(u);
      UnitLengthIs(u[1..], rest);
      assert (u + rest)[1..] == u[1..] + rest;
    }
  }

  lemma {:induction false} UnitStartIs(long: bool, rest: Bytes)
    ensures UnitStart(StartCode(long) + rest) == |StartCode(long)|
  {
    var s := StartCode(long) + rest;
    if long {
      assert s[1..][0] == 0 && s[1..][1] == 0 && s[1..][2] == 1;
    }
  }

  lemma WrittenEnds(long: seq<bool>, units: seq<Bytes>)
    requires |long| == |units|
    ensures UnitEndsAt(Written(long, units))
  {
  }

  /** A decoder splits a written stream back into exactly its units, in order. */
  lemma {:induction false} SplitUndoesWrite(long: seq<bool>, units: seq<Bytes>)
    requires |long| == |units|
    requires forall i :: 0 <= i < |units| ==> WellFormedUnit(units[i])
    ensures Split(Written(long, units)) == units
    decreases |units|
  {
    if units == [] {
    } else {
      var u, rest := units[0], Written(long[1..], units[1..]);
      var s := Written(long, units);
      assert s == StartCode(long[0]) + (u + rest);
      UnitStartIs(long[0], u + rest);
      assert s[|StartCode(long[0])|..] == u + rest;
      WrittenEnds(long[1..], units[1..]);
      UnitLengthIs(u, rest);
      assert (u + rest)[..|u|] == u && (u + rest)[|u|..] == rest;
      SplitUndoesWrite(long[1..], units[1..]);
      assert units == [u] + units[1..];
    }
  }

  lemma {:induction false} WrittenAppend(long: seq<bool>, units: seq<Bytes>, l: bool, u: Bytes)
    requires |long| == |units|
    ensures Written(long + [l], units + [u]) == Written(long, units) + (StartCode(l) + u)
    decreases |units|
  {
    if units != [] {
      WrittenAppend(long[1..], units[1..], l, u);
      assert (long + [l])[1..] == long[1..] + [l] && (units + [u])[1..] == units[1..] + [u];
    } else {
      assert Written([l], [u]) == StartCode(l) + u + Written([], []);
    }
  }
}
