/** The configuration file: a map printed as `key:value` lines and parsed back by tokens. */
module ConfigCtrl {

  type Values = map<string, string>

  /** The characters `operator>>` skips. */
  predicate IsSpace(c: char) {
    c == ' ' || c == '\t' || c == '\n' || c == '\r' || c == '\U{000B}' || c == '\U{000C}'
  }

  /** Tab, newline, vertical tab, form feed, carriage return and space. */
  lemma {:induction false} SpaceExactly(c: char)
    ensures IsSpace(c) <==> 9 <= c as int <= 13 || c as int == 32
  {
  }

  predicate NoSpace(s: string) {
    forall i :: 0 <= i < |s| ==> !IsSpace(s[i])
  }

  /** The character that ends a file read in text mode on Windows. */
  const END_OF_TEXT: char := '\U{001A}'

  predicate CleanValue(v: string) {
    NoSpace(v) && END_OF_TEXT !in v
  }

  predicate CleanKey(k: string) {
    CleanValue(k) && ':' !in k
  }

  /**
   Keys without whitespace, ':' or the end-of-text character, values without whitespace
   or that character; either may be empty.
   */
  predicate Clean(m: Values) {
    forall k :: k in m ==> CleanKey(k) && CleanValue(m[k])
  }

  // ---------------------------------------------------------------- text mode

  /** What a file opened in text mode stores: each newline becomes a carriage return and a newline. */
  function OnDisk(s: string): string {
    if s == "" then "" else (if s[0] == '\n' then "\r\n" else [s[0]]) + OnDisk(s[1..])
  }

  /** What reading it in text mode gives. */
  function Text(disk: string): string
    decreases |disk|
  {
    if disk == "" || disk[0] == END_OF_TEXT then ""
    else if |disk| >= 2 && disk[0] == '\r' && disk[1] == '\n' then "\n" + Text(disk[2..])
    else [disk[0]] + Text(disk[1..])
  }

  /** The part before the first end-of-text character. */
  function Visible(s: string): string {
    if s == "" || s[0] == END_OF_TEXT then "" else [s[0]] + Visible(s[1..])
  }

  /** Text mode gives back what was written, up to the first end-of-text character. */
  lemma {:induction false} TextOfDisk(s: string)
    ensures Text(OnDisk(s)) == Visible(s)
    decreases |s|
  {
    if s == "" {
    } else {
      var rest := OnDisk(s[1..]);
      TextOfDisk(s[1..]);
      if s[0] == '\n' {
        assert OnDisk(s)[2..] == rest;
      } else {
        assert OnDisk(s)[1..] == rest;
        assert rest != "" ==> rest[0] != '\n';
      }
    }
  }

  lemma {:induction false} TextExample()
    ensures OnDisk("k:v\n") == "k:v\r\n"
    ensures Text("k:v\r\n") == "k:v\n" && Text("k\U{001A}v") == "k"
  {
    assert "k:v\n"[1..] == ":v\n" && ":v\n"[1..] == "v\n" && "v\n"[1..] == "\n" && "\n"[1..] == "";
    assert OnDisk("\n") == "\r\n" && OnDisk("v\n") == "v\r\n" && OnDisk(":v\n") == ":v\r\n";
    assert "k:v\r\n"[1..] == ":v\r\n" && ":v\r\n"[1..] == "v\r\n" && "v\r\n"[1..] == "\r\n" && "\r\n"[2..] == "";
    assert Text("\r\n") == "\n" && Text("v\r\n") == "v\n" && Text(":v\r\n") == ":v\n";
    assert "k\U{001A}v"[1..] == "\U{001A}v" && Text("\U{001A}v") == "";
  }

  lemma {:induction false} VisibleIsAll(s: string)
    requires END_OF_TEXT !in s
    ensures Visible(s) == s
    decreases |s|
  {
    if s == "" {
    } else {
      VisibleIsAll(s[1..]);
    }
  }

  lemma {:induction false} NoEndInText(disk: string)
    ensures END_OF_TEXT !in Text(disk)
    decreases |disk|
  {
    if disk == "" || disk[0] == END_OF_TEXT {
    } else {
      NoEndInText(disk[1..]);
      if |disk| >= 2 {
        NoEndInText(disk[2..]);
      }
    }
  }

  // ---------------------------------------------------------------- printing

  function Line(k: string, v: string): string {
    k + ":" + v + "\n"
  }

  /** The file for the entries of `m` written in this order. */
  function Printed(m: Values, order: seq<string>): string
    requires forall k :: k in order ==> k in m
  {
    if order == [] then ""
    else
      var last := order[|order| - 1];
      Printed(m, order[..|order| - 1]) + Line(last, m[last])
  }

  /** Every key exactly once. */
  ghost predicate Enumerates(order: seq<string>, keys: set<string>) {
    && (forall k :: k in order <==> k in keys)
    && (forall i, j :: 0 <= i < j < |order| ==> order[i] != order[j])
  }

  // ---------------------------------------------------------------- parsing

  /** The first character of the next token at or after `i`. */
  function SkipSpace(s: string, i: nat): (j: nat)
    requires i <= |s|
    ensures i <= j <= |s|
    ensures j < |s| ==> !IsSpace(s[j])
    decreases |s| - i
  {
    if i < |s| && IsSpace(s[i]) then SkipSpace(s, i + 1) else i
  }

  function TokenEnd(s: string, i: nat): (j: nat)
    requires i <= |s|
    ensures i <= j <= |s|
    ensures NoSpace(s[i..j])
    decreases |s| - i
  {
    if i < |s| && !IsSpace(s[i]) then
      var j := TokenEnd(s, i + 1);
      assert s[i..j] == [s[i]] + s[i + 1..j];
      j
    else i
  }

  /** The whitespace-separated tokens from position `i` on. */
  function Tokens(s: string, i: nat): seq<string>
    requires i <= |s|
    decreases |s| - i
  {
    var from := SkipSpace(s, i);
    var to := TokenEnd(s, from);
    if from == |s| then [] else [s[from..to]] + Tokens(s, to)
  }

  /** Position of the first ':' or the length. */
  function Colon(s: string): (i: nat)
    ensures i <= |s|
    ensures i < |s| ==> s[i] == ':'
    ensures ':' !in s[..i]
  {
    if s == [] || s[0] == ':' then 0
    else
      var i := Colon(s[1..]);
      assert s[..i + 1] == [s[0]] + s[1..][..i];
      i + 1
  }

  /** A token is split at its first ':'; a token without one is skipped. */
  function Entered(m: Values, token: string): Values {
    var cut := Colon(token);
    if cut == |token| then m else m[token[..cut] := token[cut + 1..]]
  }

  function EnteredAll(m: Values, tokens: seq<string>): Values {
    if tokens == [] then m
    else Entered(EnteredAll(m, tokens[..|tokens| - 1]), tokens[|tokens| - 1])
  }

  /** The map after reading a file into it. */
  function Parsed(m: Values, content: string): Values {
    EnteredAll(m, Tokens(content, 0))
  }

  /** The file after publishing, and the map after loading a file. */
  function Published(m: Values, order: seq<string>): string
    requires forall k :: k in order ==> k in m
  {
    OnDisk(Printed(m, order))
  }

  function Loaded(m: Values, disk: string): Values {
    Parsed(m, Text(disk))
  }

  // ---------------------------------------------------------------- round trip

  function Token(k: string, v: string): string {
    k + ":" + v
  }

  function TokensOf(m: Values, order: seq<string>): (r: seq<string>)
    requires forall k :: k in order ==> k in m
    ensures |r| == |order|
    ensures forall i :: 0 <= i < |order| ==> r[i] == Token(order[i], m[order[i]])
  {
    seq(|order|, i requires 0 <= i < |order| => Token(order[i], m[order[i]]))
  }

  lemma {:induction false} TokenEndIs(s: string, i: nat, j: nat)
    requires i <= j < |s| && IsSpace(s[j])
    requires NoSpace(s[i..j])
    ensures TokenEnd(s, i) == j
    decreases j - i
  {
    if i == j {
    } else {
      assert s[i] == s[i..j][0];
      assert s[i + 1..j] == s[i..j][1..];
      TokenEndIs(s, i + 1, j);
    }
  }

  /** A file that ends with a newline has each token end before it. */
  lemma {:induction false} EndBeforeNewline(a: string, i: nat)
    requires i < |a| && a[|a| - 1] == '\n'
    ensures TokenEnd(a, i) < |a| && IsSpace(a[TokenEnd(a, i)])
    ensures !IsSpace(a[i]) ==> TokenEnd(a, i) > i
    decreases |a| - i
  {
    if !IsSpace(a[i]) {
      EndBeforeNewline(a, i + 1);
    }
  }

  /** Skipping inside a prefix, or to its end when the character after it is no space. */
  lemma {:induction false} SkipSame(a: string, s: string, i: nat)
    requires i <= |a| < |s| && s[..|a|] == a && !IsSpace(s[|a|])
    ensures SkipSpace(s, i) == SkipSpace(a, i)
    decreases |a| - i
  {
    if i < |a| {
      assert s[i] == s[..|a|][i] == a[i];
      if IsSpace(a[i]) {
        SkipSame(a, s, i + 1);
      }
    }
  }

  lemma {:induction false} TokensPrefix(a: string, t: string, i: nat)
    requires i <= |a| && (a == "" || a[|a| - 1] == '\n')
    requires t != "" && NoSpace(t)
    ensures Tokens(a + t + "\n", i) == Tokens(a, i) + [t]
    decreases |a| - i
  {
    var s := a + t + "\n";
    SkipSame(a, s, i);
    var from := SkipSpace(a, i);
    if from == |a| {
      assert s[|a|..|a| + |t|] == t;
      assert SkipSpace(s, i) == |a|;
      TokenEndIs(s, |a|, |a| + |t|);
      assert Tokens(s, |a| + |t|) == [];
    } else {
      var to := TokenEnd(a, from);
      EndBeforeNewline(a, from);
      assert s[from..to] == a[from..to];
      assert s[to] == a[to];
      TokenEndIs(s, from, to);
      assert to > from;
      TokensPrefix(a, t, to);
    }
  }

  lemma {:induction false} TokenIsClean(m: Values, k: string)
    requires Clean(m) && k in m
    ensures ':' !in k && NoSpace(Token(k, m[k]))
  {
    var t := Token(k, m[k]);
    forall i | 0 <= i < |t|
      ensures !IsSpace(t[i])
    {
      assert i < |k| ==> t[i] == k[i];
      assert i > |k| ==> t[i] == m[k][i - |k| - 1];
    }
  }

  lemma TokensOfLast(m: Values, order: seq<string>)
    requires order != [] && forall k :: k in order ==> k in m
    ensures var front, last := order[..|order| - 1], order[|order| - 1];
            && last in m
            && TokensOf(m, order) == TokensOf(m, front) + [Token(last, m[last])]
            && TokensOf(m, order)[..|order| - 1] == TokensOf(m, front)
            && TokensOf(m, order)[|order| - 1] == Token(last, m[last])
  {
  }

  lemma {:induction false} PrintedLast(m: Values, order: seq<string>)
    requires order != [] && forall k :: k in order ==> k in m
    ensures var front, last := order[..|order| - 1], order[|order| - 1];
            last in m && Printed(m, order) == Printed(m, front) + Token(last, m[last]) + "\n"
  {
    var last := order[|order| - 1];
    assert Line(last, m[last]) == Token(last, m[last]) + "\n";
  }

  lemma {:induction false} PrintedTokens(m: Values, order: seq<string>)
    requires forall k :: k in order ==> k in m
    requires Clean(m)
    ensures Printed(m, order) == "" || Printed(m, order)[|Printed(m, order)| - 1] == '\n'
    ensures Tokens(Printed(m, order), 0) == TokensOf(m, order)
    decreases |order|
  {
    if order == [] {
    } else {
      var front, last := order[..|order| - 1], order[|order| - 1];
      PrintedTokens(m, front);
      TokensOfLast(m, order);
      PrintedLast(m, order);
      TokenIsClean(m, last);
      TokensPrefix(Printed(m, front), Token(last, m[last]), 0);
    }
  }

  lemma {:induction false} ColonOf(k: string, v: string)
    requires ':' !in k
    ensures Colon(Token(k, v)) == |k|
    decreases |k|
  {
    if k == "" {
    } else {
      assert k[0] in k;
      assert Token(k, v)[1..] == Token(k[1..], v);
      ColonOf(k[1..], v);
    }
  }

  lemma {:induction false} TokenEntered(m: Values, k: string, v: string)
    requires ':' !in k
    ensures Entered(m, Token(k, v)) == m[k := v]
  {
    ColonOf(k, v);
    assert Token(k, v)[..|k|] == k;
    assert Token(k, v)[|k| + 1..] == v;
  }

  function Picked(m: Values, order: seq<string>): Values
    requires forall k :: k in order ==> k in m
  {
    map k | k in order :: m[k]
  }

  lemma {:induction false} PickedLast(prior: Values, m: Values, order: seq<string>)
    requires order != [] && forall k :: k in order ==> k in m
    ensures var front, last := order[..|order| - 1], order[|order| - 1];
            last in m && (prior + Picked(m, front))[last := m[last]] == prior + Picked(m, order)
  {
    var front, last := order[..|order| - 1], order[|order| - 1];
    assert order == front + [last];
  }

  lemma {:induction false} TokensEntered(prior: Values, m: Values, order: seq<string>)
    requires forall k :: k in order ==> k in m
    requires Clean(m)
    ensures EnteredAll(prior, TokensOf(m, order)) == prior + Picked(m, order)
    decreases |order|
  {
    if order == [] {
      assert prior + Picked(m, order) == prior;
    } else {
      var front, last := order[..|order| - 1], order[|order| - 1];
      TokensEntered(prior, m, front);
      TokensOfLast(m, order);
      TokenIsClean(m, last);
      TokenEntered(prior + Picked(m, front), last, m[last]);
      PickedLast(prior, m, order);
    }
  }

  lemma {:induction false} NoEndPrinted(m: Values, order: seq<string>)
    requires forall k :: k in order ==> k in m
    requires Clean(m)
    ensures END_OF_TEXT !in Printed(m, order)
    decreases |order|
  {
    if order == [] {
    } else {
      NoEndPrinted(m, order[..|order| - 1]);
      assert CleanKey(order[|order| - 1]) && CleanValue(m[order[|order| - 1]]);
    }
  }

  lemma {:induction false} PublishedText(m: Values, order: seq<string>)
    requires Clean(m) && forall k :: k in order ==> k in m
    ensures Text(Published(m, order)) == Printed(m, order)
  {
    var text := Printed(m, order);
    NoEndPrinted(m, order);
    TextOfDisk(text);
    VisibleIsAll(text);
  }

  lemma {:induction false} PickedAll(m: Values, order: seq<string>)
    requires Enumerates(order, m.Keys)
    ensures Picked(m, order) == m
  {
  }

  /**
   Reading back what was published: the map in memory is overridden by exactly the
   published entries, whatever order they were written in.
   */
  lemma {:induction false} ReadBack(prior: Values, m: Values, order: seq<string>)
    requires Clean(m) && Enumerates(order, m.Keys)
    ensures Loaded(prior, Published(m, order)) == prior + m
  {
    PublishedText(m, order);
    PrintedTokens(m, order);
    TokensEntered(prior, m, order);
    PickedAll(m, order);
  }

  lemma {:induction false} TokensAreCleanValues(s: string, i: nat)
    requires i <= |s| && END_OF_TEXT !in s
    ensures forall t :: t in Tokens(s, i) ==> CleanValue(t)
    decreases |s| - i
  {
    var from := SkipSpace(s, i);
    if from == |s| {
    } else {
      TokensAreCleanValues(s, TokenEnd(s, from));
    }
  }

  lemma {:induction false} EnteredIsClean(m: Values, t: string)
    requires Clean(m) && CleanValue(t)
    ensures Clean(Entered(m, t))
  {
    var cut := Colon(t);
    assert forall i :: 0 <= i < cut ==> t[..cut][i] == t[i];
  }

  lemma {:induction false} TokensKeepClean(m: Values, tokens: seq<string>)
    requires Clean(m)
    requires forall t :: t in tokens ==> CleanValue(t)
    ensures Clean(EnteredAll(m, tokens))
    decreases |tokens|
  {
    if tokens == [] {
    } else {
      TokensKeepClean(m, tokens[..|tokens| - 1]);
      assert tokens[|tokens| - 1] in tokens;
      EnteredIsClean(EnteredAll(m, tokens[..|tokens| - 1]), tokens[|tokens| - 1]);
    }
  }

  /** Whatever a file holds, loading it keeps a clean map clean. */
  lemma {:induction false} LoadedIsClean(m: Values, disk: string)
    requires Clean(m)
    ensures Clean(Loaded(m, disk))
  {
    NoEndInText(disk);
    TokensAreCleanValues(Text(disk), 0);
    TokensKeepClean(m, Tokens(Text(disk), 0));
  }

  /** A token without ':' leaves the map as it was, one with a ':' enters what stands before and behind the first. */
  lemma {:induction false} EnteredExactly(m: Values, token: string)
    ensures ':' !in token ==> Entered(m, token) == m
    ensures forall k: string, v: string :: ':' !in k && token == k + ":" + v ==> Entered(m, token) == m[k := v]
  {
    if ':' !in token {
      assert Colon(token) == |token|;
    }
    forall k: string, v: string | ':' !in k && token == k + ":" + v
      ensures Entered(m, token) == m[k := v]
    {
      TokenEntered(m, k, v);
    }
  }

  function WithColon(tokens: seq<string>): seq<string> {
    if tokens == [] then []
    else
      var last := tokens[|tokens| - 1];
      WithColon(tokens[..|tokens| - 1]) + (if ':' in last then [last] else [])
  }

  lemma {:induction false} EnteredAllAppend(m: Values, tokens: seq<string>, t: string)
    ensures EnteredAll(m, tokens + [t]) == Entered(EnteredAll(m, tokens), t)
  {
    assert (tokens + [t])[..|tokens|] == tokens;
  }

  /** The tokens of a file without ':' might as well not be there. */
  lemma {:induction false} PlainTokensIgnored(m: Values, tokens: seq<string>)
    ensures EnteredAll(m, tokens) == EnteredAll(m, WithColon(tokens))
    decreases |tokens|
  {
    if tokens == [] {
    } else {
      var front, last := tokens[..|tokens| - 1], tokens[|tokens| - 1];
      PlainTokensIgnored(m, front);
      EnteredExactly(EnteredAll(m, front), last);
      if ':' in last {
        EnteredAllAppend(m, WithColon(front), last);
      } else {
        assert WithColon(tokens) == WithColon(front) + [] == WithColon(front);
      }
    }
  }

  /** A map survives being published and read into an empty one exactly when it is clean. */
  lemma {:induction false} RoundTripExactly(m: Values, order: seq<string>)
    requires Enumerates(order, m.Keys)
    ensures Loaded(map[], Published(m, order)) == m <==> Clean(m)
  {
    if Clean(m) {
      ReadBack(map[], m, order);
      assert map[] + m == m;
    } else {
      LoadedIsClean(map[], Published(m, order));
    }
  }

  /** A space in a key loses its first word, a space in a value what comes after it. */
  lemma {:induction false} SpacesDoNotSurvive()
    ensures Loaded(map[], Published(map["a b" := "c"], ["a b"])) != map["a b" := "c"]
    ensures Loaded(map[], Published(map["a" := "b c"], ["a"])) != map["a" := "b c"]
  {
    var inKey, inValue: Values := map["a b" := "c"], map["a" := "b c"];
    assert "a b"[1] == ' ' && "b c"[1] == ' ';
    assert !NoSpace("a b") && !NoSpace("b c");
    assert "a b" in inKey && "a" in inValue && inValue["a"] == "b c";
    RoundTripExactly(inKey, ["a b"]);
    RoundTripExactly(inValue, ["a"]);
  }

  // ---------------------------------------------------------------- the controller

  /** The tokens before position `at` of a file have been `seen`. */
  ghost predicate Seen(content: string, at: nat, seen: seq<string>)
    requires at <= |content|
  {
    seen + Tokens(content, at) == Tokens(content, 0)
  }

  lemma {:induction false} SeenNext(content: string, at: nat, seen: seq<string>)
    requires at <= |content| && Seen(content, at, seen)
    ensures var from := SkipSpace(content, at);
            var to := TokenEnd(content, from);
            if from == |content| then seen == Tokens(content, 0)
            else Seen(content, to, seen + [content[from..to]])
  {
    var from := SkipSpace(content, at);
    if from == |content| {
      assert seen + [] == seen;
    } else {
      var to := TokenEnd(content, from);
      assert seen + ([content[from..to]] + Tokens(content, to)) == (seen + [content[from..to]]) + Tokens(content, to);
    }
  }

  class ConfigCtrl {
    var values: Values

    /** What the file holds on disk. */
    var file: string

    constructor (file: string)
      ensures values == map[] && this.file == file
    {
      values := map[];
      this.file := file;
    }

    method SetValue(key: string, value: string)
      modifies this`values
      ensures values == old(values)[key := value]
    {
      values := values[key := value];
    }

    /** Reading an absent key enters it with an empty value. */
    method GetValue(key: string) returns (value: string)
      modifies this`values
      ensures value == if key in old(values) then old(values)[key] else ""
      ensures values == if key in old(values) then old(values) else old(values)[key := ""]
    {
      if key !in values {
        values := values[key := ""];
      }
      value := values[key];
    }

    /** `opens`: a file is configured and can be opened. The order of the lines is left open. */
    method Publish(opens: bool) returns (ghost order: seq<string>)
      modifies this`file
      ensures Enumerates(order, values.Keys)
      ensures file == if opens then Published(values, order) else old(file)
    {
      order := [];
      var content := "";
      var left := values.Keys;
      while left != {}
        invariant left <= values.Keys
        invariant Enumerates(order, values.Keys - left)
        invariant content == Printed(values, order)
        decreases left
      {
        var k :| k in left;
        content := content + (k + ":" + values[k] + "\n");
        assert (order + [k])[..|order|] == order;
        order := order + [k];
        left := left - {k};
      }
      assert values.Keys - left == values.Keys;
      if opens {
        file := OnDisk(content);
      }
    }

    /** `fread` in pieces of at most 1024 characters until none is left. */
    method ReadAll() returns (content: string)
      ensures content == Text(file)
    {
      var text := Text(file);
      content := "";
      var at := 0;
      while true
        invariant at <= |text| && content == text[..at]
        decreases |text| - at
      {
        var len := if |text| - at < 1024 then |text| - at else 1024;
        if len == 0 {
          break;
        }
        for i := 0 to len
          invariant content == text[..at + i]
        {
          content := content + [text[at + i]];
        }
        at := at + len;
      }
    }

    method Enter(line: string)
      modifies this`values
      ensures values == Entered(old(values), line)
    {
      var cut := Colon(line);
      if cut == |line| {
        return;
      }
      var key := line[..cut];
      var value := line[cut + 1..];
      values := values[key := value];
    }

    /** Reads the file into the map; read back what was published and its entries are all there. */
    method InitValues(opens: bool)
      modifies this`values
      ensures values == if opens then Loaded(old(values), file) else old(values)
    {
      if !opens {
        return;
      }
      var content := ReadAll();
      var at := 0;
      ghost var seen: seq<string> := [];
      while true
        invariant at <= |content| && Seen(content, at, seen)
        invariant values == EnteredAll(old(values), seen)
        decreases |content| - at
      {
        SeenNext(content, at, seen);
        var from := SkipSpace(content, at);
        if from == |content| {
          break;
        }
        var to := TokenEnd(content, from);
        assert to > at by {
          assert !IsSpace(content[from]);
        }
        var line := content[from..to];
        Enter(line);
        EnteredAllAppend(old(values), seen, line);
        seen := seen + [line];
        at := to;
      }
    }
  }
}
