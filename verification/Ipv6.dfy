/** IPv6Address::insert, and the reading of its text by RFC 4291, section 2.2. */
module Ipv6 {
  import opened Chars
  import opened Options

  predicate IsGroup(v: nat) {
    v < 0x1_0000
  }

  predicate AllGroups(g: seq<nat>) {
    forall i :: 0 <= i < |g| ==> IsGroup(g[i])
  }

  // ---------------------------------------------------------------- the text

  function Join(g: seq<nat>): string {
    if g == [] then "" else if |g| == 1 then HexText(g[0]) else HexText(g[0]) + ":" + Join(g[1..])
  }

  /** The first group that is zero, or the length. */
  function FirstZero(g: seq<nat>): (z: nat)
    ensures z <= |g| && (z < |g| ==> g[z] == 0) && forall i :: 0 <= i < z ==> g[i] != 0
  {
    if g == [] || g[0] == 0 then 0 else 1 + FirstZero(g[1..])
  }

  /** The end of the run of zeros that starts at z. */
  function RunEnd(g: seq<nat>, z: nat): (e: nat)
    requires z <= |g|
    ensures z <= e <= |g| && (e < |g| ==> g[e] != 0) && forall i :: z <= i < e ==> g[i] == 0
    decreases |g| - z
  {
    if z == |g| || g[z] != 0 then z else RunEnd(g, z + 1)
  }

  /** The first run of zeros is left out. */
  function Text(g: seq<nat>): string {
    var z := FirstZero(g);
    if z == |g| then Join(g) else Join(g[..z]) + "::" + Join(g[RunEnd(g, z)..])
  }

  // ---------------------------------------------------------------- reading

  function ReadGroups(w: string): Option<seq<nat>> {
    var n := HexPrefix(w);
    if n == 0 || n > 4 then None
    else if n == |w| then Some([HexValue(w[..n])])
    else if w[n] != ':' then None
    else
      match ReadGroups(w[n + 1..])
      case None => None
      case Some(r) => Some([HexValue(w[..n])] + r)
  }

  function ReadSide(w: string): Option<seq<nat>> {
    if w == "" then Some([]) else ReadGroups(w)
  }

  /** The position of the first "::", or the length. */
  function DoubleColon(w: string): (i: nat)
    ensures i <= |w|
    ensures i < |w| ==> i + 2 <= |w|
  {
    if w == "" then 0 else if |w| > 1 && w[0] == ':' && w[1] == ':' then 0 else 1 + DoubleColon(w[1..])
  }

  function Zeros(n: nat): (g: seq<nat>)
    ensures |g| == n && forall i :: 0 <= i < n ==> g[i] == 0
  {
    if n == 0 then [] else [0] + Zeros(n - 1)
  }

  /** Eight groups of one to four hexadecimal digits; "::" stands for one or more of zeros. */
  function Read(w: string): Option<seq<nat>> {
    var i := DoubleColon(w);
    if i == |w| then
      var g := ReadGroups(w);
      if g.Some? && |g.value| == 8 then g else None
    else
      var l, r := ReadSide(w[..i]), ReadSide(w[i + 2..]);
      if l.Some? && r.Some? && |l.value| + |r.value| < 8
      then Some(l.value + Zeros(8 - |l.value| - |r.value|) + r.value)
      else None
  }

  // ---------------------------------------------------------------- reading what was printed

  lemma HexTextShort(v: nat)
    requires IsGroup(v)
    ensures |HexText(v)| <= 4
  {
    assert v / 16 < 0x1000 && v / 16 / 16 < 0x100 && v / 16 / 16 / 16 < 16;
    assert v >= 16 ==> |HexText(v)| == |HexText(v / 16)| + 1;
    assert v / 16 >= 16 ==> |HexText(v / 16)| == |HexText(v / 16 / 16)| + 1;
    assert v / 16 / 16 >= 16 ==> |HexText(v / 16 / 16)| == |HexText(v / 16 / 16 / 16)| + 1;
  }

  lemma HeadRead(v: nat, rest: string)
    requires IsGroup(v) && (rest != "" ==> !IsHex(rest[0]))
    ensures HexPrefix(HexText(v) + rest) == |HexText(v)| && HexValue((HexText(v) + rest)[..|HexText(v)|]) == v
  {
    var h := HexText(v);
    assert (h + rest)[..|h|] == h;
    HexPrefixIs(h + rest, |h|);
    ValueOfHexText(v);
  }

  lemma {:induction false} ReadJoin(g: seq<nat>)
    requires g != [] && AllGroups(g)
    ensures ReadGroups(Join(g)) == Some(g)
    decreases |g|
  {
    hide HexText, HexPrefix, HexValue;
    HexTextShort(g[0]);
    var h := HexText(g[0]);
    if |g| == 1 {
      HeadRead(g[0], "");
      assert h + "" == h;
      assert g == [g[0]];
    } else {
      var rest := ":" + Join(g[1..]);
      assert Join(g) == h + rest;
      HeadRead(g[0], rest);
      ReadJoin(g[1..]);
      assert (h + rest)[|h| + 1..] == Join(g[1..]);
      assert g == [g[0]] + g[1..];
    }
  }

  lemma {:induction false} HexNoColon(h: string, rest: string)
    requires AllHex(h)
    ensures DoubleColon(h + rest) == |h| + DoubleColon(rest)
  {
    if h == "" {
      assert h + rest == rest;
    } else {
      HexNoColon(h[1..], rest);
      assert IsHex(h[0]);
      assert (h + rest)[1..] == h[1..] + rest;
    }
  }

  lemma JoinStarts(g: seq<nat>)
    requires g != []
    ensures Join(g) != "" && Join(g)[0] != ':'
  {
    assert IsHex(HexText(g[0])[0]);
  }

  lemma ColonThen(w: string)
    requires w != "" && w[0] != ':'
    ensures DoubleColon(":" + w) == 1 + DoubleColon(w)
  {
    assert (":" + w)[1..] == w;
  }

  /** Groups joined by colons hold no double colon, nor start one with what follows. */
  lemma {:induction false} JoinNoDouble(g: seq<nat>, rest: string)
    ensures DoubleColon(Join(g) + rest) == |Join(g)| + DoubleColon(rest)
    decreases |g|
  {
    hide HexText, DoubleColon;
    if g == [] {
      assert Join(g) + rest == rest;
    } else if |g| == 1 {
      HexNoColon(HexText(g[0]), rest);
    } else {
      var tail := Join(g[1..]) + rest;
      assert Join(g) + rest == HexText(g[0]) + (":" + tail);
      HexNoColon(HexText(g[0]), ":" + tail);
      JoinStarts(g[1..]);
      ColonThen(tail);
      JoinNoDouble(g[1..], rest);
    }
  }

  lemma DoubleFirst(r: string)
    ensures DoubleColon("::" + r) == 0 && DoubleColon("") == 0
  {
  }

  lemma SideRead(g: seq<nat>)
    requires AllGroups(g)
    ensures ReadSide(Join(g)) == Some(g)
  {
    if g != [] {
      JoinStarts(g);
      ReadJoin(g);
    }
  }

  /** The text denotes the address, for every address. */
  lemma ReadText(g: seq<nat>)
    requires |g| == 8 && AllGroups(g)
    ensures Read(Text(g)) == Some(g)
  {
    hide HexText, Join, DoubleColon, ReadGroups, ReadSide;
    var z := FirstZero(g);
    if z == |g| {
      JoinNoDouble(g, "");
      assert Join(g) + "" == Join(g);
      DoubleFirst("");
      ReadJoin(g);
    } else {
      var e := RunEnd(g, z);
      var l, r := Join(g[..z]), Join(g[e..]);
      assert Text(g) == l + ("::" + r);
      JoinNoDouble(g[..z], "::" + r);
      DoubleFirst(r);
      assert (l + ("::" + r))[..|l|] == l && (l + ("::" + r))[|l| + 2..] == r;
      SideRead(g[..z]);
      SideRead(g[e..]);
      assert z < e;
      assert g[..z] + Zeros(e - z) + g[e..] == g;
    }
  }

  /** So no two addresses share a text. */
  lemma TextIsUnique(g: seq<nat>, h: seq<nat>)
    requires |g| == 8 && AllGroups(g) && |h| == 8 && AllGroups(h) && Text(g) == Text(h)
    ensures g == h
  {
    ReadText(g);
    ReadText(h);
  }

  // ---------------------------------------------------------------- insert

  lemma {:induction false} JoinNext(g: seq<nat>, v: nat)
    ensures Join(g + [v]) == Join(g) + (if g == [] then "" else ":") + HexText(v)
    decreases |g|
  {
    hide HexText, Join;
    if g == [] {
      assert g + [v] == [v];
      JoinOne(v);
    } else {
      JoinNext(g[1..], v);
      JoinMore(g + [v]);
      assert (g + [v])[1..] == g[1..] + [v];
      if |g| == 1 {
        assert g == [g[0]];
        JoinOne(g[0]);
        assert Join(g[1..] + [v]) == HexText(v) by { assert g[1..] + [v] == [v]; JoinOne(v); }
      } else {
        JoinMore(g);
        Regroup(HexText(g[0]), Join(g[1..]), HexText(v));
      }
    }
  }

  lemma JoinOne(v: nat)
    ensures Join([v]) == HexText(v) && "" + "" + HexText(v) == HexText(v) && Join([]) == ""
  {
  }

  lemma JoinMore(g: seq<nat>)
    requires |g| > 1
    ensures Join(g) == HexText(g[0]) + ":" + Join(g[1..])
  {
  }

  lemma Regroup(a: string, b: string, c: string)
    ensures a + ":" + (b + ":" + c) == a + ":" + b + ":" + c
  {
    assert b + ":" + c == b + (":" + c);
  }

  /** What the loop has written after `i` groups. */
  function Written(g: seq<nat>, i: nat): string
    requires i <= |g|
  {
    var z := FirstZero(g);
    var e := RunEnd(g, z);
    if i <= z then Join(g[..i]) else if i <= e then Join(g[..z]) else Join(g[..z]) + "::" + Join(g[e..i])
  }

  lemma WriteGroup(g: seq<nat>, i: nat, from: nat)
    requires from <= i < |g|
    ensures Join(g[from..i + 1]) == Join(g[from..i]) + (if from == i then "" else ":") + HexText(g[i])
  {
    assert g[from..i + 1] == g[from..i] + [g[i]];
    JoinNext(g[from..i], g[i]);
  }

  lemma Behind(l: string, r: string, h: string)
    ensures l + "::" + (r + ":" + h) == (l + "::" + r) + ":" + h
  {
    assert r + ":" + h == r + (":" + h);
  }

  lemma Between(l: string, h: string)
    ensures l + "::" + ("" + "" + h) == l + "::" + h
  {
    assert "" + "" + h == h;
  }

  lemma AfterRun(g: seq<nat>, l: string, i: nat, e: nat)
    requires e <= i < |g|
    ensures l + "::" + Join(g[e..i + 1]) == (if i == e then l + "::" else l + "::" + Join(g[e..i]) + ":") + HexText(g[i])
  {
    hide Join, HexText;
    WriteGroup(g, i, e);
    if i == e {
      assert g[e..i] == [];
      JoinEmpty();
      Between(l, HexText(g[i]));
    } else {
      Behind(l, Join(g[e..i]), HexText(g[i]));
    }
  }

  lemma BeforeRun(g: seq<nat>, i: nat)
    requires i < |g|
    ensures Join(g[..i + 1]) == Join(g[..i]) + (if i == 0 then "" else ":") + HexText(g[i])
  {
    hide Join, HexText;
    WriteGroup(g, i, 0);
    assert g[..i + 1] == g[0..i + 1] && g[..i] == g[0..i];
  }

  /** What a turn of the loop writes between the groups. */
  function Separator(g: seq<nat>, i: nat): string {
    var z := FirstZero(g);
    if z < RunEnd(g, z) == i then "::" else if i == 0 then "" else ":"
  }

  lemma WrittenBefore(g: seq<nat>, i: nat)
    requires i < |g| && i < FirstZero(g)
    ensures Written(g, i + 1) == Written(g, i) + Separator(g, i) + HexText(g[i])
  {
    hide Join, HexText, FirstZero, RunEnd;
    BeforeRun(g, i);
  }

  lemma WrittenAfter(g: seq<nat>, i: nat)
    requires i < |g| && FirstZero(g) < RunEnd(g, FirstZero(g)) <= i
    ensures Written(g, i + 1) == Written(g, i) + Separator(g, i) + HexText(g[i])
  {
    hide Join, HexText, FirstZero, RunEnd;
    AfterRun(g, Join(g[..FirstZero(g)]), i, RunEnd(g, FirstZero(g)));
  }

  lemma WrittenIn(g: seq<nat>, i: nat)
    requires i < |g| && FirstZero(g) <= i < RunEnd(g, FirstZero(g))
    ensures Written(g, i + 1) == Written(g, i)
  {
    hide Join, FirstZero, RunEnd;
  }

  lemma RunNotEmpty(g: seq<nat>)
    ensures FirstZero(g) < |g| ==> FirstZero(g) < RunEnd(g, FirstZero(g))
  {
  }

  lemma WrittenNext(g: seq<nat>, i: nat)
    requires i < |g|
    ensures var z, e := FirstZero(g), RunEnd(g, FirstZero(g));
      Written(g, i + 1) == if z <= i < e then Written(g, i) else Written(g, i) + Separator(g, i) + HexText(g[i])
  {
    hide *;
    RunNotEmpty(g);
    if i < FirstZero(g) {
      WrittenBefore(g, i);
    } else if i < RunEnd(g, FirstZero(g)) {
      WrittenIn(g, i);
    } else {
      WrittenAfter(g, i);
    }
  }

  lemma WrittenAll(g: seq<nat>)
    ensures var z, e := FirstZero(g), RunEnd(g, FirstZero(g));
      Text(g) == Written(g, |g|) + (if z < e == |g| then "::" else "")
  {
    var z, e := FirstZero(g), RunEnd(g, FirstZero(g));
    hide Join, FirstZero, RunEnd;
    WholeSlices(g, e);
    if z == |g| {
      assert Join(g) + "" == Join(g);
    } else if e == |g| {
      JoinEmpty();
      assert Join(g[..z]) + "::" + "" == Join(g[..z]) + "::";
    } else {
      assert Text(g) + "" == Text(g);
    }
  }

  lemma WholeSlices(g: seq<nat>, e: nat)
    requires e <= |g|
    ensures g[..|g|] == g && g[|g|..] == [] && g[e..|g|] == g[e..]
  {
  }

  class IPv6Address {
    const groups: seq<nat>     // sin6_addr as eight 16-bit words of the host's byte order
    const port: nat

    constructor (groups: seq<nat>, port: nat)
      requires |groups| == 8 && AllGroups(groups)
      ensures this.groups == groups && this.port == port
    {
      this.groups, this.port := groups, port;
    }

    method Insert(os: string) returns (os': string)
      requires |groups| == 8 && AllGroups(groups)
      ensures os' == os + "[" + Text(groups) + "]:" + Decimal(port)
    {
      hide Join, HexText;
      var text := "";
      var usedZeros := false;
      ghost var z, e := FirstZero(groups), RunEnd(groups, FirstZero(groups));
      assert groups[..0] == [] && Join([]) == "" by { JoinEmpty(); }
      for i := 0 to 8
        invariant text == Written(groups, i) && (usedZeros <==> i > e && z < 8)
      {
        WrittenNext(groups, i);
        if groups[i] == 0 && !usedZeros {
          continue;
        }
        if i > 0 && groups[i - 1] == 0 && !usedZeros {
          text := text + ":";
          usedZeros := true;
        }
        if i > 0 {
          text := text + ":";
        }
        text := text + HexText(groups[i]);
      }
      if !usedZeros && groups[7] == 0 {
        text := text + "::";
      }
      WrittenAll(groups);
      os' := os + "[" + text + "]:" + Decimal(port);
    }
  }

  lemma JoinEmpty()
    ensures Join([]) == ""
  {
  }
}
