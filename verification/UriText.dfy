/** What the automaton makes of every absolute text with an authority, part by part. */
module UriText {
  import opened Chars
  import opened Options
  import opened UriMachine

  // ---------------------------------------------------------------- texts

  /** The parts of a text  scheme "://" [user "@"] host [":" port] path ["?" query] ["#" fragment]. */
  datatype Parts = Parts(
    scheme: string, user: Option<string>, host: string, port: Option<string>,
    path: string, query: Option<string>, fragment: Option<string>)

  predicate IsScheme(w: string) {
    w != [] && IsAlpha(w[0]) && forall c :: c in w ==> IsSchemeChar(c)
  }

  predicate IsPath(w: string) {
    w == [] || (w[0] == '/' && Word(Path, w))
  }

  predicate ValidParts(p: Parts) {
    IsScheme(p.scheme) && ValidRest(p)
  }

  /** All parts but the scheme. */
  predicate ValidRest(p: Parts) {
    && (p.user.Some? ==> Word(User, p.user.value))
    && Word(Name, p.host)
    && (p.port.Some? ==> IsNumber(p.port.value))
    && IsPath(p.path)
    && (p.query.Some? ==> Word(Query, p.query.value))
    && (p.fragment.Some? ==> Word(Query, p.fragment.value))
  }

  function Before(w: Option<string>, c: char): string {
    if w.Some? then [c] + w.value else []
  }

  function After(w: Option<string>, c: char): string {
    if w.Some? then w.value + [c] else []
  }

  function Tail(p: Parts): string {
    p.path + (Before(p.query, '?') + Before(p.fragment, '#'))
  }

  /** What is behind the two slashes. */
  function Rest(p: Parts): string {
    After(p.user, '@') + (p.host + (Before(p.port, ':') + Tail(p)))
  }

  function Text(p: Parts): string {
    (p.scheme + "://") + Rest(p)
  }

  function OrEmpty(w: Option<string>): string {
    if w.Some? then w.value else ""
  }

  /** The position of the first colon, or the length. */
  function Colon(w: string): (i: nat)
    ensures i <= |w| && forall k :: 0 <= k < i ==> w[k] != ':'
    ensures i < |w| ==> w[i] == ':'
  {
    if w == [] || w[0] == ':' then 0 else 1 + Colon(w[1..])
  }

  /** What looks like a port makes the automaton forget where the user information began. */
  predicate LooksLikePort(w: string) {
    var i := Colon(w);
    i + 1 < |w| && IsDigit(w[i + 1])
  }

  function Kept(w: string): string {
    if LooksLikePort(w) then w[Colon(w) + 1..] else w
  }

  function FieldsOf(p: Parts): Fields
    requires p.port.Some? ==> IsNumber(p.port.value)
  {
    Fields(p.scheme, Kept(OrEmpty(p.user)), p.host, p.path, OrEmpty(p.query), OrEmpty(p.fragment), Value(OrEmpty(p.port)))
  }

  // ---------------------------------------------------------------- loops of the automaton

  /** The loop states that read a component, with the kind of component. */
  function KindOf(s: State): Option<Kind> {
    match s
    case S520 => Some(Name)
    case S523 => Some(Name)
    case S255 => Some(User)
    case S455 => Some(Path)
    case S513 => Some(Path)
    case S457 => Some(Query)
    case S454 => Some(Query)
    case _ => None
  }

  /** The states before a component, with the loop state that reads it. */
  function LoopOf(s: State): Option<State> {
    match s
    case S511 => Some(S520)
    case S522 => Some(S523)
    case S456 => Some(S457)
    case S453 => Some(S454)
    case _ => None
  }

  /** A null mark stays null. */
  function Extend(token: Option<string>, w: string): Option<string> {
    if token.Some? then Some(token.value + w) else None
  }

  lemma ExtendExtend(token: Option<string>, a: string, b: string)
    ensures Extend(Extend(token, a), b) == Extend(token, a + b)
  {
    if token.Some? {
      assert token.value + a + b == token.value + (a + b);
    }
  }

  lemma PlainCharacters(k: Kind, x: char)
    requires Plain(k, x)
    ensures x != '#' && x != '[' && x != 2 as char
    ensures k.Name? ==> !IsExit(x) && x != ':' && x != '@'
    ensures k.User? ==> !IsExit(x) && x != '@'
  {
  }

  lemma StepPlain(c: Config, x: char)
    requires !c.fault && KindOf(c.cs).Some? && x != '%' && Plain(KindOf(c.cs).value, x)
    ensures Step(c, x) == c.(token := Extend(c.token, [x]))
  {
  }

  /** The states inside a percent-encoding. */
  function HexState(s: State, n: nat): State {
    match s
    case S520 => if n == 1 then S253 else S254
    case S523 => if n == 1 then S258 else S259
    case S255 => if n == 1 then S256 else S257
    case S455 => if n == 1 then S5 else S6
    case S513 => if n == 1 then S243 else S244
    case S457 => if n == 1 then S7 else S8
    case S454 => if n == 1 then S1 else S2
    case _ => S0
  }

  lemma PercentStep(c: Config)
    requires !c.fault && KindOf(c.cs).Some?
    ensures Step(c, '%') == c.(cs := HexState(c.cs, 1), token := Extend(c.token, ['%']))
  {
    hide Plain, IsSchemeChar, IsAlpha;
  }

  lemma HexStep(c: Config, s: State, n: nat, x: char)
    requires !c.fault && KindOf(s).Some? && 1 <= n <= 2 && c.cs == HexState(s, n) && IsHex(x)
    ensures Step(c, x) == c.(cs := if n == 1 then HexState(s, 2) else s, token := Extend(c.token, [x]))
  {
    hide Plain, IsHex, IsSchemeChar, IsAlpha;
  }

  lemma ThreeMore(w: string, h: char, l: char)
    ensures w + ['%'] + [h] + [l] == w + ['%', h, l]
  {
  }

  lemma StepPercent(c: Config, h: char, l: char)
    requires !c.fault && KindOf(c.cs).Some? && IsHex(h) && IsHex(l)
    ensures Step(Step(Step(c, '%'), h), l) == c.(token := Extend(c.token, ['%', h, l]))
  {
    hide Step, KindOf, HexState, IsHex;
    PercentStep(c);
    var d := Step(c, '%');
    HexStep(d, c.cs, 1, h);
    HexStep(Step(d, h), c.cs, 2, l);
    if c.token.Some? {
      ThreeMore(c.token.value, h, l);
    }
  }

  lemma RunThree(c: Config, x: char, y: char, z: char, rest: string)
    ensures Run(c, [x, y, z] + rest) == Run(Step(Step(Step(c, x), y), z), rest)
  {
    hide Step, Run;
    assert [x, y, z] + rest == [x] + ([y] + ([z] + rest));
    RunCons(c, x, [y] + ([z] + rest));
    RunCons(Step(c, x), y, [z] + rest);
    RunCons(Step(Step(c, x), y), z, rest);
  }

  /** A loop state reads its component to the end and only lengthens the token. */
  lemma {:induction false} Scan(c: Config, w: string)
    requires !c.fault && KindOf(c.cs).Some? && Word(KindOf(c.cs).value, w)
    ensures Run(c, w) == c.(token := Extend(c.token, w))
    decreases |w|
  {
    hide Step, KindOf, Run, Plain, IsHex, Word;
    if w == [] {
      assert c.token.Some? ==> c.token.value + w == c.token.value;
      RunEmpty(c);
    } else {
      WordHead(KindOf(c.cs).value, w);
      if w[0] == '%' {
        StepPercent(c, w[1], w[2]);
        assert w == ['%', w[1], w[2]] + w[3..];
        RunThree(c, '%', w[1], w[2], w[3..]);
        Scan(c.(token := Extend(c.token, ['%', w[1], w[2]])), w[3..]);
        ExtendExtend(c.token, ['%', w[1], w[2]], w[3..]);
      } else {
        StepPlain(c, w[0]);
        assert w == [w[0]] + w[1..];
        RunCons(c, w[0], w[1..]);
        Scan(c.(token := Extend(c.token, [w[0]])), w[1..]);
        ExtendExtend(c.token, [w[0]], w[1..]);
      }
    }
  }

  lemma WordHead(k: Kind, w: string)
    requires w != [] && Word(k, w)
    ensures if w[0] == '%' then |w| >= 3 && IsHex(w[1]) && IsHex(w[2]) && Word(k, w[3..]) else Plain(k, w[0]) && Word(k, w[1..])
  {
  }

  lemma EntryPlain(c: Config, x: char)
    requires !c.fault && LoopOf(c.cs).Some? && x != '%' && Plain(KindOf(LoopOf(c.cs).value).value, x)
    ensures Step(c, x) == Config(LoopOf(c.cs).value, Some([x]), c.uri, false, c.relative)
  {
    PlainCharacters(KindOf(LoopOf(c.cs).value).value, x);
    hide Plain, IsExit, IsDigit;
    ActOne(MARK, c);
    assert [] + [x] == [x];
  }

  lemma EntryPercentStep(c: Config)
    requires !c.fault && LoopOf(c.cs).Some?
    ensures Step(c, '%') == Config(HexState(LoopOf(c.cs).value, 1), Some(['%']), c.uri, false, c.relative)
  {
    hide Plain, IsHex, IsSchemeChar, IsAlpha;
    ActOne(MARK, c);
    assert "" + ['%'] == ['%'];
  }

  lemma EntryPercent(c: Config, h: char, l: char)
    requires !c.fault && LoopOf(c.cs).Some? && KindOf(LoopOf(c.cs).value).Some? && IsHex(h) && IsHex(l)
    ensures Step(Step(Step(c, '%'), h), l) == Config(LoopOf(c.cs).value, Some(['%', h, l]), c.uri, false, c.relative)
  {
    hide Step, LoopOf, KindOf, HexState, IsHex;
    var loop := LoopOf(c.cs).value;
    EntryPercentStep(c);
    var d := Step(c, '%');
    HexStep(d, loop, 1, h);
    HexStep(Step(d, h), loop, 2, l);
    ThreeMore("", h, l);
    assert "" + ['%'] == ['%'] && "" + ['%', h, l] == ['%', h, l];
  }

  /** A component that is not empty is marked at its first character. */
  lemma Enter(c: Config, w: string)
    requires !c.fault && LoopOf(c.cs).Some? && w != [] && Word(KindOf(LoopOf(c.cs).value).value, w)
    ensures Run(c, w) == Config(LoopOf(c.cs).value, Some(w), c.uri, false, c.relative)
  {
    hide Step;
    if w[0] == '%' {
      EntryPercent(c, w[1], w[2]);
      var d := Config(LoopOf(c.cs).value, Some(['%', w[1], w[2]]), c.uri, false, c.relative);
      assert w == ['%', w[1], w[2]] + w[3..];
      RunThree(c, '%', w[1], w[2], w[3..]);
      Scan(d, w[3..]);
    } else {
      EntryPlain(c, w[0]);
      var d := Config(LoopOf(c.cs).value, Some([w[0]]), c.uri, false, c.relative);
      assert w == [w[0]] + w[1..];
      Scan(d, w[1..]);
    }
  }

  // ---------------------------------------------------------------- the tail

  /** After the authority: whatever comes next leaves these fields. */
  predicate Ready(c: Config, u: Fields) {
    && Step(c, '/') == Config(S513, Some("/"), u, false)
    && Step(c, '?') == Config(S456, None, u.(path := ""), false)
    && Step(c, '#') == Config(S453, None, u.(path := ""), false)
    && Finish(c) == Parsed(u.(path := ""))
  }

  lemma FragmentRuns(c: Config, f: string)
    requires c.cs == S453 && !c.fault && Word(Query, f)
    ensures Finish(Run(c, f)) == Parsed(c.uri.(fragment := f))
  {
    hide Word, Run, Plain;
    if f == [] {
      RunEmpty(c);
      ActTwo(MARK, FRAGMENT, c);
    } else {
      Enter(c, f);
      ActOne(FRAGMENT, Run(c, f));
    }
  }

  lemma QueryRuns(c: Config, q: string)
    requires c.cs == S456 && !c.fault && Word(Query, q)
    ensures Finish(Run(c, q)) == Parsed(c.uri.(query := q))
    ensures Step(Run(c, q), '#') == Config(S453, None, c.uri.(query := q), false, c.relative)
  {
    hide Word, Run, Plain;
    if q == [] {
      RunEmpty(c);
      ActTwo(MARK, QUERY, c);
    } else {
      Enter(c, q);
      ActOne(QUERY, Run(c, q));
    }
  }

  lemma RunCons(c: Config, x: char, text: string)
    ensures Run(c, [x] + text) == Run(Step(c, x), text)
  {
    assert ([x] + text)[1..] == text;
  }

  predicate At(c: Config, s: State, u: Fields) {
    c.cs == s && c.uri == u && !c.fault
  }

  /** From a state that has saved everything but query and fragment. */
  lemma EndRuns(c: Config, u: Fields, query: Option<string>, fragment: Option<string>)
    requires u.query == "" && u.fragment == ""
    requires At(Step(c, '?'), S456, u) && At(Step(c, '#'), S453, u) && Finish(c) == Parsed(u)
    requires (query.Some? ==> Word(Query, query.value)) && (fragment.Some? ==> Word(Query, fragment.value))
    ensures Finish(Run(c, Before(query, '?') + Before(fragment, '#'))) ==
              Parsed(u.(query := OrEmpty(query), fragment := OrEmpty(fragment)))
  {
    hide Step, Finish, Word, Run;
    var f := Before(fragment, '#');
    if query.Some? {
      var d := Step(c, '?');
      QueryRuns(d, query.value);
      var e := Run(d, query.value);
      RunCons(c, '?', query.value + f);
      assert ['?'] + query.value + f == ['?'] + (query.value + f);
      RunConcat(d, query.value, f);
      if fragment.Some? {
        RunCons(e, '#', fragment.value);
        FragmentRuns(Step(e, '#'), fragment.value);
      } else {
        RunEmpty(e);
      }
    } else {
      assert [] + f == f;
      if fragment.Some? {
        RunCons(c, '#', fragment.value);
        FragmentRuns(Step(c, '#'), fragment.value);
      } else {
        RunEmpty(c);
      }
    }
  }

  lemma RunEmpty(c: Config)
    ensures Run(c, []) == c
  {
  }

  lemma PathEnds(c: Config)
    requires c.cs == S513 && c.token.Some? && !c.fault
    ensures var u := c.uri.(path := c.token.value);
      && Step(c, '?') == Config(S456, None, u, false, c.relative)
      && Step(c, '#') == Config(S453, None, u, false, c.relative)
      && Finish(c) == Parsed(u)
  {
    ActOne(PATH, c);
  }

  lemma WordTail(w: string)
    requires w != [] && w[0] != '%' && Word(Path, w)
    ensures Word(Path, w[1..])
  {
  }

  lemma TailRuns(c: Config, u: Fields, p: Parts)
    requires Ready(c, u) && u.query == "" && u.fragment == "" && ValidRest(p)
    ensures Finish(Run(c, Tail(p))) ==
              Parsed(u.(path := p.path, query := OrEmpty(p.query), fragment := OrEmpty(p.fragment)))
  {
    hide Step, Finish, Word, Run, Before;
    var rest := Before(p.query, '?') + Before(p.fragment, '#');
    if p.path == [] {
      assert Tail(p) == rest;
      EndRuns(c, u.(path := ""), p.query, p.fragment);
    } else {
      var d := Step(c, '/');
      WordTail(p.path);
      Scan(d, p.path[1..]);
      var e := Run(d, p.path[1..]);
      assert "/" + p.path[1..] == p.path;
      assert Tail(p) == ['/'] + (p.path[1..] + rest);
      RunCons(c, '/', p.path[1..] + rest);
      RunConcat(d, p.path[1..], rest);
      PathEnds(e);
      EndRuns(e, u.(path := p.path), p.query, p.fragment);
    }
  }

  // ---------------------------------------------------------------- the authority

  /** Reading a host: what has been read of it. */
  predicate AtHost(c: Config, h: string) {
    !c.fault && (((c.cs == S511 || c.cs == S522) && h == "") || ((c.cs == S520 || c.cs == S523) && c.token == Some(h)))
  }

  /** The saves at the end of an authority behind a scheme, and the mark of the path. */
  lemma ReadyBy(c: Config, a: Action, b: Action, u: Fields)
    requires MayEnd(c.cs) && !c.relative && !c.fault
    requires forall x :: IsExit(x) ==> Delta(c.cs, x) == ExitMove(x, [a, b], [a, b, PATH])
    requires EndActions(c.cs) == [a, b, PATH]
    requires Act(b, Act(a, c)) == c.(uri := u, token := Some(""))
    ensures Ready(c, u)
  {
    hide Delta, EndActions;
    ActTwo(a, b, c);
    ActThree(a, b, PATH, c);
    assert [] + ['/'] == "/";
  }

  lemma HostReady(c: Config, h: string)
    requires AtHost(c, h) && !c.relative
    ensures Ready(c, c.uri.(host := h))
  {
    forall x | IsExit(x)
      ensures Delta(c.cs, x) == if c.cs == S511 || c.cs == S522 then ExitMove(x, [MARK, HOST], [MARK, HOST, PATH])
                                else ExitMove(x, [HOST, MARK], [HOST, MARK, PATH])
    {
      ExitMoves(c.cs, x);
    }
    hide Delta, Ready;
    if c.cs == S511 || c.cs == S522 {
      ReadyBy(c, MARK, HOST, c.uri.(host := h));
    } else {
      ReadyBy(c, HOST, MARK, c.uri.(host := h));
    }
  }

  lemma HostColon(c: Config, h: string)
    requires AtHost(c, h)
    ensures var d := Step(c, ':');
      (d.cs == S521 || d.cs == S514) && d.uri == c.uri.(host := h) && !d.fault && d.token.Some? && d.relative == c.relative
  {
    if c.cs == S511 || c.cs == S522 {
      ActTwo(MARK, HOST, c);
    } else {
      ActOne(HOST, c);
    }
  }

  lemma HostRuns(c: Config, h: string)
    requires (c.cs == S511 || c.cs == S522) && !c.fault && Word(Name, h)
    ensures AtHost(Run(c, h), h) && Run(c, h).uri == c.uri && Run(c, h).relative == c.relative
  {
    hide Step, Run, Word;
    if h == [] {
      RunEmpty(c);
    } else {
      Enter(c, h);
    }
  }

  lemma {:induction false} ScanDigits(c: Config, d: string)
    requires (c.cs == S515 || c.cs == S542) && !c.fault && c.token.Some? && IsNumber(d)
    ensures Run(c, d) == c.(token := Some(c.token.value + d))
    decreases |d|
  {
    if d == [] {
      assert c.token.value + d == c.token.value;
    } else {
      assert d[0] in d;
      ScanDigits(c.(token := Some(c.token.value + [d[0]])), d[1..]);
      assert c.token.value + [d[0]] + d[1..] == c.token.value + d;
    }
  }

  lemma {:induction false} DigitsOfNumber(d: string)
    requires IsNumber(d)
    ensures Digits(d) == d
  {
    if d != [] {
      assert d[0] in d;
      DigitsOfNumber(d[1..]);
    }
  }

  lemma PortReady(c: Config, d: string)
    requires (c.cs == S515 || c.cs == S542) && !c.fault && c.token == Some(d) && d != [] && IsNumber(d)
    requires Value(d) <= INT32_MAX && !c.relative
    ensures Ready(c, c.uri.(port := Value(d)))
  {
    DigitsOfNumber(d);
    forall x | IsExit(x)
      ensures Delta(c.cs, x) == ExitMove(x, [PORT, MARK], [PORT, MARK, PATH])
    {
      ExitMoves(c.cs, x);
    }
    hide Delta, Ready, IsNumber, Value;
    ReadyBy(c, PORT, MARK, c.uri.(port := Value(d)));
  }

  lemma PortRuns(c: Config, d: string)
    requires (c.cs == S514 || c.cs == S521) && !c.fault && d != [] && IsNumber(d)
    ensures var e := Run(c, d);
      (e.cs == S515 || e.cs == S542) && !e.fault && e.token == Some(d) && e.uri == c.uri && e.relative == c.relative
  {
    assert d[0] in d;
    assert d == [d[0]] + d[1..];
    RunCons(c, d[0], d[1..]);
    ActOne(MARK, c);
    assert [] + [d[0]] == [d[0]];
    ScanDigits(Step(c, d[0]), d[1..]);
  }

  // ---------------------------------------------------------------- the user information

  lemma {:induction false} NoColonIsName(w: string)
    requires Word(User, w) && Colon(w) == |w|
    ensures Word(Name, w)
    decreases |w|
  {
    if w != [] {
      if w[0] == '%' {
        assert w[1..][1..][1..] == w[3..];
        NoColonIsName(w[3..]);
      } else {
        NoColonIsName(w[1..]);
      }
    }
  }

  /** The text around the first colon. */
  lemma {:induction false} ColonSplits(w: string)
    requires Word(User, w) && Colon(w) < |w|
    ensures Word(Name, w[..Colon(w)]) && Word(User, w[Colon(w) + 1..])
    decreases |w|
  {
    hide Plain, IsHex;
    var i := Colon(w);
    if w[0] == '%' {
      assert w[1] != ':' && w[2] != ':' by { HexNotColon(w[1]); HexNotColon(w[2]); }
      assert w[1..][1..][1..] == w[3..];
      assert i >= 3 && Colon(w[3..]) == i - 3;
      ColonSplits(w[3..]);
      Shifted(w, 3, i);
      PercentStays(w, i);
    } else if w[0] == ':' {
    } else {
      ColonSplits(w[1..]);
      Shifted(w, 1, i);
      PlainStays(w, i);
    }
  }

  lemma HexNotColon(x: char)
    ensures IsHex(x) ==> x != ':'
  {
  }

  lemma Shifted(w: string, k: nat, i: nat)
    requires k <= i < |w|
    ensures w[..i][k..] == w[k..][..i - k] && w[i + 1..] == w[k..][i - k + 1..]
  {
  }

  lemma PercentStays(w: string, i: nat)
    requires 3 <= i < |w| && w[0] == '%' && IsHex(w[1]) && IsHex(w[2]) && Word(Name, w[..i][3..])
    ensures Word(Name, w[..i])
  {
    hide IsHex, Plain;
  }

  lemma PlainStays(w: string, i: nat)
    requires 1 <= i < |w| && w[0] != '%' && w[0] != ':' && Plain(User, w[0]) && Word(Name, w[..i][1..])
    ensures Word(Name, w[..i])
  {
  }

  /** Reading user information past a colon. */
  predicate AtUser(c: Config) {
    !c.fault && c.token.Some? && (c.cs == S521 || c.cs == S542 || c.cs == S255)
  }

  lemma UserEnds(c: Config)
    requires AtUser(c) || (c.cs == S520 && !c.fault && c.token.Some?)
    ensures Step(c, '@') == Config(S522, None, c.uri.(userinfo := c.token.value), false, c.relative)
  {
    ActOne(USERINFO, c);
  }

  lemma UserStep(c: Config, x: char)
    requires AtUser(c) && x != '%' && Plain(User, x) && (IsDigit(x) ==> c.cs != S521)
    ensures Step(c, x) == c.(cs := Step(c, x).cs, token := Extend(c.token, [x]))
    ensures Step(c, x).cs == S255 || (IsDigit(x) && Step(c, x).cs == S542)
  {
    PlainCharacters(User, x);
    hide Plain, IsExit, IsDigit;
  }

  lemma UserPercent(c: Config, h: char, l: char)
    requires AtUser(c) && IsHex(h) && IsHex(l)
    ensures Step(Step(Step(c, '%'), h), l) == c.(cs := S255, token := Extend(c.token, ['%', h, l]))
  {
    assert c.token.value + ['%'] + [h] + [l] == c.token.value + ['%', h, l];
  }

  lemma {:induction false} ScanUser(c: Config, w: string)
    requires AtUser(c) && Word(User, w) && (w != [] && IsDigit(w[0]) ==> c.cs != S521)
    ensures AtUser(Run(c, w)) && Run(c, w) == c.(cs := Run(c, w).cs, token := Extend(c.token, w))
    decreases |w|
  {
    hide Step, Run, Plain, IsHex, Word, IsDigit;
    if w == [] {
      assert c.token.value + w == c.token.value;
      RunEmpty(c);
    } else {
      WordHead(User, w);
      if w[0] == '%' {
        UserPercent(c, w[1], w[2]);
        assert w == ['%', w[1], w[2]] + w[3..];
        RunThree(c, '%', w[1], w[2], w[3..]);
        Scan(c.(cs := S255, token := Extend(c.token, ['%', w[1], w[2]])), w[3..]);
        ExtendExtend(c.token, ['%', w[1], w[2]], w[3..]);
      } else {
        UserStep(c, w[0]);
        assert w == [w[0]] + w[1..];
        RunCons(c, w[0], w[1..]);
        ScanUser(Step(c, w[0]), w[1..]);
        ExtendExtend(c.token, [w[0]], w[1..]);
      }
    }
  }

  lemma HostColonToken(c: Config, h: string)
    requires AtHost(c, h) && (c.cs == S511 || c.cs == S520)
    ensures Step(c, ':') == Config(S521, Some(h + [':']), c.uri.(host := h), false, c.relative)
  {
    if c.cs == S511 {
      ActTwo(MARK, HOST, c);
    } else {
      ActOne(HOST, c);
    }
  }

  lemma DigitAfterColon(c: Config, x: char)
    requires c.cs == S521 && !c.fault && IsDigit(x)
    ensures Step(c, x) == c.(cs := S542, token := Some([x]))
  {
    ActOne(MARK, c);
    assert [] + [x] == [x];
  }

  lemma HostStays(c: Config, h: string)
    requires c.cs == S511 && !c.fault && Word(Name, h)
    ensures (Run(c, h).cs == S511 || Run(c, h).cs == S520) && AtHost(Run(c, h), h)
    ensures Run(c, h).uri == c.uri && Run(c, h).relative == c.relative
  {
    hide Step, Run, Word;
    if h == [] {
      RunEmpty(c);
    } else {
      Enter(c, h);
    }
  }

  /** After the first colon the text up to the at sign is user information again. */
  lemma AfterColon(c: Config, w: string, rest: string)
    requires c.cs == S521 && !c.fault && Word(User, w) && Colon(w) < |w| && c.token == Some(w[..Colon(w) + 1])
    requires rest == w[Colon(w) + 1..]
    ensures var e := Run(c, rest);
      AtUser(e) && e.token == Some(Kept(w)) && e.uri == c.uri && e.relative == c.relative
  {
    hide Step, Run, Word, IsDigit, Colon;
    ColonSplits(w);
    if LooksLikePort(w) {
      DigitAfterColon(c, rest[0]);
      RunCons(c, rest[0], rest[1..]);
      assert rest == [rest[0]] + rest[1..];
      DigitTail(rest);
      ScanUser(Step(c, rest[0]), rest[1..]);
    } else {
      ScanUser(c, rest);
      assert w[..Colon(w) + 1] + rest == w;
    }
  }

  lemma DigitTail(w: string)
    requires w != [] && IsDigit(w[0]) && Word(User, w)
    ensures Word(User, w[1..])
  {
  }

  lemma AroundColon(w: string, i: nat)
    requires i < |w| && w[i] == ':'
    ensures w[..i] + ([':'] + w[i + 1..]) == w && w[..i] + [':'] == w[..i + 1]
  {
  }

  lemma UserRuns(c: Config, w: string)
    requires c.cs == S511 && c.token == None && !c.fault && Word(User, w)
    ensures var e := Run(c, w + ['@']);
      e == Config(S522, None, c.uri.(userinfo := Kept(w), host := e.uri.host), false, c.relative)
  {
    hide Step, Run, Word, Kept;
    RunConcat(c, w, ['@']);
    RunOne(Run(c, w), '@');
    if Colon(w) == |w| {
      NoColonIsName(w);
      NoColonKept(w);
      if w == [] {
        RunEmpty(c);
        UserEmpty(c);
      } else {
        Enter(c, w);
        UserEnds(Run(c, w));
      }
    } else {
      ColonSplits(w);
      AroundColon(w, Colon(w));
      UserWithColon(c, w, w[..Colon(w)], w[Colon(w) + 1..]);
      UserEnds(Run(c, w));
    }
  }

  lemma UserWithColon(c: Config, w: string, h: string, rest: string)
    requires c.cs == S511 && !c.fault && Word(User, w) && Word(Name, h) && Colon(w) < |w|
    requires rest == w[Colon(w) + 1..] && h + [':'] == w[..Colon(w) + 1] && w == h + ([':'] + rest)
    ensures var e := Run(c, w);
      AtUser(e) && e.token == Some(Kept(w)) && e.uri == c.uri.(host := e.uri.host) && e.relative == c.relative
  {
    hide *;
    HostStays(c, h);
    var d := Run(c, h);
    HostColonToken(d, h);
    var e := Step(d, ':');
    AfterColon(e, w, rest);
    RunCons(d, ':', rest);
    RunConcat(c, h, [':'] + rest);
    EndOfHost(c.uri, h);
  }

  lemma EndOfHost(u: Fields, h: string)
    ensures u.(host := h) == u.(host := u.(host := h).host)
  {
  }

  lemma NoColonKept(w: string)
    requires Colon(w) == |w|
    ensures Kept(w) == w
  {
  }

  lemma UserEmpty(c: Config)
    requires c.cs == S511 && !c.fault
    ensures Step(c, '@') == Config(S522, None, c.uri.(userinfo := ""), false, c.relative)
  {
    ActTwo(MARK, USERINFO, c);
  }

  // ---------------------------------------------------------------- the scheme

  lemma {:induction false} ScanScheme(c: Config, w: string)
    requires c.cs == S508 && !c.fault && c.token.Some? && forall x :: x in w ==> IsSchemeChar(x)
    ensures Run(c, w) == c.(token := Extend(c.token, w))
    decreases |w|
  {
    if w == [] {
      assert c.token.value + w == c.token.value;
    } else {
      assert w[0] in w;
      ScanScheme(c.(token := Extend(c.token, [w[0]])), w[1..]);
      ExtendExtend(c.token, [w[0]], w[1..]);
      assert [w[0]] + w[1..] == w;
    }
  }

  lemma SchemeFirst(x: char)
    requires IsAlpha(x)
    ensures Step(INITIAL, x) == Config(S508, Some([x]), NO_FIELDS, false)
  {
    ActOne(MARK, INITIAL);
    assert [] + [x] == [x];
  }

  lemma SchemeEnds(c: Config)
    requires c.cs == S508 && c.token.Some? && !c.fault
    ensures Step(c, ':') == c.(cs := S509, token := None, uri := c.uri.(scheme := c.token.value))
  {
    ActOne(SCHEME, c);
  }

  lemma SchemeColon(w: string)
    requires IsScheme(w)
    ensures Run(INITIAL, w + ":") == Config(S509, None, NO_FIELDS.(scheme := w), false)
  {
    hide Run;
    var c := Config(S508, Some([w[0]]), NO_FIELDS, false);
    SchemeFirst(w[0]);
    hide Step, IsSchemeChar, IsAlpha;
    assert w + ":" == [w[0]] + (w[1..] + ":");
    RunCons(INITIAL, w[0], w[1..] + ":");
    RunConcat(c, w[1..], ":");
    ScanScheme(c, w[1..]);
    assert [w[0]] + w[1..] == w;
    var d := Run(c, w[1..]);
    SchemeEnds(d);
    RunOne(d, ':');
  }

  lemma SchemeRuns(w: string)
    requires IsScheme(w)
    ensures Run(INITIAL, w + "://") == Config(S511, None, NO_FIELDS.(scheme := w), false)
  {
    hide Run;
    SchemeColon(w);
    assert w + "://" == w + ":" + "//";
    RunConcat(INITIAL, w + ":", "//");
    var c := Run(INITIAL, w + ":");
    assert "//" == ['/'] + ['/'];
    RunCons(c, '/', ['/']);
    RunOne(Step(c, '/'), '/');
  }

  // ---------------------------------------------------------------- ports that fault

  lemma {:induction false} RunFaulted(c: Config, w: string)
    requires c.fault
    ensures Run(c, w).fault && Finish(Run(c, w)) == Faulted
  {
    if w == [] {
      ActFaulted(Ending(c.cs, c.relative), c);
    } else {
      RunFaulted(Step(c, w[0]), w[1..]);
    }
  }

  lemma {:induction false} ActFaulted(actions: seq<Action>, c: Config)
    requires c.fault
    ensures ActAll(actions, c) == c
  {
    if actions != [] {
      ActFaulted(actions[1..], c);
    }
  }

  lemma NullPathFaults(c: Config, x: char)
    requires c.cs == S513 && c.token == None && !c.fault
    ensures Finish(c) == Faulted && (x == '?' || x == '#' ==> Step(c, x).fault)
  {
    ActOne(PATH, c);
  }

  lemma EmptyPortExits(c: Config, x: char)
    requires (c.cs == S514 || c.cs == S521) && !c.fault && !c.relative
    ensures Finish(c) == Faulted && (x == '?' || x == '#' ==> Step(c, x).fault)
    ensures Step(c, '/') == Config(S513, None, c.uri, false)
  {
    ActTwo(MARK, PORT, c);
    ActThree(MARK, PORT, PATH, c);
  }

  lemma EmptyPortFaults(c: Config, p: Parts)
    requires (c.cs == S514 || c.cs == S521) && !c.fault && !c.relative && ValidRest(p)
    ensures Finish(Run(c, Tail(p))) == Faulted
  {
    hide Step, Finish, Run, Word;
    var rest := Before(p.query, '?') + Before(p.fragment, '#');
    EmptyPortExits(c, if rest == [] then ' ' else rest[0]);
    if p.path == [] {
      assert Tail(p) == rest;
      RestFaults(c, rest);
    } else {
      var d := Step(c, '/');
      WordTail(p.path);
      Scan(d, p.path[1..]);
      assert Tail(p) == ['/'] + (p.path[1..] + rest);
      RunCons(c, '/', p.path[1..] + rest);
      RunConcat(d, p.path[1..], rest);
      NullPathFaults(d, if rest == [] then ' ' else rest[0]);
      RestFaults(d, rest);
    }
  }

  lemma RestFaults(c: Config, rest: string)
    requires Finish(c) == Faulted && (rest != [] ==> Step(c, rest[0]).fault)
    ensures Finish(Run(c, rest)) == Faulted
  {
    if rest != [] {
      RunFaulted(Step(c, rest[0]), rest[1..]);
    }
  }

  lemma HugePortFaults(c: Config, d: string, rest: string)
    requires (c.cs == S515 || c.cs == S542) && !c.fault && c.token == Some(d) && d != [] && IsNumber(d)
    requires Value(d) > INT32_MAX && (rest != [] ==> IsExit(rest[0]))
    ensures Finish(Run(c, rest)) == Faulted
  {
    DigitsOfNumber(d);
    var e := c.(fault := true);
    ActOne(PORT, c);
    ActFaulted([MARK], e);
    ActFaulted([MARK, PATH], e);
    assert [PORT, MARK][1..] == [MARK] && [PORT, MARK, PATH][1..] == [MARK, PATH];
    RestFaults(c, rest);
  }

  lemma {:induction false} ErrorStays(c: Config, text: string)
    requires c.cs == S0 && !c.fault
    ensures Finish(Run(c, text)) == Refused
    decreases |text|
  {
    if text != [] {
      ErrorStays(Step(c, text[0]), text[1..]);
    }
  }

  // ---------------------------------------------------------------- whole texts

  /** The port cannot be saved: "host:" with nothing behind the colon, or too large a number. */
  predicate BadPort(p: Parts)
    requires p.port.Some? ==> IsNumber(p.port.value)
  {
    p.port.Some? && (p.port.value == "" || Value(p.port.value) > INT32_MAX)
  }

  lemma TailStart(p: Parts)
    requires ValidRest(p)
    ensures Tail(p) != [] ==> IsExit(Tail(p)[0])
  {
    hide Word;
  }

  /** From the end of the host on. */
  lemma PortAndTail(c: Config, p: Parts)
    requires AtHost(c, p.host) && !c.relative && ValidRest(p) && c.uri.query == "" && c.uri.fragment == "" && c.uri.port == 0
    ensures Finish(Run(c, Before(p.port, ':') + Tail(p))) ==
              if BadPort(p) then Faulted
              else Parsed(c.uri.(host := p.host, port := Value(OrEmpty(p.port)), path := p.path,
                                 query := OrEmpty(p.query), fragment := OrEmpty(p.fragment)))
  {
    hide Step, Finish, Run, Word, Tail, Ready;
    var u := c.uri.(host := p.host);
    if p.port == None {
      HostReady(c, p.host);
      TailRuns(c, u, p);
      assert [] + Tail(p) == Tail(p);
    } else {
      var d := p.port.value;
      HostColon(c, p.host);
      var e := Step(c, ':');
      assert [':'] + d + Tail(p) == [':'] + (d + Tail(p));
      RunCons(c, ':', d + Tail(p));
      if d == [] {
        assert [] + Tail(p) == Tail(p);
        EmptyPortFaults(e, p);
      } else {
        RunConcat(e, d, Tail(p));
        PortRuns(e, d);
        if Value(d) > INT32_MAX {
          TailStart(p);
          HugePortFaults(Run(e, d), d, Tail(p));
        } else {
          PortReady(Run(e, d), d);
          TailRuns(Run(e, d), u.(port := Value(d)), p);
        }
      }
    }
  }

  /** What Uri::Create makes of every absolute text with an authority made of a registered
      name: the parts, except that a port that is empty or too large stops it, and that user
      information loses everything up to a colon that a digit follows. */
  lemma ParseText(p: Parts)
    requires ValidParts(p)
    ensures Parse(Text(p)) == if BadPort(p) then Faulted else Parsed(FieldsOf(p))
  {
    hide Finish, Run, Word, Tail, Kept;
    var rest := Before(p.port, ':') + Tail(p);
    var c := Config(S511, None, NO_FIELDS.(scheme := p.scheme), false);
    SchemeRuns(p.scheme);
    RunConcat(INITIAL, p.scheme + "://", Rest(p));
    RunConcat(c, After(p.user, '@'), p.host + rest);
    var d := Run(c, After(p.user, '@'));
    if p.user.Some? {
      UserRuns(c, p.user.value);
    } else {
      RunEmpty(c);
      NoColonKept("");
    }
    HostRuns(d, p.host);
    RunConcat(d, p.host, rest);
    PortAndTail(Run(d, p.host), p);
  }
}
