/** The converse of ParseText: every accepted text that starts with a scheme and "://" is made of
    valid parts. */
module UriAccepted {
  import opened Chars
  import opened Options
  import opened UriMachine
  import opened UriText
  import opened UriPrint
  import opened UriSound
  import opened UriReferences

  // ---------------------------------------------------------------- the parts read so far

  datatype Region = InUser | InHost | InPort | InPath | InQuery | InFragment | Elsewhere

  /** Before an at sign it is open whether user information or a host is read. */
  function RegionOf(s: State): Region {
    if ReadsUser(s) then InUser
    else if ReadsHost(s) then InHost
    else if (s == S514 || s == S515) then InPort
    else if ReadsPath(s) then InPath
    else if ReadsQuery(s) then InQuery
    else if ReadsFragment(s) then InFragment
    else Elsewhere
  }

  function Authority(p: Parts): string {
    After(p.user, '@') + (p.host + Before(p.port, ':'))
  }

  /** What was read, behind "://", before the component that is being read. */
  function Done(r: Region, p: Parts): string {
    match r
    case InUser => ""
    case InHost => After(p.user, '@')
    case InPort => After(p.user, '@') + (p.host + ":")
    case InPath => Authority(p)
    case InQuery => Authority(p) + (p.path + "?")
    case InFragment => Authority(p) + (p.path + (Before(p.query, '?') + "#"))
    case Elsewhere => ""
  }

  /** The component being read, `w`: nothing yet, or what the mark says; only user information
      behind a colon may have lost its beginning. */
  predicate Current(c: Config, p: Parts, w: string) {
    if Entry(c.cs) then w == ""
    else if c.cs == S521 then w == p.host + ":"
    else if c.cs == S542 then PortRead(c) && w == p.host + ":" + c.token.value
    else if (c.cs == S255 || c.cs == S256 || c.cs == S257) then true
    else if RegionOf(c.cs).InPath? then c.token == None || c.token == Some(w)
    else c.token == Some(w) && w != ""
  }

  /** The parts that are complete are valid, and those to come are empty. */
  predicate Parted(r: Region, p: Parts) {
    && ValidParts(p) && p.fragment == None
    && (r.InUser? ==> p.user == None)
    && (r.InUser? || r.InHost? || r.InPort? ==> p.port == None && p.path == "")
    && (r.InPath? ==> p.path == "")
    && (r.InFragment? || p.query == None)
    && (r.InQuery? || r.InFragment? ==> !BadPort(p))
    && !r.Elsewhere?
  }

  predicate Tracks(c: Config, p: Parts, w: string) {
    && !c.relative && Parted(RegionOf(c.cs), p) && Current(c, p, w)
    && (PastColon(c.cs) ==> Progress(User, ReadingOf(c.cs).value.n, w))
    && (RegionOf(c.cs).InPath? && c.token.Some? ==> !BadPort(p))
  }

  /** A port is being read, with its digits behind the mark. */
  predicate PortRead(c: Config) {
    (c.cs == S542 || c.cs == S515) && c.token.Some? && IsNumber(c.token.value) && c.token.value != ""
  }

  /** Nothing can be accepted any more. */
  predicate Lost(c: Config) {
    c.fault || c.cs == S0 || c.cs == Outside
  }

  // ---------------------------------------------------------------- inside a component

  lemma HexLeads(s: State, x: char)
    requires InHex(s)
    ensures var m := Delta(s, x);
      && m.actions == []
      && (m.target == S0 || (RegionOf(m.target) == RegionOf(s) && m.target != S521 && !Entry(m.target)))
    ensures PastColon(Delta(s, x).target) ==> PastColon(s)
  {
    hide IsHex;
  }

  lemma InsideMove(s: State, x: char)
    requires !InHex(s) && Delta(s, x).target != S0
    requires RegionOf(s) == RegionOf(Delta(s, x).target) && !RegionOf(s).Elsewhere?
    requires !PastColon(s) && Delta(s, x).target != S521
    ensures !PastColon(Delta(s, x).target) && !Entry(Delta(s, x).target)
    ensures Delta(s, x).actions == if Entry(s) then [MARK] else []
  {
    hide Delta, PastColon, Entry, RegionOf;
    RegionStates(s);
    if EndsHost(s) {
      InsideHost(s, x);
    } else {
      InsideRest(s, x);
    }
  }

  lemma RegionStates(s: State)
    requires !InHex(s) && !RegionOf(s).Elsewhere? && !PastColon(s)
    ensures ReadsQuery(s) || ReadsFragment(s) || s == S513 || EndsHost(s) || s == S514 || s == S515
  {
  }

  lemma InsideHost(s: State, x: char)
    requires EndsHost(s)
    requires Delta(s, x).target != S0 && RegionOf(s) == RegionOf(Delta(s, x).target) && Delta(s, x).target != S521
    ensures !PastColon(Delta(s, x).target) && !Entry(Delta(s, x).target)
    ensures Delta(s, x).actions == if Entry(s) then [MARK] else []
  {
    hide Plain, IsDigit;
  }

  lemma InsideRest(s: State, x: char)
    requires !InHex(s) && (ReadsQuery(s) || ReadsFragment(s) || s == S513 || s == S514 || s == S515)
    requires Delta(s, x).target != S0 && RegionOf(s) == RegionOf(Delta(s, x).target)
    ensures !PastColon(Delta(s, x).target) && !Entry(Delta(s, x).target)
    ensures Delta(s, x).actions == if Entry(s) then [MARK] else []
  {
    hide Plain, IsDigit;
  }

  lemma InsideStep(c: Config, x: char)
    requires !c.relative && !Lost(c) && !Lost(Step(c, x))
    requires RegionOf(c.cs) == RegionOf(Step(c, x).cs) && !RegionOf(c.cs).Elsewhere?
    requires !PastColon(c.cs) && Step(c, x).cs != S521
    ensures !PastColon(Step(c, x).cs) && !Entry(Step(c, x).cs)
    ensures Step(c, x).token == if Entry(c.cs) then Some([x]) else Extend(c.token, [x])
  {
    hide Delta, RegionOf, PastColon;
    if InHex(c.cs) {
      HexLeads(c.cs, x);
    } else {
      InsideMove(c.cs, x);
    }
    ActOne(MARK, c);
    assert "" + [x] == [x];
  }

  lemma Inside(c: Config, p: Parts, w: string, x: char)
    requires !Lost(c) && !Lost(Step(c, x)) && Tracks(c, p, w) && RegionOf(c.cs) == RegionOf(Step(c, x).cs)
    requires !PastColon(c.cs) && Step(c, x).cs != S521
    ensures Tracks(Step(c, x), p, w + [x])
  {
    InsideStep(c, x);
    hide Step, ValidParts, BadPort, Progress;
    assert "" + [x] == [x];
  }

  /** The first colon: what was read could be the host. */
  lemma FirstColon(c: Config, p: Parts, w: string)
    requires (c.cs == S511 || c.cs == S520) && Tracks(c, p, w) && !c.fault && Word(Name, w)
    ensures Step(c, ':').cs == S521 && Tracks(Step(c, ':'), p.(host := w), w + [':'])
  {
    hide Word, Step, BadPort, IsScheme;
    assert AtHost(c, w);
    HostColonToken(c, w);
    NameIsUser(w);
    ColonPlain();
    PlainSnoc(User, w, ':');
  }

  lemma UserStepped(c: Config, x: char)
    requires !c.relative && PastColon(c.cs) && !Lost(c) && !Lost(Step(c, x)) && RegionOf(Step(c, x).cs).InUser?
    ensures var d := Step(c, x);
      match c.cs
      case S521 =>
        if IsDigit(x) then d.cs == S542 && d.token == Some([x]) && x != '%' else d.cs == (if x == '%' then S256 else S255)
      case S542 =>
        if IsDigit(x) then d.cs == S542 && d.token == Extend(c.token, [x]) && x != '%'
        else d.cs == (if x == '%' then S256 else S255)
      case S255 => d.cs == if x == '%' then S256 else S255
      case S256 => d.cs == S257 && IsHex(x)
      case _ => d.cs == S255 && IsHex(x)
    ensures (c.cs == S521 || c.cs == S542 || c.cs == S255) && x != '%' ==> Plain(User, x)
  {
    hide IsHex;
    ActOne(MARK, c);
    assert "" + [x] == [x];
  }

  lemma NumberGrows(d: string, x: char)
    requires IsNumber(d) && IsDigit(x)
    ensures IsNumber(d + [x])
  {
  }

  lemma InsideUser(c: Config, p: Parts, w: string, x: char)
    requires PastColon(c.cs) && Tracks(c, p, w)
    requires !Lost(c) && !Lost(Step(c, x)) && RegionOf(Step(c, x).cs).InUser?
    ensures Tracks(Step(c, x), p, w + [x])
  {
    UserStepped(c, x);
    UserProgress(c.cs, Step(c, x).cs, w, x);
    hide Step, Word, Plain, IsHex, Parted, IsNumber, BadPort, Progress, IsDigit, ReadingOf;
    if Step(c, x).cs == S542 {
      UserDigits(c, Step(c, x), p, w, x);
    }
  }

  /** The digits behind the first colon. */
  lemma UserDigits(c: Config, d: Config, p: Parts, w: string, x: char)
    requires (c.cs == S521 || c.cs == S542) && Current(c, p, w) && IsDigit(x) && d.cs == S542
    requires d.token == if c.cs == S521 then Some([x]) else Extend(c.token, [x])
    ensures Current(d, p, w + [x])
  {
    hide IsDigit;
    if c.cs == S521 {
      assert IsNumber([x]) by { NumberGrows("", x); assert "" + [x] == [x]; }
      assert p.host + ":" + [x] == w + [x];
    } else {
      NumberGrows(c.token.value, x);
      assert p.host + ":" + (c.token.value + [x]) == w + [x];
    }
  }

  lemma UserProgress(s: State, t: State, w: string, x: char)
    requires PastColon(s) && PastColon(t) && Progress(User, ReadingOf(s).value.n, w)
    requires match s
             case S256 => t == S257 && IsHex(x)
             case S257 => t == S255 && IsHex(x)
             case _ => if x == '%' then t == S256 else (t == S542 || t == S255) && Plain(User, x)
    ensures Progress(User, ReadingOf(t).value.n, w + [x])
  {
    hide Word, Plain, IsHex;
    if s == S256 {
      HexSnoc(User, 1, w, x);
    } else if s == S257 {
      HexSnoc(User, 2, w, x);
    } else if x == '%' {
      PercentSnoc(User, w);
    } else {
      PlainSnoc(User, w, x);
    }
  }

  // ---------------------------------------------------------------- from one component to the next

  lemma StaysAbsolute(c: Config, x: char)
    requires !c.relative && c.cs != S458
    ensures !Step(c, x).relative
  {
    hide Transition;
    ActAllSame(Transition(c.cs, c.relative, x).actions, c);
  }

  /** Before the first character of a component. */
  lemma Entered(c: Config, p: Parts)
    requires (c.cs == S522 || c.cs == S514 || c.cs == S456 || c.cs == S453) && !c.relative && Parted(RegionOf(c.cs), p)
    ensures Tracks(c, p, "")
  {
    hide Parted;
  }

  lemma RegionsEntered()
    ensures RegionOf(S522) == InHost && RegionOf(S514) == InPort && RegionOf(S456) == InQuery && RegionOf(S453) == InFragment
  {
  }

  lemma AtStep(c: Config)
    requires BeforeAt(c.cs) && !c.relative && !c.fault
    ensures Step(c, '@').cs == S522 && !Step(c, '@').fault
  {
    ActOne(USERINFO, c);
    ActTwo(MARK, USERINFO, c);
  }

  function UserPart(scheme: string, w: string): Parts {
    Parts(scheme, Some(w), "", None, "", None, None)
  }

  lemma UserPartIs(scheme: string, w: string)
    requires IsScheme(scheme) && Word(User, w)
    ensures Parted(InHost, UserPart(scheme, w)) && Done(InHost, UserPart(scheme, w)) + "" == w + ['@']
  {
    EmptyWords();
    hide Word, IsScheme;
  }

  lemma AtSign(c: Config, p: Parts, w: string)
    requires BeforeAt(c.cs) && Tracks(c, p, w) && !c.fault && Word(User, w)
    ensures Step(c, '@').cs == S522 && Tracks(Step(c, '@'), UserPart(p.scheme, w), "")
    ensures Done(InHost, UserPart(p.scheme, w)) + "" == Done(RegionOf(c.cs), p) + w + ['@']
  {
    AtStep(c);
    StaysAbsolute(c, '@');
    UserPartIs(p.scheme, w);
    hide Step, Tracks, Parted, Word, UserPart;
    RegionsEntered();
    Entered(Step(c, '@'), UserPart(p.scheme, w));
    assert "" + w + ['@'] == w + ['@'];
  }

  lemma HostRead(p: Parts, w: string)
    requires Parted(InHost, p) && Word(Name, w)
    ensures Parted(InPort, p.(host := w)) && Done(InPort, p.(host := w)) + "" == Done(InHost, p) + w + [':']
  {
    hide Word;
    Assoc(After(p.user, '@'), w, ":");
  }

  lemma ColonStep(c: Config)
    requires (c.cs == S522 || c.cs == S523) && !c.fault
    ensures Step(c, ':').cs == S514 && !Step(c, ':').fault
  {
    ActOne(HOST, c);
    ActTwo(MARK, HOST, c);
  }

  lemma HostColonTracks(c: Config, p: Parts, w: string)
    requires (c.cs == S522 || c.cs == S523) && Tracks(c, p, w) && !c.fault && Word(Name, w)
    ensures Step(c, ':').cs == S514 && Tracks(Step(c, ':'), p.(host := w), "")
    ensures Done(InPort, p.(host := w)) + "" == Done(InHost, p) + w + [':']
  {
    ColonStep(c);
    StaysAbsolute(c, ':');
    HostRead(p, w);
    hide Step, Tracks, Parted, Word, Done;
    RegionsEntered();
    Entered(Step(c, ':'), p.(host := w));
  }

  /** The parts when the authority ends. */
  function Closed(c: Config, p: Parts, w: string): Parts {
    if EndsHost(c.cs) then p.(host := w)
    else if c.cs == S542 && c.token.Some? then p.(port := c.token)
    else if (c.cs == S521 || c.cs == S514) then p.(port := Some(""))
    else p.(port := Some(w))
  }

  lemma ClosedText(c: Config, p: Parts, w: string)
    requires MayEnd(c.cs) && Tracks(c, p, w)
    ensures Authority(Closed(c, p, w)) == Done(RegionOf(c.cs), p) + w
  {
    hide ValidParts, BadPort, Progress;
    if EndsHost(c.cs) {
      NoPortText(After(p.user, '@'), w);
    } else if (c.cs == S521 || c.cs == S542) {
      PortText("", p.host, if c.cs == S542 then c.token.value else "");
    } else {
      PortText(After(p.user, '@'), p.host, w);
    }
  }

  lemma NoPortText(u: string, h: string)
    ensures u + (h + "") == u + h
  {
    assert h + "" == h;
  }

  lemma PortText(u: string, h: string, d: string)
    ensures u + (h + ([':'] + d)) == u + (h + ":") + d && "" + (h + ([':'] + d)) == "" + (h + ":" + d)
    ensures d == "" ==> h + ":" + d == h + ":"
  {
    assert h + ([':'] + d) == h + ":" + d;
    Assoc(u, h + ":", d);
  }

  lemma ClosedValid(c: Config, p: Parts, w: string)
    requires MayEnd(c.cs) && Tracks(c, p, w) && Sound(c) && !c.fault
    ensures ValidParts(Closed(c, p, w)) && Parted(InPath, Closed(c, p, w))
    ensures EndsHost(c.cs) ==> !BadPort(Closed(c, p, w))
    ensures (c.cs == S521 || c.cs == S514) ==> BadPort(Closed(c, p, w))
    ensures (c.cs == S542 || c.cs == S515) ==> PortRead(c) && c.token == Closed(c, p, w).port
  {
    hide Word;
    EmptyWords();
  }

  lemma ExitSlash(c: Config, p: Parts, w: string)
    requires MayEnd(c.cs) && Tracks(c, p, w) && Sound(c) && !c.fault
    requires !Step(c, '/').fault
    ensures Step(c, '/').cs == S513 && Tracks(Step(c, '/'), Closed(c, p, w), "/")
    ensures Done(InPath, Closed(c, p, w)) + "/" == Done(RegionOf(c.cs), p) + w + ['/']
  {
    TracksSomewhere(c, p, w);
    ClosedText(c, p, w);
    ClosedValid(c, p, w);
    SlashExits(c);
    StaysAbsolute(c, '/');
    ExitPort(c, '/');
    var q := Closed(c, p, w);
    hide Step, Tracks, Sound, Parted, Closed, BadPort, IsNumber, Value, RegionOf;
    if c.cs != S521 && c.cs != S514 {
      GoodPort(c, p, w);
    }
    PathStarts(Step(c, '/'), q);
  }

  lemma PathStarts(c: Config, p: Parts)
    requires c.cs == S513 && !c.relative && Parted(InPath, p)
    requires c.token == None || (c.token == Some("/") && !BadPort(p))
    ensures Tracks(c, p, "/")
  {
    hide Parted, BadPort;
  }

  /** What the step does to the mark. */
  lemma SlashExits(c: Config)
    requires MayEnd(c.cs) && !c.relative && !c.fault && !Step(c, '/').fault
    ensures Step(c, '/').cs == S513 && Step(c, '/').token == if (c.cs == S521 || c.cs == S514) then None else Some("/")
  {
    ExitMoves(c.cs, '/');
    hide Delta;
    assert "" + ['/'] == "/";
    if (c.cs == S511 || c.cs == S522) {
      ActTwo(MARK, HOST, c);
    } else if (c.cs == S520 || c.cs == S523) {
      ActTwo(HOST, MARK, c);
    } else if (c.cs == S521 || c.cs == S514) {
      ActTwo(MARK, PORT, c);
    } else {
      ActTwo(PORT, MARK, c);
    }
  }

  lemma HugePortExit(c: Config, x: char)
    requires PortRead(c) && !c.relative && !c.fault && IsExit(x) && !Step(c, x).fault
    ensures Value(c.token.value) <= INT32_MAX
  {
    ExitMoves(c.cs, x);
    hide Delta, IsNumber, Value, Digits;
    DigitsOfNumber(c.token.value);
    ActTwo(PORT, MARK, c);
    ActThree(PORT, MARK, PATH, c);
  }

  /** A port that is too large faults, and an empty one with nothing behind it. */
  lemma ExitPort(c: Config, x: char)
    requires MayEnd(c.cs) && !c.relative && !c.fault && IsExit(x) && !Step(c, x).fault
    ensures PortRead(c) ==> Value(c.token.value) <= INT32_MAX
    ensures (c.cs == S521 || c.cs == S514) ==> x == '/'
  {
    hide Step, IsNumber, Value;
    if c.cs == S521 || c.cs == S514 {
      EmptyPortExits(c, x);
    } else if PortRead(c) {
      HugePortExit(c, x);
    }
  }

  lemma ExitEnd(c: Config, p: Parts, w: string, x: char)
    requires MayEnd(c.cs) && Tracks(c, p, w) && Sound(c) && !c.fault
    requires (x == '?' || x == '#') && !Step(c, x).fault
    ensures Step(c, x).cs == (if x == '?' then S456 else S453) && Tracks(Step(c, x), Closed(c, p, w), "")
    ensures Done(if x == '?' then InQuery else InFragment, Closed(c, p, w)) + "" == Done(RegionOf(c.cs), p) + w + [x]
  {
    TracksSomewhere(c, p, w);
    hide Step, Tracks, Current, Parted, Closed, Sound, BadPort, Authority, Done, ValidParts, IsNumber, IsExit, RegionOf;
    Exits(x);
    ClosedText(c, p, w);
    ClosedValid(c, p, w);
    ExitPort(c, x);
    EndStates(c, x);
    var q := Closed(c, p, w);
    GoodPort(c, p, w);
    PartedOn(q);
    EndText(q, x);
    RegionsEntered();
    StaysAbsolute(c, x);
    Entered(Step(c, x), q);
  }

  lemma GoodPort(c: Config, p: Parts, w: string)
    requires (EndsHost(c.cs) || c.cs == S542 || c.cs == S515) && Parted(InPath, Closed(c, p, w))
    requires EndsHost(c.cs) ==> !BadPort(Closed(c, p, w))
    requires (c.cs == S542 || c.cs == S515) ==>
      PortRead(c) && c.token == Closed(c, p, w).port && Value(c.token.value) <= INT32_MAX
    ensures !BadPort(Closed(c, p, w))
  {
    hide Closed, Word;
  }

  lemma PartedOn(p: Parts)
    requires Parted(InPath, p) && !BadPort(p)
    ensures Parted(InQuery, p) && Parted(InFragment, p) && p.path == "" && p.query == None
  {
    hide ValidParts, BadPort;
  }

  lemma EndText(p: Parts, x: char)
    requires p.path == "" && p.query == None && (x == '?' || x == '#')
    ensures Done(if x == '?' then InQuery else InFragment, p) + "" == Authority(p) + [x]
  {
    assert "" + "?" == "?" && "" + ("" + "#") == "#";
  }

  lemma EndStates(c: Config, x: char)
    requires MayEnd(c.cs) && !c.relative && !c.fault && (x == '?' || x == '#') && !Step(c, x).fault
    ensures Step(c, x).cs == if x == '?' then S456 else S453
  {
  }

  lemma PathEndStep(c: Config, x: char)
    requires c.cs == S513 && !c.fault && (x == '?' || x == '#') && !Step(c, x).fault
    ensures Step(c, x).cs == (if x == '?' then S456 else S453) && c.token.Some?
  {
    ActOne(PATH, c);
  }

  lemma PathRead(p: Parts, w: string, x: char)
    requires Parted(InPath, p) && IsPath(w) && !BadPort(p) && (x == '?' || x == '#')
    ensures Parted(if x == '?' then InQuery else InFragment, p.(path := w))
    ensures Done(if x == '?' then InQuery else InFragment, p.(path := w)) + "" == Done(InPath, p) + w + [x]
  {
    hide Word, IsScheme;
    assert w + ("" + "#") == w + "#";
    Assoc(Authority(p), w, [x]);
  }

  lemma TokenIsPath(c: Config, p: Parts, w: string)
    requires c.cs == S513 && Tracks(c, p, w) && Sound(c) && !c.fault && c.token.Some?
    ensures IsPath(w) && Parted(InPath, p) && !BadPort(p) && !c.relative
  {
    hide Word, ValidParts, BadPort, ValidFields;
  }

  lemma PathEndTracks(c: Config, p: Parts, w: string, x: char)
    requires c.cs == S513 && Tracks(c, p, w) && Sound(c) && !c.fault && (x == '?' || x == '#') && !Step(c, x).fault
    ensures Step(c, x).cs == (if x == '?' then S456 else S453) && Tracks(Step(c, x), p.(path := w), "")
    ensures Done(if x == '?' then InQuery else InFragment, p.(path := w)) + "" == Done(InPath, p) + w + [x]
  {
    PathEndStep(c, x);
    TokenIsPath(c, p, w);
    hide Step, Word, ValidParts, BadPort, Sound, Done, Tracks, Parted, IsPath;
    PathRead(p, w, x);
    StaysAbsolute(c, x);
    RegionsEntered();
    Entered(Step(c, x), p.(path := w));
  }

  lemma QueryEndStep(c: Config)
    requires (c.cs == S456 || c.cs == S457) && !c.fault && !Step(c, '#').fault
    ensures Step(c, '#').cs == S453
  {
    ActOne(QUERY, c);
    ActTwo(MARK, QUERY, c);
  }

  lemma QueryRead(p: Parts, q: string)
    requires Parted(InQuery, p) && Word(Query, q)
    ensures Parted(InFragment, p.(query := Some(q)))
    ensures Done(InFragment, p.(query := Some(q))) + "" == Done(InQuery, p) + q + ['#']
  {
    hide Word, IsScheme;
    QueryText(Authority(p), p.path, q);
  }

  lemma QueryEndTracks(c: Config, p: Parts, w: string)
    requires (c.cs == S456 || c.cs == S457) && Tracks(c, p, w) && Sound(c) && !c.fault && !Step(c, '#').fault
    ensures Step(c, '#').cs == S453 && Tracks(Step(c, '#'), p.(query := Some(w)), "")
    ensures Done(InFragment, p.(query := Some(w))) + "" == Done(InQuery, p) + w + ['#']
  {
    EmptyWords();
    QueryEndStep(c);
    StaysAbsolute(c, '#');
    hide Step, Word, ValidParts, BadPort, ValidFields, Done;
    QueryRead(p, w);
    hide Tracks, Parted;
    RegionsEntered();
    Entered(Step(c, '#'), p.(query := Some(w)));
  }

  lemma QueryText(a: string, path: string, q: string)
    ensures a + (path + (['?'] + q + "#")) == a + (path + "?") + q + ['#']
  {
    assert path + (['?'] + q + "#") == path + "?" + (q + "#");
    assert a + (path + "?" + (q + "#")) == a + (path + "?") + (q + "#");
  }

  // ---------------------------------------------------------------- every step, every run

  lemma NameRead(c: Config, p: Parts, w: string)
    requires EndsHost(c.cs) && Tracks(c, p, w) && Sound(c) && !c.fault
    ensures Word(Name, w) && Word(User, w)
  {
    EmptyWords();
    if (c.cs == S520 || c.cs == S523) {
      NameIsUser(w);
    }
  }

  lemma UserRead(c: Config, p: Parts, w: string)
    requires (c.cs == S521 || c.cs == S542 || c.cs == S255) && Tracks(c, p, w)
    ensures Word(User, w)
  {
  }

  /** Where a move can lead that is not lost. */
  predicate LeadsOn(s: State, t: State, x: char) {
    || (RegionOf(t) == RegionOf(s) && t != S521)
    || (x == ':' && (s == S511 || s == S520) && t == S521)
    || Crosses(s, x)
  }

  /** Into the next component. */
  predicate Crosses(s: State, x: char) {
    || (x == '@' && BeforeAt(s))
    || (x == ':' && (s == S522 || s == S523))
    || (IsExit(x) && MayEnd(s))
    || ((x == '?' || x == '#') && s == S513)
    || (x == '#' && (s == S456 || s == S457))
  }

  lemma AuthorityLeads(s: State, x: char)
    requires !InHex(s)
    requires ReadsUser(s) || ReadsHost(s) || s == S514 || s == S515
    ensures var t := Delta(s, x).target; t == S0 || t == Outside || LeadsOn(s, t, x)
  {
    hide Plain, IsHex, IsDigit;
  }

  lemma TailLeads(s: State, x: char)
    requires !InHex(s) && (ReadsPath(s) || ReadsQuery(s) || ReadsFragment(s))
    ensures var t := Delta(s, x).target; t == S0 || t == Outside || LeadsOn(s, t, x)
  {
    hide Plain;
  }

  lemma Leads(c: Config, x: char)
    requires !c.relative && !Lost(c) && !Lost(Step(c, x)) && !RegionOf(c.cs).Elsewhere?
    ensures LeadsOn(c.cs, Step(c, x).cs, x)
  {
    hide Delta, Crosses, ActAll, ReadsUser, ReadsHost, ReadsPath, ReadsQuery, ReadsFragment, InHex, Entry, PastColon;
    if InHex(c.cs) {
      HexLeads(c.cs, x);
    } else if ReadsUser(c.cs) || ReadsHost(c.cs) || c.cs == S514 || c.cs == S515 {
      AuthorityLeads(c.cs, x);
    } else {
      TailLeads(c.cs, x);
    }
  }

  lemma StepTracks(c: Config, p: Parts, w: string, x: char) returns (p': Parts, w': string)
    requires !Lost(c) && Tracks(c, p, w) && Sound(c) && !Lost(Step(c, x))
    ensures Tracks(Step(c, x), p', w') && p'.scheme == p.scheme
    ensures Done(RegionOf(Step(c, x).cs), p') + w' == Done(RegionOf(c.cs), p) + w + [x]
  {
    Assoc(Done(RegionOf(c.cs), p), w, [x]);
    hide Step, Tracks, Done, Sound;
    var t := Step(c, x).cs;
    if x == ':' && (c.cs == S511 || c.cs == S520) && t == S521 {
      NameRead(c, p, w);
      FirstColon(c, p, w);
      SameUser(p, p.(host := w));
      p', w' := p.(host := w), w + [':'];
    } else if RegionOf(t) == RegionOf(c.cs) && t != S521 {
      if PastColon(c.cs) {
        InsideUser(c, p, w, x);
      } else {
        TracksSomewhere(c, p, w);
        Inside(c, p, w, x);
      }
      p', w' := p, w + [x];
    } else {
      TracksSomewhere(c, p, w);
      Leads(c, x);
      hide RegionOf, Lost, Crosses;
      p', w' := CrossTracks(c, p, w, x);
    }
  }

  lemma TracksSomewhere(c: Config, p: Parts, w: string)
    requires Tracks(c, p, w)
    ensures !RegionOf(c.cs).Elsewhere? && !c.relative
  {
  }

  lemma CrossTracks(c: Config, p: Parts, w: string, x: char) returns (p': Parts, w': string)
    requires !c.fault && Tracks(c, p, w) && Sound(c) && !Step(c, x).fault
    requires Crosses(c.cs, x)
    ensures Tracks(Step(c, x), p', w') && p'.scheme == p.scheme
    ensures Done(RegionOf(Step(c, x).cs), p') + w' == Done(RegionOf(c.cs), p) + w + [x]
  {
    hide Step, Tracks, Done, Sound, Word;
    if x == '@' && BeforeAt(c.cs) {
      if (c.cs == S511 || c.cs == S520) {
        NameRead(c, p, w);
      } else {
        UserRead(c, p, w);
      }
      AtSign(c, p, w);
      p', w' := UserPart(p.scheme, w), "";
    } else if x == ':' && (c.cs == S522 || c.cs == S523) {
      NameRead(c, p, w);
      HostColonTracks(c, p, w);
      p', w' := p.(host := w), "";
    } else if c.cs == S513 {
      PathEndTracks(c, p, w, x);
      p', w' := p.(path := w), "";
    } else if (c.cs == S456 || c.cs == S457) {
      QueryEndTracks(c, p, w);
      p', w' := p.(query := Some(w)), "";
    } else if x == '/' {
      ExitSlash(c, p, w);
      p', w' := Closed(c, p, w), "/";
    } else {
      ExitEnd(c, p, w, x);
      p', w' := Closed(c, p, w), "";
    }
  }

  lemma SameUser(p: Parts, q: Parts)
    ensures Done(InUser, p) == Done(InUser, q)
  {
  }

  lemma Exits(x: char)
    ensures IsExit(x) <==> x == '/' || x == '?' || x == '#'
  {
  }

  lemma LostStays(c: Config, x: char)
    requires Lost(c)
    ensures Lost(Step(c, x))
  {
  }

  lemma {:induction false} LostRun(c: Config, text: string)
    requires Lost(c)
    ensures Lost(Run(c, text))
    decreases |text|
  {
    if text != "" {
      LostStays(c, text[0]);
      LostRun(Step(c, text[0]), text[1..]);
    }
  }

  lemma {:induction false} RunTracks(c: Config, p: Parts, w: string, text: string) returns (p': Parts, w': string)
    requires !Lost(c) && Tracks(c, p, w) && Sound(c) && !Lost(Run(c, text))
    ensures Tracks(Run(c, text), p', w') && Sound(Run(c, text)) && p'.scheme == p.scheme
    ensures Done(RegionOf(Run(c, text).cs), p') + w' == Done(RegionOf(c.cs), p) + w + text
    decreases |text|
  {
    hide Step, Tracks, Done, Sound, Lost, RegionOf;
    if text == "" {
      p', w' := p, w;
      var d := Done(RegionOf(c.cs), p) + w;
      assert d + "" == d;
    } else {
      var d := Step(c, text[0]);
      if Lost(d) {
        LostRun(d, text[1..]);
      }
      StepSound(c, text[0]);
      var q, v := StepTracks(c, p, w, text[0]);
      p', w' := RunTracks(d, q, v, text[1..]);
      assert [text[0]] + text[1..] == text;
      Assoc(Done(RegionOf(c.cs), p) + w, [text[0]], text[1..]);
    }
  }

  // ---------------------------------------------------------------- the end of the text

  /** The parts when the text ends. */
  function Finished(c: Config, p: Parts, w: string): Parts {
    if RegionOf(c.cs).InPath? then p.(path := w)
    else if RegionOf(c.cs).InQuery? then p.(query := Some(w))
    else if RegionOf(c.cs).InFragment? then p.(fragment := Some(w))
    else Closed(c, p, w)
  }

  lemma RestText(p: Parts)
    ensures Rest(p) == Authority(p) + Tail(p)
  {
    hide Tail;
    Assoc(p.host, Before(p.port, ':'), Tail(p));
    Assoc(After(p.user, '@'), p.host + Before(p.port, ':'), Tail(p));
  }

  /** What is accepted at the end. */
  lemma FinishStates(c: Config)
    requires !c.relative && !Lost(c) && !RegionOf(c.cs).Elsewhere? && Finish(c).Parsed?
    ensures EndsHost(c.cs) || c.cs == S542 || c.cs == S515 || BehindHost(c.cs)
    ensures c.cs == S513 ==> c.token.Some?
    ensures PortRead(c) ==> Value(c.token.value) <= INT32_MAX
  {
    hide Finish, RegionOf, EndsHost, BehindHost, IsNumber, Value;
    if !Final(c.cs) {
      NotFinal(c);
    }
    FinalStates(c.cs);
    if c.cs == S521 || c.cs == S514 {
      EmptyPortExits(c, '/');
    } else if c.cs == S513 && c.token == None {
      NullPathFaults(c, '/');
    } else if PortRead(c) {
      if Value(c.token.value) > INT32_MAX {
        HugePortFaults(c, c.token.value, "");
        RunEmpty(c);
      }
    }
  }

  lemma NotFinal(c: Config)
    requires !Final(c.cs)
    ensures !Finish(c).Parsed?
  {
  }

  lemma FinalStates(s: State)
    requires Final(s) && !RegionOf(s).Elsewhere?
    ensures EndsHost(s) || EndsPort(s) || BehindHost(s)
  {
  }

  lemma FinishTracks(c: Config, p: Parts, w: string)
    requires !Lost(c) && Tracks(c, p, w) && Sound(c) && Finish(c).Parsed?
    ensures var q := Finished(c, p, w);
      ValidParts(q) && !BadPort(q) && q.scheme == p.scheme && Rest(q) == Done(RegionOf(c.cs), p) + w
  {
    TracksSomewhere(c, p, w);
    FinishStates(c);
    RestText(Finished(c, p, w));
    hide Finish, Tracks, Sound, Rest, Done, ValidParts, BadPort, Authority, Closed, Tail, IsNumber, Value;
    if EndsHost(c.cs) || c.cs == S542 || c.cs == S515 {
      ClosedEnds(c, p, w);
    } else {
      EndValid(c, p, w);
      EndTextIs(c, p, w);
    }
  }

  /** The text ends behind a host or a port. */
  lemma ClosedEnds(c: Config, p: Parts, w: string)
    requires !Lost(c) && Tracks(c, p, w) && Sound(c) && (EndsHost(c.cs) || c.cs == S542 || c.cs == S515)
    requires PortRead(c) ==> Value(c.token.value) <= INT32_MAX
    ensures var q := Closed(c, p, w);
      && ValidParts(q) && !BadPort(q) && q.scheme == p.scheme && Finished(c, p, w) == q
      && Authority(q) + Tail(q) == Done(RegionOf(c.cs), p) + w
  {
    ClosedValid(c, p, w);
    ClosedText(c, p, w);
    var q := Closed(c, p, w);
    hide Word, IsNumber, Sound, Current, Progress, Done, Authority;
    assert Tail(q) == "" + ("" + "") == "";
    assert Authority(q) + "" == Authority(q);
  }

  lemma EndValid(c: Config, p: Parts, w: string)
    requires BehindHost(c.cs) && !c.fault && Tracks(c, p, w) && Sound(c) && (c.cs == S513 ==> c.token.Some?)
    ensures ValidParts(Finished(c, p, w)) && !BadPort(Finished(c, p, w)) && Finished(c, p, w).scheme == p.scheme
  {
    EmptyWords();
    hide Word;
  }

  lemma QueryTail(a: string, path: string, q: string)
    ensures a + (path + (['?'] + q + "")) == a + (path + "?") + q
  {
    assert (['?'] + q) + "" == ['?'] + q;
    Assoc(path, "?", q);
    Assoc(a, path + "?", q);
  }

  lemma FragmentTail(a: string, path: string, q: string, f: string)
    ensures a + (path + (q + (['#'] + f))) == a + (path + (q + "#")) + f
  {
    Assoc(q, "#", f);
    Assoc(path, q + "#", f);
    Assoc(a, path + (q + "#"), f);
  }

  lemma PathTail(p: Parts, w: string)
    requires p.query == None && p.fragment == None
    ensures Tail(p.(path := w)) == w
  {
    assert w + ("" + "") == w;
  }

  lemma EndTextIs(c: Config, p: Parts, w: string)
    requires BehindHost(c.cs) && Tracks(c, p, w)
    ensures Authority(Finished(c, p, w)) + Tail(Finished(c, p, w)) == Done(RegionOf(c.cs), p) + w
  {
    hide ValidParts, BadPort, Progress, Current, Sound;
    if c.cs == S513 {
      hide Tail;
      PathTail(p, w);
    } else if (c.cs == S456 || c.cs == S457) {
      hide Authority;
      QueryTail(Authority(p), p.path, w);
      assert Authority(p.(query := Some(w))) == Authority(p) by { SameAuthority(p, Some(w), p.fragment); }
    } else {
      hide Authority;
      FragmentTail(Authority(p), p.path, Before(p.query, '?'), w);
      assert Authority(p.(fragment := Some(w))) == Authority(p) by { SameAuthority(p, p.query, Some(w)); }
    }
  }

  lemma SameAuthority(p: Parts, query: Option<string>, fragment: Option<string>)
    ensures Authority(p.(query := query, fragment := fragment)) == Authority(p)
  {
  }

  /** A text with a scheme and an authority is accepted only if it is made of valid parts with a good port. */
  lemma AcceptedHasParts(text: string) returns (p: Parts)
    requires Parse(text).Parsed? && HasAuthority(text)
    ensures ValidParts(p) && !BadPort(p) && text == Text(p)
  {
    var i :| 0 <= i && i + 3 <= |text| && IsScheme(text[..i]) && text[i..i + 3] == "://";
    var scheme, rest := text[..i], text[i + 3..];
    assert text == (scheme + "://") + rest by { Pieces(text, i); }
    SchemeRuns(scheme);
    RunConcat(INITIAL, scheme + "://", rest);
    var c := Config(S511, None, NO_FIELDS.(scheme := scheme), false);
    var p0 := Parts(scheme, None, "", None, "", None, None);
    StartTracks(scheme);
    hide Tracks, Done, Sound, Run, IsScheme, Finish, Lost, Authority, Rest;
    if Lost(Run(c, rest)) {
      LostRefuses(Run(c, rest));
    }
    var q, w := RunTracks(c, p0, "", rest);
    p := Finished(Run(c, rest), q, w);
    FinishTracks(Run(c, rest), q, w);
    TextIs(p);
    assert "" + "" + rest == rest;
  }

  lemma Pieces(text: string, i: nat)
    requires i + 3 <= |text|
    ensures text == (text[..i] + text[i..i + 3]) + text[i + 3..]
  {
  }

  lemma TextIs(p: Parts)
    ensures Text(p) == (p.scheme + "://") + Rest(p)
  {
  }

  lemma StartTracks(scheme: string)
    requires IsScheme(scheme)
    ensures var c, p := Config(S511, None, NO_FIELDS.(scheme := scheme), false), Parts(scheme, None, "", None, "", None, None);
      Tracks(c, p, "") && Sound(c) && !Lost(c) && Done(RegionOf(c.cs), p) == ""
  {
    EmptyWords();
  }

  lemma LostRefuses(c: Config)
    requires Lost(c)
    ensures !Finish(c).Parsed?
  {
    if c.fault {
      ActFaulted(Ending(c.cs, c.relative), c);
    }
  }

  // ---------------------------------------------------------------- the accepted texts

  ghost predicate MadeOfParts(text: string, p: Parts) {
    ValidParts(p) && !BadPort(p) && text == Text(p)
  }

  /** Exactly what the modelled automaton accepts behind a scheme and "://". */
  lemma AcceptedExactly(text: string)
    requires HasAuthority(text)
    ensures Parse(text).Parsed? <==> exists p :: MadeOfParts(text, p)
    ensures forall p :: MadeOfParts(text, p) ==> Parse(text) == Parsed(FieldsOf(p))
  {
    hide Parse, HasAuthority, Word, IsScheme, IsPath, BadPort, Text, FieldsOf;
    if Parse(text).Parsed? {
      var p := AcceptedHasParts(text);
      assert MadeOfParts(text, p);
    }
    forall p | MadeOfParts(text, p)
      ensures Parse(text) == Parsed(FieldsOf(p))
    {
      ParseText(p);
    }
  }

  /** A path is kept exactly behind a scheme and an authority: for every text that the modelled
      automaton accepts. */
  lemma PathIsKept(text: string)
    requires Parse(text).Parsed?
    ensures Parse(text).uri.path != "" <==> exists p :: MadeOfParts(text, p) && p.path != ""
  {
    hide Parse, HasAuthority, ValidParts, BadPort, Text, FieldsOf;
    if Parse(text).uri.path != "" {
      NeedsAuthority(text) by { NotBare(Parse(text).uri); }
      AcceptedExactly(text);
      var p :| MadeOfParts(text, p);
      PathOf(p);
    }
    forall p | MadeOfParts(text, p) && p.path != ""
      ensures Parse(text).uri.path != ""
    {
      ParseText(p);
      PathOf(p);
    }
  }

  lemma NotBare(u: Fields)
    requires u.path != ""
    ensures !Bare(u)
  {
  }

  lemma PathOf(p: Parts)
    requires ValidParts(p)
    ensures FieldsOf(p).path == p.path
  {
  }
}
