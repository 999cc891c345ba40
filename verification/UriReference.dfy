/** Texts without a scheme and "://": what the automaton makes of them, and what only an
    authority brings. */
module UriReferences {
  import opened Chars
  import opened Options
  import opened UriMachine
  import opened UriText

  // ---------------------------------------------------------------- texts without an authority

  /** [scheme ":"] path ["?" query] ["#" fragment] */
  datatype Reference = Reference(scheme: Option<string>, path: string, query: Option<string>, fragment: Option<string>)

  /** No colon before the first slash. */
  predicate NoColonSegment(w: string) {
    w == "" || w[0] == '/' || (w[0] != ':' && NoColonSegment(w[1..]))
  }

  /** The path does not start an authority, and is not taken for a scheme. */
  predicate ValidReference(r: Reference) {
    && (r.scheme.Some? ==> IsScheme(r.scheme.value))
    && Word(Path, r.path) && !("//" <= r.path)
    && (r.scheme == None ==> NoColonSegment(r.path))
    && (r.query.Some? ==> Word(Query, r.query.value))
    && (r.fragment.Some? ==> Word(Query, r.fragment.value))
  }

  function ReferenceText(r: Reference): string {
    After(r.scheme, ':') + (r.path + (Before(r.query, '?') + Before(r.fragment, '#')))
  }

  /** The states that read such a path; its characters are marked by nothing. */
  predicate Skipping(c: Config, u: Fields) {
    Skips(c.cs) && c.uri == u && !c.fault
  }

  lemma SkipEnds(c: Config, u: Fields)
    requires Skipping(c, u)
    ensures At(Step(c, '?'), S456, u) && At(Step(c, '#'), S453, u) && Finish(c) == Parsed(u)
  {
    NotAlpha();
    hide Plain, IsAlpha, IsSchemeChar, IsHex, Skips;
    SkipExit(c.cs, '?');
    SkipExit(c.cs, '#');
    SkipFinal(c.cs);
    hide Delta, EndActions, MayEnd, Final;
  }

  lemma SkipExit(s: State, x: char)
    requires Skips(s) && (x == '?' || x == '#')
    ensures Delta(s, x) == Move([], if x == '?' then S456 else S453) && !MayEnd(s)
  {
    NotAlpha();
    hide Plain, IsAlpha, IsSchemeChar, IsHex;
  }

  lemma SkipFinal(s: State)
    requires Skips(s)
    ensures EndActions(s) == [] && Final(s) && s != Outside
  {
  }

  lemma NotAlpha()
    ensures !IsAlpha('?') && !IsAlpha('#') && !IsAlpha('/') && !IsAlpha('%')
    ensures !IsSchemeChar('?') && !IsSchemeChar('#') && !IsSchemeChar('%')
  {
  }

  lemma SkipPercentStep(c: Config)
    requires Skips(c.cs) && !c.fault
    ensures At(Step(c, '%'), if c.cs == S451 || c.cs == S452 || c.cs == S508 then S3 else S5, c.uri)
  {
    NotAlpha();
    hide Plain, IsHex, IsAlpha, IsSchemeChar;
  }

  lemma SkipHexStep(c: Config, x: char)
    requires (c.cs == S3 || c.cs == S4 || c.cs == S5 || c.cs == S6) && !c.fault && IsHex(x)
    ensures At(Step(c, x), if c.cs == S3 then S4 else if c.cs == S4 then S452 else if c.cs == S5 then S6 else S455, c.uri)
  {
    hide IsHex;
  }

  lemma SkipPercent(c: Config, h: char, l: char, u: Fields)
    requires Skips(c.cs) && c.uri == u && !c.fault && IsHex(h) && IsHex(l)
    ensures At(Step(Step(Step(c, '%'), h), l), if c.cs == S451 || c.cs == S452 || c.cs == S508 then S452 else S455, u)
  {
    hide Step, IsHex;
    SkipPercentStep(c);
    SkipHexStep(Step(c, '%'), h);
    SkipHexStep(Step(Step(c, '%'), h), l);
  }

  lemma Scanned(c: Config, w: string, u: Fields)
    requires c.cs == S455 && c.uri == u && !c.fault && Word(Path, w)
    ensures Skipping(Run(c, w), u)
  {
    hide Run, Word;
    Scan(c, w);
  }

  lemma RestStep(c: Config, x: char)
    requires (c.cs == S458 || c.cs == S509 || c.cs == S510) && !c.fault && x != '/' && x != '%' && Plain(Path, x)
    ensures At(Step(c, x), S455, c.uri)
  {
  }

  /** A path that does not go on with a slash. */
  lemma RestSkips(c: Config, w: string, u: Fields)
    requires (c.cs == S458 || c.cs == S509 || c.cs == S510) && c.uri == u && !c.fault && Word(Path, w) && (w != "" ==> w[0] != '/')
    ensures Skipping(Run(c, w), u)
  {
    hide Run, Word, Step, IsHex, Plain;
    if w == "" {
      RunEmpty(c);
    } else {
      WordHead(Path, w);
      if w[0] == '%' {
        SkipPercent(c, w[1], w[2], u);
        assert w == ['%', w[1], w[2]] + w[3..];
        RunThree(c, '%', w[1], w[2], w[3..]);
        Scanned(Step(Step(Step(c, '%'), w[1]), w[2]), w[3..], u);
      } else {
        RestStep(c, w[0]);
        assert w == [w[0]] + w[1..];
        RunCons(c, w[0], w[1..]);
        Scanned(Step(c, w[0]), w[1..], u);
      }
    }
  }

  lemma SegmentStep(c: Config, x: char, u: Fields)
    requires (c.cs == S452 || c.cs == S508) && c.uri == u && !c.fault && x != '%' && x != ':' && Plain(Path, x)
    ensures var d := Step(c, x);
      d.uri == u && !d.fault && if x == '/' then d.cs == S455 else (d.cs == S452 || d.cs == S508)
  {
  }

  lemma {:induction false} SegmentSkips(c: Config, w: string, u: Fields)
    requires (c.cs == S452 || c.cs == S508) && c.uri == u && !c.fault && Word(Path, w) && NoColonSegment(w)
    ensures Skipping(Run(c, w), u)
    decreases |w|
  {
    hide Run, Word, Step, Plain, IsHex;
    if w == "" {
      RunEmpty(c);
    } else {
      WordHead(Path, w);
      if w[0] == '%' {
        SkipPercent(c, w[1], w[2], u);
        assert w == ['%', w[1], w[2]] + w[3..];
        RunThree(c, '%', w[1], w[2], w[3..]);
        BehindPercent(w);
        SegmentSkips(Step(Step(Step(c, '%'), w[1]), w[2]), w[3..], u);
      } else {
        SegmentStep(c, w[0], u);
        assert w == [w[0]] + w[1..];
        RunCons(c, w[0], w[1..]);
        if w[0] == '/' {
          Scanned(Step(c, w[0]), w[1..], u);
        } else {
          SegmentSkips(Step(c, w[0]), w[1..], u);
        }
      }
    }
  }

  lemma BehindPercent(w: string)
    requires |w| >= 3 && w[0] == '%' && IsHex(w[1]) && IsHex(w[2]) && NoColonSegment(w)
    ensures NoColonSegment(w[3..])
  {
    assert w[1..][0] == w[1] && w[1..][1..] == w[2..] && w[2..][0] == w[2] && w[2..][1..] == w[3..];
    assert NoColonSegment(w[1..]) && NoColonSegment(w[2..]);
  }

  lemma FirstStep(x: char)
    requires x != '%' && x != ':' && Plain(Path, x)
    ensures var d := Step(INITIAL, x);
      d.uri == NO_FIELDS && !d.fault && if x == '/' then d.cs == S458 else (d.cs == S452 || d.cs == S508)
  {
    ActOne(MARK, INITIAL);
  }

  lemma SlashStep(c: Config)
    requires c.cs == S509 && !c.fault
    ensures Step(c, '/').cs == S510 && Step(c, '/').uri == c.uri && !Step(c, '/').fault
  {
  }

  /** Without a scheme. */
  lemma FirstSkips(w: string)
    requires Word(Path, w) && !("//" <= w) && NoColonSegment(w)
    ensures Skipping(Run(INITIAL, w), NO_FIELDS)
  {
    hide Run, Word, Step, Plain, IsHex;
    if w == "" {
      RunEmpty(INITIAL);
    } else {
      WordHead(Path, w);
      if w[0] == '%' {
        SkipPercent(INITIAL, w[1], w[2], NO_FIELDS);
        assert w == ['%', w[1], w[2]] + w[3..];
        RunThree(INITIAL, '%', w[1], w[2], w[3..]);
        BehindPercent(w);
        SegmentSkips(Step(Step(Step(INITIAL, '%'), w[1]), w[2]), w[3..], NO_FIELDS);
      } else {
        FirstStep(w[0]);
        assert w == [w[0]] + w[1..];
        RunCons(INITIAL, w[0], w[1..]);
        if w[0] == '/' {
          OneSlash(w);
          RestSkips(Step(INITIAL, w[0]), w[1..], NO_FIELDS);
        } else {
          SegmentSkips(Step(INITIAL, w[0]), w[1..], NO_FIELDS);
        }
      }
    }
  }

  lemma OneSlash(w: string)
    requires w != "" && w[0] == '/' && !("//" <= w)
    ensures w[1..] != "" ==> w[1..][0] != '/'
  {
    TwoSlashes(w);
  }

  lemma TwoSlashes(w: string)
    ensures "//" <= w <==> |w| > 1 && w[0] == '/' && w[1] == '/'
  {
  }

  /** Behind a scheme. */
  lemma SchemedSkips(c: Config, w: string, u: Fields)
    requires c.cs == S509 && c.uri == u && !c.fault && Word(Path, w) && !("//" <= w)
    ensures Skipping(Run(c, w), u)
  {
    hide Run, Step;
    if w != "" && w[0] == '/' {
      WordTail(w);
      hide Word;
      OneSlash(w);
      SlashStep(c);
      assert w == ['/'] + w[1..];
      RunCons(c, '/', w[1..]);
      RestSkips(Step(c, '/'), w[1..], u);
    } else {
      RestSkips(c, w, u);
    }
  }

  /** Every text without an authority is accepted, with its scheme, query and fragment, and
      without its path. */
  lemma ParseReference(r: Reference)
    requires ValidReference(r)
    ensures Parse(ReferenceText(r)) ==
              Parsed(NO_FIELDS.(scheme := OrEmpty(r.scheme), query := OrEmpty(r.query), fragment := OrEmpty(r.fragment)))
  {
    hide Run, Word, Finish, Step, Skipping, IsScheme, NoColonSegment, Before;
    var rest := Before(r.query, '?') + Before(r.fragment, '#');
    var u := NO_FIELDS.(scheme := OrEmpty(r.scheme));
    var c := Run(INITIAL, After(r.scheme, ':'));
    RunConcat(INITIAL, After(r.scheme, ':'), r.path + rest);
    RunConcat(c, r.path, rest);
    if r.scheme.Some? {
      SchemeColon(r.scheme.value);
      SchemedSkips(c, r.path, u);
    } else {
      RunEmpty(INITIAL);
      FirstSkips(r.path);
    }
    var d := Run(c, r.path);
    SkipEnds(d, u);
    EndRuns(d, u, r.query, r.fragment);
  }

  // ---------------------------------------------------------------- an authority without a scheme

  /** At the end of an authority without a scheme: nothing marks a path. */
  predicate Left(c: Config, u: Fields) {
    && At(Step(c, '/'), S455, u) && At(Step(c, '?'), S456, u) && At(Step(c, '#'), S453, u)
    && Finish(c) == Parsed(u)
  }

  lemma LeaveStep(c: Config, x: char)
    requires c.relative && MayEnd(c.cs) && IsExit(x) && !c.fault
    ensures var d := ActAll(Saves(c.cs), c);
      if d.fault then Step(c, x).fault && Finish(c) == Faulted
      else At(Step(c, x), Leave(c.cs, x).target, d.uri) && Finish(c) == Parsed(d.uri)
  {
    hide Delta, ActAll, Saves, EndActions;
  }

  lemma LeftBy(c: Config)
    requires c.relative && MayEnd(c.cs) && !c.fault && !ActAll(Saves(c.cs), c).fault
    ensures Left(c, ActAll(Saves(c.cs), c).uri)
  {
    hide Step, Finish, ActAll, Saves, MayEnd;
    LeaveStep(c, '/');
    LeaveStep(c, '?');
    LeaveStep(c, '#');
  }

  lemma HostLeft(c: Config, h: string)
    requires AtHost(c, h) && c.relative
    ensures Left(c, c.uri.(host := h))
  {
    hide Left;
    ActOne(HOST, c);
    ActTwo(MARK, HOST, c);
    LeftBy(c);
  }

  /** An empty port is no fault here. */
  lemma PortLeft(c: Config, d: string)
    requires c.relative && !c.fault && IsNumber(d) && Value(d) <= INT32_MAX
    requires if d == "" then c.cs == S514 || c.cs == S521 else (c.cs == S515 || c.cs == S542) && c.token == Some(d)
    ensures Left(c, if d == "" then c.uri else c.uri.(port := Value(d)))
  {
    hide Left, IsNumber;
    DigitsOfNumber(d);
    ActOne(PORT, c);
    ActTwo(MARK, PORT, c);
    LeftBy(c);
  }

  lemma HugePortLeft(c: Config, d: string, rest: string)
    requires (c.cs == S515 || c.cs == S542) && c.relative && !c.fault && c.token == Some(d) && d != "" && IsNumber(d)
    requires Value(d) > INT32_MAX && (rest != "" ==> IsExit(rest[0]))
    ensures Finish(Run(c, rest)) == Faulted
  {
    hide Step, Finish, Run, IsNumber;
    DigitsOfNumber(d);
    ActOne(PORT, c);
    LeaveStep(c, if rest == "" then '/' else rest[0]);
    RestFaults(c, rest);
  }

  lemma TailSkips(c: Config, u: Fields, p: Parts)
    requires Left(c, u) && u.query == "" && u.fragment == "" && ValidRest(p)
    ensures Finish(Run(c, Tail(p))) == Parsed(u.(query := OrEmpty(p.query), fragment := OrEmpty(p.fragment)))
  {
    hide Step, Finish, Word, Run, Before, Skipping;
    var rest := Before(p.query, '?') + Before(p.fragment, '#');
    if p.path == "" {
      assert Tail(p) == rest;
      EndRuns(c, u, p.query, p.fragment);
    } else {
      var d := Step(c, '/');
      WordTail(p.path);
      Scanned(d, p.path[1..], u);
      var e := Run(d, p.path[1..]);
      assert Tail(p) == ['/'] + (p.path[1..] + rest);
      RunCons(c, '/', p.path[1..] + rest);
      RunConcat(d, p.path[1..], rest);
      SkipEnds(e, u);
      EndRuns(e, u, p.query, p.fragment);
    }
  }

  predicate HugePort(p: Parts)
    requires p.port.Some? ==> IsNumber(p.port.value)
  {
    p.port.Some? && Value(p.port.value) > INT32_MAX
  }

  /** From the end of the host on. */
  lemma PortAndRest(c: Config, p: Parts)
    requires AtHost(c, p.host) && c.relative && ValidRest(p) && c.uri.query == "" && c.uri.fragment == "" && c.uri.port == 0
    ensures Finish(Run(c, Before(p.port, ':') + Tail(p))) ==
              if HugePort(p) then Faulted
              else Parsed(c.uri.(host := p.host, port := Value(OrEmpty(p.port)), query := OrEmpty(p.query),
                                 fragment := OrEmpty(p.fragment)))
  {
    hide Step, Finish, Run, Word, Tail, Left;
    var u := c.uri.(host := p.host);
    if p.port == None {
      HostLeft(c, p.host);
      TailSkips(c, u, p);
      assert "" + Tail(p) == Tail(p);
    } else {
      var d := p.port.value;
      HostColon(c, p.host);
      var e := Step(c, ':');
      assert [':'] + d + Tail(p) == [':'] + (d + Tail(p));
      RunCons(c, ':', d + Tail(p));
      RunConcat(e, d, Tail(p));
      if d == "" {
        RunEmpty(e);
        PortLeft(e, d);
        TailSkips(e, u, p);
      } else {
        PortRuns(e, d);
        if Value(d) > INT32_MAX {
          TailStart(p);
          HugePortLeft(Run(e, d), d, Tail(p));
        } else {
          PortLeft(Run(e, d), d);
          TailSkips(Run(e, d), u.(port := Value(d)), p);
        }
      }
    }
  }

  lemma TwoSlashesRun()
    ensures Run(INITIAL, "//") == Config(S511, None, NO_FIELDS, false, true)
  {
    hide Plain, IsAlpha;
    NotAlpha();
    var c := Config(S458, None, NO_FIELDS, false);
    assert Step(INITIAL, '/') == c;
    assert "//" == ['/'] + ['/'];
    RunCons(INITIAL, '/', ['/']);
    RunOne(c, '/');
  }

  /** What Uri::Create makes of every text "//" [user "@"] host [":" port] path ["?" query]
      ["#" fragment] with a registered name: the parts without the path, unless the port is too
      large; an empty port is accepted. */
  lemma ParseRelative(p: Parts)
    requires ValidRest(p)
    ensures Parse("//" + Rest(p)) == if HugePort(p) then Faulted else Parsed(FieldsOf(p).(scheme := "", path := ""))
  {
    hide Finish, Run, Word, Tail, Kept;
    var rest := Before(p.port, ':') + Tail(p);
    var c := Config(S511, None, NO_FIELDS, false, true);
    TwoSlashesRun();
    RunConcat(INITIAL, "//", Rest(p));
    RunConcat(c, After(p.user, '@'), p.host + rest);
    var d := Run(c, After(p.user, '@'));
    if p.user.Some? {
      UserRuns(c, p.user.value);
    } else {
      RunEmpty(c);
      NoColonKept("");
    }
    HostRuns(d, p.host);
    RunConcat(d, p.host, rest);
    PortAndRest(Run(d, p.host), p);
  }

  // ---------------------------------------------------------------- what an authority is for

  /** The text starts with a scheme and "://". */
  predicate HasAuthority(text: string) {
    exists i :: 0 <= i && i + 3 <= |text| && IsScheme(text[..i]) && text[i..i + 3] == "://"
  }

  /** Nothing but scheme, query and fragment. */
  predicate Bare(u: Fields) {
    u.userinfo == "" && u.host == "" && u.path == "" && u.port == 0
  }

  /** The states reached without an authority; the first ones know what was read. */
  predicate Early(c: Config, text: string) {
    && Bare(c.uri) && !c.relative
    && (c.cs == S451 || c.cs == S508 || Unmarked(c.cs) || ReadsQuery(c.cs) || ReadsFragment(c.cs))
    && (c.cs == S451 ==> text == "")
    && (c.cs == S458 ==> text == "/")
    && (c.cs == S508 ==> c.token == Some(text) && IsScheme(text))
    && (c.cs == S509 ==> IsScheme(c.uri.scheme) && text == c.uri.scheme + ":")
    && (c.cs == S510 ==> IsScheme(c.uri.scheme) && text == c.uri.scheme + ":/")
  }

  /** The states reached behind "//". */
  predicate Pathless(c: Config) {
    c.relative && c.uri.path == "" && !ReadsPath(c.cs)
  }

  predicate BareOrAuthority(c: Config, text: string) {
    c.fault || HasAuthority(text) || Early(c, text) || ("//" <= text && Pathless(c))
  }

  lemma AuthorityStays(text: string, x: char)
    requires HasAuthority(text)
    ensures HasAuthority(text + [x])
  {
    var i :| 0 <= i && i + 3 <= |text| && IsScheme(text[..i]) && text[i..i + 3] == "://";
    assert (text + [x])[..i] == text[..i] && (text + [x])[i..i + 3] == text[i..i + 3];
  }

  lemma AuthorityStarts(scheme: string)
    requires IsScheme(scheme)
    ensures HasAuthority(scheme + ":/" + "/")
  {
    var text := scheme + ":/" + "/";
    assert text[..|scheme|] == scheme && text[|scheme|..|scheme| + 3] == "://";
  }

  lemma FaultStays(c: Config, x: char)
    requires c.fault
    ensures Step(c, x).fault
  {
  }

  lemma SchemeGrows(w: string, x: char)
    requires if w == "" then IsAlpha(x) else IsScheme(w) && IsSchemeChar(x)
    ensures IsScheme(w + [x])
  {
  }

  lemma NotEmpty(w: string)
    requires IsScheme(w)
    ensures w != ""
  {
  }

  lemma StepEarly(c: Config, text: string, x: char)
    requires !c.fault && Early(c, text)
    ensures BareOrAuthority(Step(c, x), text + [x])
  {
    hide HasAuthority, BareOrAuthority, Step;
    if c.cs == S451 {
      FirstEarly(c, x);
    } else if c.cs == S508 {
      SchemeEarly(c, text, x);
    } else if (c.cs == S509 || c.cs == S510) {
      SlashEarly(c, text, x);
    } else if (ReadsQuery(c.cs) || ReadsFragment(c.cs)) {
      QueryEarly(c, text, x);
    } else if c.cs == S458 {
      SecondSlash(c, x);
    } else {
      SkipEarly(c, text, x);
    }
  }

  lemma SlashEarly(c: Config, text: string, x: char)
    requires !c.fault && Early(c, text) && (c.cs == S509 || c.cs == S510)
    ensures BareOrAuthority(Step(c, x), text + [x])
  {
    hide HasAuthority, IsScheme, Plain;
    assert c.cs == S509 ==> text + "/" == c.uri.scheme + ":/";
    if c.cs == S510 {
      AuthorityStarts(c.uri.scheme);
    }
  }

  lemma QueryEarly(c: Config, text: string, x: char)
    requires !c.fault && Early(c, text) && (ReadsQuery(c.cs) || ReadsFragment(c.cs))
    ensures BareOrAuthority(Step(c, x), text + [x])
  {
    hide Delta, ActAll;
    QueryTransition(c.cs, x);
    ActAllSame(Delta(c.cs, x).actions, c);
    ActAllBare(Delta(c.cs, x).actions, c);
  }

  lemma QueryTransition(s: State, x: char)
    requires ReadsQuery(s) || ReadsFragment(s)
    ensures var m := Delta(s, x);
      && (forall a :: a in m.actions ==> a == MARK || a == QUERY)
      && (ReadsQuery(m.target) || ReadsFragment(m.target) || m.target == S0)
  {
    hide Plain, IsHex;
  }

  lemma {:induction false} ActAllBare(actions: seq<Action>, c: Config)
    requires Bare(c.uri) && forall a :: a in actions ==> a == MARK || a == QUERY
    ensures Bare(ActAll(actions, c).uri)
  {
    if actions != [] {
      assert actions[0] in actions && forall a :: a in actions[1..] ==> a in actions;
      ActAllBare(actions[1..], Act(actions[0], c));
    }
  }

  lemma SkipEarly(c: Config, text: string, x: char)
    requires !c.fault && Early(c, text) && Unmarked(c.cs) && c.cs != S509 && c.cs != S510 && c.cs != S458
    ensures BareOrAuthority(Step(c, x), text + [x])
  {
    hide HasAuthority, IsScheme, Plain, IsHex;
  }

  lemma SecondSlash(c: Config, x: char)
    requires !c.fault && Early(c, "/") && c.cs == S458
    ensures BareOrAuthority(Step(c, x), "/" + [x])
  {
    hide HasAuthority, IsScheme, Plain, IsHex;
    assert x == '/' ==> "/" + [x] == "//";
  }

  lemma {:induction false} ActAllPathless(actions: seq<Action>, c: Config)
    requires PATH !in actions
    ensures ActAll(actions, c).uri.path == c.uri.path
  {
    if actions != [] {
      ActAllPathless(actions[1..], Act(actions[0], c));
    }
  }

  lemma DeltaPathless(s: State, x: char)
    requires !ReadsPath(s) && !(MayEnd(s) && IsExit(x))
    ensures PATH !in Delta(s, x).actions && !ReadsPath(Delta(s, x).target)
  {
    hide Plain, IsHex, IsDigit, IsAlpha, IsSchemeChar;
  }

  lemma LeavePathless(s: State, x: char)
    ensures PATH !in Leave(s, x).actions && !ReadsPath(Leave(s, x).target)
  {
  }

  lemma StepPathless(c: Config, x: char)
    requires !c.fault && Pathless(c)
    ensures Step(c, x).fault || Pathless(Step(c, x))
  {
    hide Delta, ActAll, Leave, ReadsPath, MayEnd;
    if Leaves(c.cs, c.relative, x) {
      LeavePathless(c.cs, x);
    } else {
      DeltaPathless(c.cs, x);
    }
    ActAllPathless(Transition(c.cs, c.relative, x).actions, c);
    ActAllSame(Transition(c.cs, c.relative, x).actions, c);
  }

  /** Actions leave the rest of the machine alone. */
  lemma {:induction false} ActAllSame(actions: seq<Action>, c: Config)
    ensures ActAll(actions, c).cs == c.cs && ActAll(actions, c).relative == c.relative
  {
    if actions != [] {
      ActAllSame(actions[1..], Act(actions[0], c));
    }
  }

  lemma FirstEarly(c: Config, x: char)
    requires !c.fault && Early(c, "") && c.cs == S451
    ensures BareOrAuthority(Step(c, x), "" + [x])
  {
    hide HasAuthority, Plain, IsHex;
    ActOne(MARK, c);
    if IsAlpha(x) {
      SchemeGrows("", x);
    }
  }

  lemma SchemeEarly(c: Config, text: string, x: char)
    requires !c.fault && Early(c, text) && c.cs == S508
    ensures BareOrAuthority(Step(c, x), text + [x])
  {
    hide HasAuthority, IsScheme, Plain, IsHex, IsSchemeChar, IsAlpha;
    ActOne(SCHEME, c);
    if IsSchemeChar(x) {
      NotEmpty(text);
      SchemeGrows(text, x);
    }
  }

  lemma StaysEarly(c: Config, text: string, x: char)
    requires BareOrAuthority(c, text)
    ensures BareOrAuthority(Step(c, x), text + [x])
  {
    hide Step, HasAuthority, Early, Pathless;
    if c.fault {
      FaultStays(c, x);
    } else if HasAuthority(text) {
      AuthorityStays(text, x);
    } else if Early(c, text) {
      StepEarly(c, text, x);
    } else {
      StepPathless(c, x);
    }
  }

  lemma {:induction false} RunEarly(text: string, n: nat)
    requires n <= |text|
    ensures BareOrAuthority(Run(INITIAL, text[..n]), text[..n])
  {
    hide Run, Step, BareOrAuthority;
    if n == 0 {
      RunEmpty(INITIAL);
      InitialEarly();
    } else {
      RunEarly(text, n - 1);
      RunNext(INITIAL, text, n - 1);
      assert text[..n] == text[..n - 1] + [text[n - 1]];
      StaysEarly(Run(INITIAL, text[..n - 1]), text[..n - 1], text[n - 1]);
    }
  }

  lemma InitialEarly()
    ensures BareOrAuthority(INITIAL, "")
  {
  }

  lemma EndEarly(c: Config, text: string)
    requires !c.fault && Early(c, text) && Finish(c).Parsed?
    ensures Bare(Finish(c).uri)
  {
    hide IsScheme;
    ActOne(QUERY, c);
    ActOne(FRAGMENT, c);
    ActTwo(MARK, QUERY, c);
    ActTwo(MARK, FRAGMENT, c);
  }

  lemma EndPathless(c: Config)
    requires !c.fault && Pathless(c) && Finish(c).Parsed?
    ensures Finish(c).uri.path == ""
  {
    assert PATH !in Ending(c.cs, c.relative);
    hide Ending;
    ActAllPathless(Ending(c.cs, c.relative), c);
  }

  /** Whatever the text: a path comes only from a text that starts with a scheme and "://", and
      user information, a host or a port only from such a text or one that starts with "//". */
  lemma NeedsAuthority(text: string)
    requires Parse(text).Parsed?
    ensures Parse(text).uri.path != "" ==> HasAuthority(text)
    ensures !Bare(Parse(text).uri) ==> HasAuthority(text) || "//" <= text
  {
    hide Run, Finish, HasAuthority, Early, Pathless;
    RunEarly(text, |text|);
    assert text[..|text|] == text;
    var c := Run(INITIAL, text);
    if c.fault {
      RunFaulted(c, "");
      RunEmpty(c);
    } else if !HasAuthority(text) {
      if Early(c, text) {
        EndEarly(c, text);
      } else {
        EndPathless(c);
      }
    }
  }
}
