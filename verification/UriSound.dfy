/** Whatever the automaton accepts has valid components. */
module UriSound {
  import opened Chars
  import opened Options
  import opened UriMachine
  import opened UriText
  import opened UriPrint

  // ---------------------------------------------------------------- components read so far

  /** A component with `n` characters of a percent-encoding at its end. */
  predicate Progress(k: Kind, n: nat, t: string) {
    if n == 0 then Word(k, t)
    else if n == 1 then t != [] && t[|t| - 1] == '%' && Word(k, t[..|t| - 1])
    else |t| >= 2 && t[|t| - 2] == '%' && IsHex(t[|t| - 1]) && Word(k, t[..|t| - 2])
  }

  lemma {:induction false} WordConcat(k: Kind, a: string, b: string)
    requires Word(k, a) && Word(k, b)
    ensures Word(k, a + b)
    decreases |a|
  {
    hide Word, Plain, IsHex;
    if a == [] {
      assert a + b == b;
    } else {
      WordHead(k, a);
      if a[0] == '%' {
        WordConcat(k, a[3..], b);
        WordPercent(k, a[1], a[2], a[3..] + b);
        assert a + b == ['%', a[1], a[2]] + (a[3..] + b);
      } else {
        WordConcat(k, a[1..], b);
        WordPlain(k, a[0], a[1..] + b);
        assert a + b == [a[0]] + (a[1..] + b);
      }
    }
  }

  lemma WordPlain(k: Kind, x: char, w: string)
    requires x != '%' && Plain(k, x) && Word(k, w)
    ensures Word(k, [x] + w)
  {
    hide Plain;
    assert ([x] + w)[1..] == w;
  }

  lemma WordPercent(k: Kind, h: char, l: char, w: string)
    requires IsHex(h) && IsHex(l) && Word(k, w)
    ensures Word(k, ['%', h, l] + w)
  {
    hide Plain, IsHex;
    assert (['%', h, l] + w)[3..] == w;
  }

  lemma PlainWord(k: Kind, x: char)
    requires x != '%' && Plain(k, x)
    ensures Word(k, [x])
  {
    assert [x][1..] == [];
  }

  lemma PercentWord(k: Kind, h: char, l: char)
    requires IsHex(h) && IsHex(l)
    ensures Word(k, ['%', h, l])
  {
    assert ['%', h, l][3..] == [];
  }

  lemma PlainSnoc(k: Kind, t: string, x: char)
    requires Word(k, t) && x != '%' && Plain(k, x)
    ensures Progress(k, 0, t + [x])
  {
    PlainWord(k, x);
    WordConcat(k, t, [x]);
  }

  lemma PercentSnoc(k: Kind, t: string)
    requires Word(k, t)
    ensures Progress(k, 1, t + ['%'])
  {
    assert (t + ['%'])[..|t|] == t;
  }

  lemma HexSnoc(k: Kind, n: nat, t: string, x: char)
    requires 1 <= n <= 2 && Progress(k, n, t) && IsHex(x)
    ensures Progress(k, if n == 1 then 2 else 0, t + [x])
  {
    hide Word, IsHex;
    var u := t + [x];
    if n == 1 {
      assert u[..|u| - 2] == t[..|t| - 1];
    } else {
      var w := t[..|t| - 2];
      PercentWord(k, t[|t| - 1], x);
      WordConcat(k, w, ['%', t[|t| - 1], x]);
      assert w + ['%', t[|t| - 1], x] == u;
    }
  }

  lemma {:induction false} NameIsUser(w: string)
    requires Word(Name, w)
    ensures Word(User, w)
    decreases |w|
  {
    if w != [] {
      if w[0] == '%' {
        NameIsUser(w[3..]);
      } else {
        NameIsUser(w[1..]);
      }
    }
  }

  // ---------------------------------------------------------------- the invariant

  datatype Reading = Reading(k: Kind, n: nat)

  function ReadingOf(s: State): Option<Reading> {
    match s
    case S520 => Some(Reading(Name, 0))
    case S253 => Some(Reading(Name, 1))
    case S254 => Some(Reading(Name, 2))
    case S523 => Some(Reading(Name, 0))
    case S258 => Some(Reading(Name, 1))
    case S259 => Some(Reading(Name, 2))
    case S521 => Some(Reading(User, 0))
    case S542 => Some(Reading(User, 0))
    case S255 => Some(Reading(User, 0))
    case S256 => Some(Reading(User, 1))
    case S257 => Some(Reading(User, 2))
    case S513 => Some(Reading(Path, 0))
    case S243 => Some(Reading(Path, 1))
    case S244 => Some(Reading(Path, 2))
    case S457 => Some(Reading(Query, 0))
    case S7 => Some(Reading(Query, 1))
    case S8 => Some(Reading(Query, 2))
    case S454 => Some(Reading(Query, 0))
    case S1 => Some(Reading(Query, 1))
    case S2 => Some(Reading(Query, 2))
    case _ => None
  }

  predicate TokenOk(s: State, t: string) {
    && (ReadingOf(s).Some? ==> Progress(ReadingOf(s).value.k, ReadingOf(s).value.n, t))
    && (s == S513 || s == S243 || s == S244 ==> t != "" && t[0] == '/')
    && (s == S542 || s == S515 ==> IsNumber(t))
    && (s == S508 ==> IsScheme(t))
  }

  predicate Sound(c: Config) {
    !c.fault ==> ValidFields(c.uri) && (c.token.Some? ==> TokenOk(c.cs, c.token.value))
  }

  predicate Simple(s: State) {
    s != S542 && s != S515 && s != S508 && !ReadsPath(s)
  }

  /** An action may save a token when the field accepts it. */
  predicate Fits(a: Action, t: string) {
    match a
    case MARK => true
    case SCHEME => IsScheme(t)
    case USERINFO => Word(User, t)
    case HOST => Word(Name, t)
    case PORT => true
    case PATH => IsPath(t)
    case QUERY => Word(Query, t)
    case FRAGMENT => Word(Query, t)
  }

  /** What an action leaves of the token, unless it faults. */
  function TokenAfter(a: Action, t: Option<string>): Option<string> {
    if a == MARK then Some("") else if a == HOST then t else None
  }

  /** Every action of the list saves only what its field accepts. */
  predicate FitsAll(actions: seq<Action>, t: Option<string>) {
    actions != [] ==>
      (t.Some? ==> Fits(actions[0], t.value)) && FitsAll(actions[1..], TokenAfter(actions[0], t))
  }

  function TokenAfterAll(actions: seq<Action>, t: Option<string>): Option<string> {
    if actions == [] then t else TokenAfterAll(actions[1..], TokenAfter(actions[0], t))
  }

  lemma ActKeeps(a: Action, c: Config)
    requires ValidFields(c.uri) && (c.token.Some? ==> Fits(a, c.token.value))
    ensures ValidFields(Act(a, c).uri)
    ensures !Act(a, c).fault ==> Act(a, c).token == TokenAfter(a, c.token)
  {
    hide Word;
  }

  lemma {:induction false} ActAllKeeps(actions: seq<Action>, c: Config)
    requires ValidFields(c.uri) && FitsAll(actions, c.token)
    ensures ValidFields(ActAll(actions, c).uri)
    ensures !ActAll(actions, c).fault ==> ActAll(actions, c).token == TokenAfterAll(actions, c.token)
  {
    hide ValidFields, Act, Fits, TokenAfter;
    if actions != [] {
      ActKeeps(actions[0], c);
      if Act(actions[0], c).fault {
        ActFaulted(actions[1..], Act(actions[0], c));
      } else {
        ActAllKeeps(actions[1..], Act(actions[0], c));
      }
    }
  }

  // ---------------------------------------------------------------- every transition

  /** What a transition needs: its saves fit, and the token is right for its target. */
  predicate GoodMove(m: Move, t: Option<string>, x: char) {
    && FitsAll(m.actions, t)
    && (TokenAfterAll(m.actions, t).Some? ==> TokenOk(m.target, TokenAfterAll(m.actions, t).value + [x]))
  }

  lemma GoodNone(target: State, t: Option<string>, x: char)
    requires t.Some? ==> TokenOk(target, t.value + [x])
    ensures GoodMove(Move([], target), t, x)
  {
  }

  lemma GoodOne(a: Action, target: State, t: Option<string>, x: char)
    requires t.Some? ==> Fits(a, t.value)
    requires TokenAfter(a, t).Some? ==> TokenOk(target, TokenAfter(a, t).value + [x])
    ensures GoodMove(Move([a], target), t, x)
  {
    hide TokenOk, Fits, TokenAfter;
    assert [a] == [a] + [];
    FitsCons(a, [], t);
  }

  lemma FitsCons(a: Action, rest: seq<Action>, t: Option<string>)
    ensures FitsAll([a] + rest, t) == ((t.Some? ==> Fits(a, t.value)) && FitsAll(rest, TokenAfter(a, t)))
    ensures TokenAfterAll([a] + rest, t) == TokenAfterAll(rest, TokenAfter(a, t))
  {
    hide Fits, TokenAfter;
    assert ([a] + rest)[1..] == rest;
  }

  lemma GoodTwo(a: Action, b: Action, target: State, t: Option<string>, x: char)
    requires t.Some? ==> Fits(a, t.value)
    requires TokenAfter(a, t).Some? ==> Fits(b, TokenAfter(a, t).value)
    requires var u := TokenAfter(b, TokenAfter(a, t)); u.Some? ==> TokenOk(target, u.value + [x])
    ensures GoodMove(Move([a, b], target), t, x)
  {
    hide TokenOk, Fits, TokenAfter;
    assert [a, b] == [a] + [b];
    FitsCons(a, [b], t);
    GoodOne(b, target, TokenAfter(a, t), x);
  }

  lemma GoodThree(a: Action, b: Action, d: Action, target: State, t: Option<string>, x: char)
    requires t.Some? ==> Fits(a, t.value)
    requires TokenAfter(a, t).Some? ==> Fits(b, TokenAfter(a, t).value)
    requires var u := TokenAfter(b, TokenAfter(a, t)); u.Some? ==> Fits(d, u.value)
    requires var u := TokenAfter(d, TokenAfter(b, TokenAfter(a, t))); u.Some? ==> TokenOk(target, u.value + [x])
    ensures GoodMove(Move([a, b, d], target), t, x)
  {
    hide TokenOk, Fits, TokenAfter;
    assert [a, b, d] == [a] + [b, d];
    FitsCons(a, [b, d], t);
    GoodTwo(b, d, target, TokenAfter(a, t), x);
  }

  lemma HexGood(s: State, t: Option<string>, x: char, target: State)
    requires t.Some? ==> TokenOk(s, t.value)
    requires ReadingOf(s).Some? && ReadingOf(s).value.n in {1, 2}
    requires ReadingOf(target) == Some(Reading(ReadingOf(s).value.k, if ReadingOf(s).value.n == 1 then 2 else 0))
    requires (target != S542 && target != S508 && target != S515) && (ReadsPath(target) ==> ReadsPath(s))
    ensures GoodMove(HexMove(x, target), t, x)
  {
    hide Progress, IsHex;
    if t.Some? && IsHex(x) {
      HexSnoc(ReadingOf(s).value.k, ReadingOf(s).value.n, t.value, x);
    }
    GoodNone(if IsHex(x) then target else S0, t, x);
  }

  /** Staying in a component, perhaps as another kind of component that it also is. */
  lemma LoopGood(k: Kind, t: Option<string>, x: char, percent: State, loop: State)
    requires t.Some? ==> Word(k, t.value)
    requires ReadingOf(percent) == Some(Reading(k, 1)) && ReadingOf(loop) == Some(Reading(k, 0))
    requires (percent != S542 && percent != S515 && percent != S508) && (loop != S542 && loop != S515 && loop != S508)
    requires ReadsPath(percent) || ReadsPath(loop) ==> t.Some? ==> t.value != "" && t.value[0] == '/'
    ensures GoodMove(WordMove(k, x, [], percent, loop), t, x)
  {
    hide Progress, Word, Plain;
    if x == '%' {
      if t.Some? {
        PercentSnoc(k, t.value);
      }
      GoodNone(percent, t, x);
    } else if Plain(k, x) {
      if t.Some? {
        PlainSnoc(k, t.value, x);
      }
      GoodNone(loop, t, x);
    } else {
      GoodNone(S0, t, x);
    }
  }

  lemma EntryGood(k: Kind, t: Option<string>, x: char, percent: State, loop: State)
    requires ReadingOf(percent) == Some(Reading(k, 1)) && ReadingOf(loop) == Some(Reading(k, 0))
    requires Simple(percent) && Simple(loop)
    ensures GoodMove(WordMove(k, x, [MARK], percent, loop), t, x)
  {
    EmptyWords();
    hide Progress, Plain, Word, GoodMove;
    if x == '%' {
      PercentSnoc(k, "");
      GoodOne(MARK, percent, t, x);
    } else if Plain(k, x) {
      PlainSnoc(k, "", x);
      GoodOne(MARK, loop, t, x);
    } else {
      GoodNone(S0, t, x);
    }
  }

  lemma SkipGood(t: Option<string>, x: char, percent: State, slash: State, loop: State)
    requires Free(percent) && Free(slash) && Free(loop)
    ensures GoodMove(SkipMove(x, percent, slash, loop), t, x)
  {
    hide TokenOk, Plain, ReadingOf;
    var target := SkipMove(x, percent, slash, loop).target;
    assert Free(target) by { FreeStates(); }
    if t.Some? {
      FreeOk(target, t.value + [x]);
    }
    GoodNone(target, t, x);
  }

  /** A state that asks nothing of the token. */
  predicate Free(s: State) {
    ReadingOf(s) == None && s != S515 && s != S508
  }

  lemma FreeOk(s: State, t: string)
    requires Free(s)
    ensures TokenOk(s, t)
  {
  }

  lemma FreeStates()
    ensures Free(S0) && Free(S453) && Free(S456)
  {
  }

  lemma SlashGood()
    ensures TokenOk(S513, "" + ['/'])
  {
    assert "" + ['/'] == "/";
    SlashIsWord();
  }

  lemma ExitGood(s: State, t: Option<string>, x: char)
    requires MayEnd(s) && IsExit(x) && (t.Some? ==> TokenOk(s, t.value))
    ensures GoodMove(Delta(s, x), t, x)
  {
    hide TokenOk, Word, Delta;
    ExitMoves(s, x);
    if s == S511 || s == S522 {
      HostExitGood(MARK, HOST, t, x);
    } else if s == S520 || s == S523 {
      if t.Some? {
        NameToken(s, t);
      }
      HostExitGood(HOST, MARK, t, x);
    } else if s == S521 || s == S514 {
      PortExitGood(MARK, PORT, t, x);
    } else {
      PortExitGood(PORT, MARK, t, x);
    }
  }

  lemma HostExitGood(a: Action, b: Action, t: Option<string>, x: char)
    requires (a == MARK && b == HOST) || (a == HOST && b == MARK && (t.Some? ==> Word(Name, t.value)))
    requires IsExit(x)
    ensures GoodMove(ExitMove(x, [a, b], [a, b, PATH]), t, x)
  {
    SlashGood();
    FreeAfter(x);
    FreeStates();
    EmptyWords();
    hide TokenOk, Word, GoodMove, ReadingOf;
    var target := if x == '/' then S513 else if x == '?' then S456 else S453;
    if x == '/' { GoodTwo(a, b, target, t, x); } else { GoodThree(a, b, PATH, target, t, x); }
  }

  lemma PortExitGood(a: Action, b: Action, t: Option<string>, x: char)
    requires ((a == MARK && b == PORT) || (a == PORT && b == MARK)) && IsExit(x)
    ensures GoodMove(ExitMove(x, [a, b], [a, b, PATH]), t, x)
  {
    SlashGood();
    FreeAfter(x);
    FreeStates();
    EmptyWords();
    hide TokenOk, Word, GoodMove, ReadingOf;
    var target := if x == '/' then S513 else if x == '?' then S456 else S453;
    if x == '/' { GoodTwo(a, b, target, t, x); } else { GoodThree(a, b, PATH, target, t, x); }
  }

  lemma EmptyWords()
    ensures Word(Name, "") && Word(User, "") && Word(Path, "") && Word(Query, "") && IsPath("")
  {
  }

  lemma FreeAfter(x: char)
    ensures TokenOk(S456, "" + [x]) && TokenOk(S453, "" + [x])
  {
  }

  lemma NameToken(s: State, t: Option<string>)
    requires (s == S520 || s == S523) && t.Some? && TokenOk(s, t.value)
    ensures Word(Name, t.value)
  {
  }

  lemma SchemeGood(s: State, t: Option<string>, x: char)
    requires (s == S451 || s == S508) && (t.Some? ==> TokenOk(s, t.value))
    ensures GoodMove(Delta(s, x), t, x)
  {
    hide Plain, IsSchemeChar, IsAlpha, SkipMove;
    if s == S451 {
      if x == ':' {
        GoodNone(S0, t, x);
      } else if IsAlpha(x) {
        SchemeStart(x);
        GoodOne(MARK, S508, t, x);
      } else {
        SkipGood(t, x, S3, S458, S452);
      }
    } else if IsSchemeChar(x) {
      GoodNone(S508, t, x);
    } else if x == ':' {
      GoodOne(SCHEME, S509, t, x);
    } else {
      SkipGood(t, x, S3, S455, S452);
    }
  }

  lemma SchemeStart(x: char)
    requires IsAlpha(x)
    ensures TokenOk(S508, "" + [x])
  {
  }

  lemma ReferenceGood(s: State, t: Option<string>, x: char)
    requires Unmarked(s)
    ensures GoodMove(Delta(s, x), t, x)
  {
    hide SkipMove, IsHex;
    match s
    case S452 => if x == ':' { GoodNone(S0, t, x); } else { SkipGood(t, x, S3, S455, S452); }
    case S455 => SkipGood(t, x, S5, S455, S455);
    case S458 => SkipGood(t, x, S5, S511, S455);
    case S509 => SkipGood(t, x, S5, S510, S455);
    case S510 => SkipGood(t, x, S5, S511, S455);
    case S0 => GoodNone(S0, t, x);
    case Outside => GoodNone(Outside, t, x);
    case S3 => GoodNone(HexMove(x, S4).target, t, x);
    case S4 => GoodNone(HexMove(x, S452).target, t, x);
    case S5 => GoodNone(HexMove(x, S6).target, t, x);
    case S6 => GoodNone(HexMove(x, S455).target, t, x);
  }

  lemma HalfGood(s: State, t: Option<string>, x: char)
    requires InHex(s) && (t.Some? ==> TokenOk(s, t.value))
    ensures GoodMove(Delta(s, x), t, x)
  {
    hide Delta, TokenOk, GoodMove;
    if ReadsUser(s) || ReadsHost(s) {
      AuthorityHalfGood(s, t, x);
    } else {
      TailHalfGood(s, t, x);
    }
  }

  lemma AuthorityHalfGood(s: State, t: Option<string>, x: char)
    requires InHex(s) && (ReadsUser(s) || ReadsHost(s)) && (t.Some? ==> TokenOk(s, t.value))
    ensures GoodMove(Delta(s, x), t, x)
  {
    hide TokenOk, HexMove, GoodMove;
    match s
    case S253 => HexGood(s, t, x, S254);
    case S254 => HexGood(s, t, x, S520);
    case S256 => HexGood(s, t, x, S257);
    case S257 => HexGood(s, t, x, S255);
    case S258 => HexGood(s, t, x, S259);
    case S259 => HexGood(s, t, x, S523);
  }

  lemma TailHalfGood(s: State, t: Option<string>, x: char)
    requires InHex(s) && !ReadsUser(s) && !ReadsHost(s) && (t.Some? ==> TokenOk(s, t.value))
    ensures GoodMove(Delta(s, x), t, x)
  {
    hide TokenOk, HexMove, GoodMove;
    match s
    case S243 => HexGood(s, t, x, S244);
    case S244 => HexGood(s, t, x, S513);
    case S7 => HexGood(s, t, x, S8);
    case S8 => HexGood(s, t, x, S457);
    case S1 => HexGood(s, t, x, S2);
    case S2 => HexGood(s, t, x, S454);
  }

  lemma ComponentGood(s: State, t: Option<string>, x: char)
    requires InComponent(s) && (t.Some? ==> TokenOk(s, t.value))
    ensures GoodMove(Delta(s, x), t, x)
  {
    hide Delta, GoodMove, TokenOk;
    if s == S255 || s == S513 {
      UserOrPathGood(s, t, x);
    } else {
      QueryGood(s, t, x);
    }
  }

  lemma UserOrPathGood(s: State, t: Option<string>, x: char)
    requires (s == S255 || s == S513) && (t.Some? ==> TokenOk(s, t.value))
    ensures GoodMove(Delta(s, x), t, x)
  {
    hide WordMove, Word, Plain, GoodMove;
    if s == S255 {
      if x == '@' { GoodOne(USERINFO, S522, t, x); } else { LoopGood(User, t, x, S256, S255); }
    } else if x == '?' {
      GoodOne(PATH, S456, t, x);
    } else if x == '#' {
      GoodOne(PATH, S453, t, x);
    } else {
      LoopGood(Path, t, x, S243, S513);
    }
  }

  lemma QueryGood(s: State, t: Option<string>, x: char)
    requires (s == S456 || s == S457 || s == S453 || s == S454) && (t.Some? ==> TokenOk(s, t.value))
    ensures GoodMove(Delta(s, x), t, x)
  {
    EmptyWords();
    hide WordMove, Word, Plain, GoodMove;
    match s
    case S456 =>
      if x == '#' { GoodTwo(MARK, QUERY, S453, t, x); } else { EntryGood(Query, t, x, S7, S457); }
    case S457 => if x == '#' { GoodOne(QUERY, S453, t, x); } else { LoopGood(Query, t, x, S7, S457); }
    case S453 => EntryGood(Query, t, x, S1, S454);
    case S454 => LoopGood(Query, t, x, S1, S454);
  }

  lemma AuthorityGood(t: Option<string>, x: char)
    requires !IsExit(x) && x != ':'
    ensures GoodMove(Delta(S511, x), t, x)
  {
    EmptyWords();
    OutsideOk(x);
    hide WordMove, Word, Plain, Free, IsExit, TokenOk, ReadingOf, IsPath, GoodMove;
    if x == '@' {
      GoodTwo(MARK, USERINFO, S522, t, x);
    } else if x == 2 as char || x == '[' {
      GoodOne(MARK, Outside, t, x);
    } else {
      HostStates();
      EntryGood(Name, t, x, S253, S520);
    }
  }

  lemma HostStates()
    ensures ReadingOf(S253) == Some(Reading(Name, 1)) && ReadingOf(S520) == Some(Reading(Name, 0))
  {
  }

  lemma OutsideOk(x: char)
    ensures TokenOk(Outside, "" + [x])
  {
  }

  lemma UserOrHostGood(t: Option<string>, x: char)
    requires !IsExit(x) && x != ':' && (t.Some? ==> Word(Name, t.value))
    ensures GoodMove(Delta(S520, x), t, x)
  {
    hide WordMove, Word, Plain, Free, IsExit;
    if x == '@' {
      if t.Some? {
        NameIsUser(t.value);
      }
      GoodOne(USERINFO, S522, t, x);
    } else if x == 2 as char {
      GoodNone(Outside, t, x);
    } else {
      LoopGood(Name, t, x, S253, S520);
    }
  }

  lemma HostGood(s: State, t: Option<string>, x: char)
    requires (s == S522 || s == S523) && !IsExit(x) && (t.Some? ==> TokenOk(s, t.value))
    ensures GoodMove(Delta(s, x), t, x)
  {
    hide WordMove, Word, Plain;
    if s == S522 {
      if x == ':' {
        EmptyWords();
        GoodTwo(MARK, HOST, S514, t, x);
      } else if x == 2 as char || x == '[' {
        GoodOne(MARK, Outside, t, x);
      } else {
        EntryGood(Name, t, x, S258, S523);
      }
    } else {
      if x == ':' {
        GoodOne(HOST, S514, t, x);
      } else if x == 2 as char {
        GoodNone(Outside, t, x);
      } else {
        LoopGood(Name, t, x, S258, S523);
      }
    }
  }

  lemma HostColonGood(s: State, t: Option<string>)
    requires (s == S511 || s == S520) && (t.Some? ==> TokenOk(s, t.value))
    ensures GoodMove(Delta(s, ':'), t, ':')
  {
    hide Word, Plain;
    EmptyWords();
    assert Plain(User, ':') by { ColonPlain(); }
    if s == S511 {
      PlainSnoc(User, "", ':');
      GoodTwo(MARK, HOST, S521, t, ':');
    } else {
      if t.Some? {
        NameIsUser(t.value);
        PlainSnoc(User, t.value, ':');
      }
      GoodOne(HOST, S521, t, ':');
    }
  }

  lemma ColonPlain()
    ensures Plain(User, ':')
  {
  }

  lemma DigitPlain(x: char)
    requires IsDigit(x)
    ensures Plain(User, x) && x != '%'
  {
  }

  lemma PortGood(s: State, t: Option<string>, x: char)
    requires EndsPort(s) && !IsExit(x) && (t.Some? ==> TokenOk(s, t.value))
    ensures GoodMove(Delta(s, x), t, x)
  {
    hide TokenOk, GoodMove, Delta, IsExit;
    if IsDigit(x) {
      PortDigitGood(s, t, x);
    } else {
      PortEndGood(s, t, x);
    }
  }

  lemma PortDigitGood(s: State, t: Option<string>, x: char)
    requires EndsPort(s) && !IsExit(x) && IsDigit(x) && (t.Some? ==> TokenOk(s, t.value))
    ensures GoodMove(Delta(s, x), t, x)
  {
    hide WordMove, Word, Plain, IsDigit, GoodMove;
    EmptyWords();
    DigitPlain(x);
    PlainSnoc(User, "", x);
    if (s == S521 || s == S514) {
      GoodOne(MARK, Delta(s, x).target, t, x);
    } else {
      if t.Some? && s == S542 {
        PlainSnoc(User, t.value, x);
      }
      GoodNone(s, t, x);
    }
  }

  lemma PortEndGood(s: State, t: Option<string>, x: char)
    requires EndsPort(s) && !IsExit(x) && !IsDigit(x) && (t.Some? ==> TokenOk(s, t.value))
    ensures GoodMove(Delta(s, x), t, x)
  {
    hide WordMove, Word, Plain, IsDigit, GoodMove;
    if (s == S514 || s == S515) {
      GoodNone(S0, t, x);
    } else if x == '@' {
      GoodOne(USERINFO, S522, t, x);
    } else {
      LoopGood(User, t, x, S256, S255);
    }
  }

  lemma DeltaGood(s: State, t: Option<string>, x: char)
    requires t.Some? ==> TokenOk(s, t.value)
    ensures GoodMove(Delta(s, x), t, x)
  {
    hide Delta, GoodMove, TokenOk;
    if MayEnd(s) && IsExit(x) {
      ExitGood(s, t, x);
    } else if (s == S511 || s == S520) && x == ':' {
      HostColonGood(s, t);
    } else if s == S511 {
      AuthorityGood(t, x);
    } else if s == S520 {
      if t.Some? {
        NameToken(s, t);
      }
      UserOrHostGood(t, x);
    } else if (s == S522 || s == S523) {
      HostGood(s, t, x);
    } else if EndsPort(s) {
      PortGood(s, t, x);
    } else if (s == S451 || s == S508) {
      SchemeGood(s, t, x);
    } else if InHex(s) {
      HalfGood(s, t, x);
    } else if InComponent(s) {
      ComponentGood(s, t, x);
    } else {
      ReferenceGood(s, t, x);
    }
  }

  /** Without a scheme the same saves fit. */
  lemma SavesFit(s: State, t: Option<string>)
    requires MayEnd(s) && (t.Some? ==> TokenOk(s, t.value))
    ensures FitsAll(Saves(s), t)
  {
    hide Word, TokenOk, TokenAfter;
    EmptyWords();
    if EndsHost(s) {
      assert [MARK, HOST] == [MARK] + [HOST] && [HOST] == [HOST] + [];
      if s == S511 || s == S522 {
        FitsCons(MARK, [HOST], t);
        AfterMark(t);
        FitsCons(HOST, [], Some(""));
      } else {
        if t.Some? {
          NameToken(s, t);
        }
        FitsCons(HOST, [], t);
      }
    } else {
      assert [MARK, PORT] == [MARK] + [PORT] && [PORT] == [PORT] + [];
      FitsCons(MARK, [PORT], t);
      FitsCons(PORT, [], TokenAfter(MARK, t));
      FitsCons(PORT, [], t);
    }
  }

  lemma AfterMark(t: Option<string>)
    ensures TokenAfter(MARK, t) == Some("")
  {
  }

  lemma TransitionGood(s: State, relative: bool, t: Option<string>, x: char)
    requires t.Some? ==> TokenOk(s, t.value)
    ensures GoodMove(Transition(s, relative, x), t, x)
  {
    hide Delta, TokenOk, FitsAll, Saves, TokenAfterAll, IsExit, MayEnd;
    if Leaves(s, relative, x) {
      SavesFit(s, t);
      var m := Leave(s, x);
      if TokenAfterAll(m.actions, t).Some? {
        FreeTarget(s, x);
        FreeOk(m.target, TokenAfterAll(m.actions, t).value + [x]);
      }
    } else {
      DeltaGood(s, t, x);
    }
  }

  lemma FreeTarget(s: State, x: char)
    ensures Free(Leave(s, x).target)
  {
  }

  lemma StepSound(c: Config, x: char)
    requires Sound(c)
    ensures Sound(Step(c, x))
  {
    hide Transition, TokenOk, ValidFields, FitsAll, TokenAfterAll, ActAll;
    if !c.fault {
      TransitionGood(c.cs, c.relative, c.token, x);
      ActAllKeeps(Transition(c.cs, c.relative, x).actions, c);
    }
  }

  lemma {:induction false} RunSound(c: Config, text: string)
    requires Sound(c)
    ensures Sound(Run(c, text))
    decreases |text|
  {
    hide Sound, Step;
    if text != [] {
      StepSound(c, text[0]);
      RunSound(Step(c, text[0]), text[1..]);
    }
  }

  lemma EndFits(s: State, relative: bool, t: Option<string>)
    requires t.Some? ==> TokenOk(s, t.value)
    ensures FitsAll(Ending(s, relative), t)
  {
    hide EndActions, TokenOk, FitsAll, Saves, MayEnd;
    if relative && MayEnd(s) {
      SavesFit(s, t);
    } else {
      EndActionsFit(s, t);
    }
  }

  lemma EndActionsFit(s: State, t: Option<string>)
    requires t.Some? ==> TokenOk(s, t.value)
    ensures FitsAll(EndActions(s), t)
  {
    EmptyWords();
    if MayEnd(s) {
      hide Delta, EndActions, TokenOk, FitsAll;
      ExitGood(s, t, '?');
      assert Delta(s, '?').actions == EndActions(s) by { EndIsExit(s); }
    } else if s == S456 {
      hide Word, TokenOk;
      assert [MARK, QUERY] == [MARK] + [QUERY] && [QUERY] == [QUERY] + [];
      FitsCons(MARK, [QUERY], t);
      FitsCons(QUERY, [], Some(""));
    } else if s == S453 {
      hide Word, TokenOk;
      assert [MARK, FRAGMENT] == [MARK] + [FRAGMENT] && [FRAGMENT] == [FRAGMENT] + [];
      FitsCons(MARK, [FRAGMENT], t);
      FitsCons(FRAGMENT, [], Some(""));
    } else if (s == S513 || s == S457 || s == S454) {
      var a := EndActions(s)[0];
      assert EndActions(s) == [a] + [];
      FitsCons(a, [], t);
    } else {
      assert EndActions(s) == [];
    }
  }

  lemma EndIsExit(s: State)
    requires MayEnd(s)
    ensures Delta(s, '?').actions == EndActions(s)
  {
  }

  /** Every Uri that Create returns has valid components, whatever the text. */
  lemma AcceptedIsValid(text: string)
    requires Parse(text).Parsed?
    ensures ValidFields(Parse(text).uri)
  {
    hide Run, TokenOk, ValidFields, FitsAll, Ending, ActAll;
    assert Sound(INITIAL) by { InitialSound(); }
    RunSound(INITIAL, text);
    var c := Run(INITIAL, text);
    if c.fault {
      ActFaulted(Ending(c.cs, c.relative), c);
    } else {
      EndFits(c.cs, c.relative, c.token);
      ActAllKeeps(Ending(c.cs, c.relative), c);
    }
  }

  lemma InitialSound()
    ensures Sound(INITIAL)
  {
    EmptyWords();
  }

  /** Hence the text of any accepted Uri is accepted again exactly when it has a scheme; then it
      has the same getters and the same text exactly when its user information does not look
      like a port. */
  lemma AcceptedRoundTrip(text: string)
    requires Parse(text).Parsed?
    ensures var u := Parse(text).uri;
      && (Parse(Print(u)).Parsed? <==> u.scheme != "")
      && (u.scheme != "" ==> (SameGetters(u, Parse(Print(u)).uri) <==> !LooksLikePort(u.userinfo)))
      && (u.scheme != "" ==> (Print(Parse(Print(u)).uri) == Print(u) <==> !LooksLikePort(u.userinfo)))
  {
    hide Parse, Print, ValidFields, LooksLikePort;
    AcceptedIsValid(text);
    CreateAfterToString(Parse(text).uri);
  }
}
