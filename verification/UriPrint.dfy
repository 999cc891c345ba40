/** Uri::dump, and Uri::Create after it. */
module UriPrint {
  import opened Chars
  import opened Options
  import opened UriMachine
  import opened UriText

  // ---------------------------------------------------------------- getters and printer

  predicate Http(u: Fields) {
    u.scheme == "http" || u.scheme == "ws"
  }

  predicate Https(u: Fields) {
    u.scheme == "https" || u.scheme == "wss"
  }

  predicate IsDefaultPort(u: Fields) {
    if u.port == 0 then true else if Http(u) then u.port == 80 else if Https(u) then u.port == 443 else false
  }

  function GetPath(u: Fields): string {
    if u.path == "" then "/" else u.path
  }

  function GetPort(u: Fields): int {
    if u.port != 0 then u.port else if Http(u) then 80 else if Https(u) then 443 else u.port
  }

  /** std::to_string */
  function ToString(n: int): string {
    if n < 0 then "-" + Decimal(-n) else Decimal(n)
  }

  function Print(u: Fields): string {
    u.scheme + "://" + u.userinfo + (if u.userinfo == "" then "" else "@") + u.host
      + (if IsDefaultPort(u) then "" else ":" + ToString(u.port)) + GetPath(u)
      + (if u.query == "" then "" else "?") + u.query + (if u.fragment == "" then "" else "#") + u.fragment
  }

  // ---------------------------------------------------------------- valid fields

  /** Components as RFC 3986 wants them, the host a registered name. */
  predicate ValidFields(u: Fields) {
    && (u.scheme == "" || IsScheme(u.scheme))
    && Word(User, u.userinfo) && Word(Name, u.host) && IsPath(u.path)
    && Word(Query, u.query) && Word(Query, u.fragment)
    && 0 <= u.port <= INT32_MAX
  }

  function Maybe(w: string): Option<string> {
    if w == "" then None else Some(w)
  }

  function PartsOf(u: Fields): Parts {
    Parts(u.scheme, Maybe(u.userinfo), u.host, if IsDefaultPort(u) then None else Some(ToString(u.port)),
          GetPath(u), Maybe(u.query), Maybe(u.fragment))
  }

  lemma PrintIsText(u: Fields)
    ensures Print(u) == Text(PartsOf(u))
  {
    hide IsDefaultPort, GetPath, ToString;
    var p := PartsOf(u);
    assert u.userinfo + (if u.userinfo == "" then "" else "@") == After(p.user, '@');
    assert (if u.query == "" then "" else "?") + u.query == Before(p.query, '?');
    assert (if u.fragment == "" then "" else "#") + u.fragment == Before(p.fragment, '#');
    assert (if IsDefaultPort(u) then "" else ":" + ToString(u.port)) == Before(p.port, ':');
    Regroup(u.scheme + "://", u.userinfo, if u.userinfo == "" then "" else "@", u.host, Before(p.port, ':'), p.path,
            if u.query == "" then "" else "?", u.query, if u.fragment == "" then "" else "#", u.fragment);
  }

  lemma Regroup(a: string, b: string, c: string, d: string, e: string, f: string, g: string, h: string, i: string, j: string)
    ensures a + b + c + d + e + f + g + h + i + j == a + ((b + c) + (d + (e + (f + ((g + h) + (i + j))))))
  {
    var x := a + b + c + d + e;
    Assoc(x + f + g + h, i, j);
    Assoc(x + f, g, h);
    Assoc(x + f, g + h, i + j);
    Assoc(x, f, (g + h) + (i + j));
    RegroupHead(a, b, c, d, e, f + ((g + h) + (i + j)));
  }

  lemma RegroupHead(a: string, b: string, c: string, d: string, e: string, rest: string)
    ensures a + b + c + d + e + rest == a + ((b + c) + (d + (e + rest)))
  {
    Assoc(a + b + c + d, e, rest);
    Assoc(a + b + c, d, e + rest);
    Assoc(a, b, c);
    Assoc(a, b + c, d + (e + rest));
  }

  lemma Assoc(a: string, b: string, c: string)
    ensures (a + b) + c == a + (b + c)
  {
  }

  lemma SlashIsWord()
    ensures IsPath("/")
  {
    assert "/"[1..] == [];
  }

  lemma PartsAreValid(u: Fields)
    requires ValidFields(u) && u.scheme != ""
    ensures ValidParts(PartsOf(u)) && !BadPort(PartsOf(u))
    ensures Value(OrEmpty(PartsOf(u).port)) == if IsDefaultPort(u) then 0 else u.port
  {
    hide Word, IsDefaultPort, Decimal;
    SlashIsWord();
    if !IsDefaultPort(u) {
      ValueOfDecimal(u.port);
    }
  }

  // ---------------------------------------------------------------- reading back

  /** What Create makes of the text of a Uri. */
  function Reread(u: Fields): Fields {
    u.(userinfo := Kept(u.userinfo), path := GetPath(u), port := if IsDefaultPort(u) then 0 else u.port)
  }

  predicate SameGetters(u: Fields, v: Fields) {
    && u.scheme == v.scheme && u.userinfo == v.userinfo && u.host == v.host && GetPort(u) == GetPort(v)
    && GetPath(u) == GetPath(v) && u.query == v.query && u.fragment == v.fragment
  }

  /** The port left out of the text is exactly the one getPort gives back without it. */
  lemma OmittedPort(u: Fields)
    requires u.port >= 0
    ensures IsDefaultPort(u) <==> GetPort(u.(port := 0)) == GetPort(u)
  {
  }

  /** The text of a Uri always parses. */
  lemma ParsePrint(u: Fields)
    requires ValidFields(u) && u.scheme != ""
    ensures Parse(Print(u)) == Parsed(Reread(u))
  {
    hide Parse, Text, Kept, IsDefaultPort, ValidParts, BadPort;
    PrintIsText(u);
    PartsAreValid(u);
    ParseText(PartsOf(u));
  }

  /** Without a scheme the text starts with a colon. */
  lemma NoSchemeIsRefused(u: Fields)
    requires u.scheme == ""
    ensures Parse(Print(u)) == Refused
  {
    PrintIsText(u);
    var text := Print(u);
    assert text[0] == ':' by { assert ("" + "://")[0] == ':'; }
    assert Delta(S451, ':') == Move([], S0);
    hide Print, Text, Delta;
    ErrorStays(Step(INITIAL, ':'), text[1..]);
    RunCons(INITIAL, ':', text[1..]);
    assert [':'] + text[1..] == text;
  }

  /** The text of a Uri parses exactly when it has a scheme.  Then Create keeps every getter,
      and a second toString the text, exactly when the first colon of the user information is
      not followed by a digit. */
  lemma CreateAfterToString(u: Fields)
    requires ValidFields(u)
    ensures Parse(Print(u)).Parsed? <==> u.scheme != ""
    ensures u.scheme != "" ==> (SameGetters(u, Parse(Print(u)).uri) <==> !LooksLikePort(u.userinfo))
    ensures u.scheme != "" ==> (Print(Parse(Print(u)).uri) == Print(u) <==> !LooksLikePort(u.userinfo))
  {
    if u.scheme == "" {
      NoSchemeIsRefused(u);
      return;
    }
    ParsePrint(u);
    hide Parse, Print, Word, Colon;
    var v := Reread(u);
    SameTexts(u, v);
    if LooksLikePort(u.userinfo) {
      ShorterText(u, v);
    }
  }

  lemma SameTexts(u: Fields, v: Fields)
    requires v == Reread(u)
    ensures u.userinfo == v.userinfo ==> Print(u) == Print(v)
  {
    hide Kept;
  }

  lemma ShorterText(u: Fields, v: Fields)
    requires v == Reread(u) && LooksLikePort(u.userinfo)
    ensures |Print(v)| < |Print(u)|
  {
    hide Colon, Decimal;
    assert 0 < |Kept(u.userinfo)| < |u.userinfo|;
  }
}
