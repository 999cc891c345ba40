/** The generated automaton of Uri::Create: its transition table, its actions on the mark
    register and the fields, and what a whole text makes of them. */
module UriMachine {
  import opened Chars
  import opened Options

  // ---------------------------------------------------------------- characters

  predicate IsSchemeChar(c: char) {
    IsAlpha(c) || IsDigit(c) || c == '+' || c == '-' || c == '.'
  }

  /** unreserved and sub-delims of RFC 3986 */
  predicate IsNameChar(c: char) {
    IsAlpha(c) || IsDigit(c) || c in "-._~!$&'()*+,;="
  }

  /** What a component is made of, besides percent-encodings. */
  datatype Kind = Name | User | Path | Query

  predicate Plain(k: Kind, c: char) {
    || IsNameChar(c)
    || (k.User? && c == ':')
    || ((k.Path? || k.Query?) && (c == ':' || c == '/' || c == '@' || c >= 128 as char))
    || (k.Query? && c == '?')
  }

  /** A component: plain characters and complete percent-encodings. */
  predicate Word(k: Kind, w: string)
    decreases |w|
  {
    || w == []
    || (w[0] == '%' && |w| >= 3 && IsHex(w[1]) && IsHex(w[2]) && Word(k, w[3..]))
    || (w[0] != '%' && Plain(k, w[0]) && Word(k, w[1..]))
  }

  // ---------------------------------------------------------------- the table

  /** The states, by their numbers in the generated code.  That code has a second copy of the
      states listed from S511 to S515 for an authority behind "//" without a scheme (459, 467 to
      507, 31 to 37, 461 and 462): here that is the same state with `relative` set.  The host
      states that follow dotted decimal digits behave as S520 and S523 on every byte but 2,
      which the grammar takes for the digit two; that byte and IP literals lead Outside. */
  datatype State =
    | S0 | S451 | S452 | S3 | S4 | S455 | S5 | S6 | S458
    | S508 | S509 | S510
    | S511 | S520 | S253 | S254 | S521 | S542 | S255 | S256 | S257
    | S522 | S523 | S258 | S259
    | S514 | S515
    | S513 | S243 | S244
    | S456 | S457 | S7 | S8
    | S453 | S454 | S1 | S2
    | Outside

  /** An authority can end here. */
  predicate MayEnd(s: State) {
    s.S511? || s.S520? || s.S522? || s.S523? || s.S521? || s.S542? || s.S514? || s.S515?
  }

  /** With a host still to save. */
  predicate EndsHost(s: State) {
    s.S511? || s.S520? || s.S522? || s.S523?
  }

  /** With a port still to save. */
  predicate EndsPort(s: State) {
    s.S521? || s.S542? || s.S514? || s.S515?
  }

  /** User information behind its first colon, or a port. */
  predicate PastColon(s: State) {
    s.S521? || s.S542? || s.S255? || s.S256? || s.S257?
  }

  /** An at sign can come. */
  predicate BeforeAt(s: State) {
    s.S511? || s.S520? || s.S521? || s.S542? || s.S255?
  }

  predicate ReadsPath(s: State) {
    s.S513? || s.S243? || s.S244?
  }

  predicate ReadsQuery(s: State) {
    s.S456? || s.S457? || s.S7? || s.S8?
  }

  predicate ReadsFragment(s: State) {
    s.S453? || s.S454? || s.S1? || s.S2?
  }

  predicate ReadsHost(s: State) {
    s.S522? || s.S523? || s.S258? || s.S259?
  }

  predicate ReadsUser(s: State) {
    s.S511? || s.S520? || s.S253? || s.S254? || s.S521? || s.S542? || s.S255? || s.S256? || s.S257?
  }

  /** Inside a percent-encoding. */
  predicate InHex(s: State) {
    s.S253? || s.S254? || s.S256? || s.S257? || s.S258? || s.S259? || s.S243? || s.S244? || s.S7? || s.S8? ||
    s.S1? || s.S2?
  }

  /** A component behind the host, or user information. */
  predicate InComponent(s: State) {
    s.S255? || s.S513? || s.S456? || s.S457? || s.S453? || s.S454?
  }

  /** Before the first character of a component. */
  predicate Entry(s: State) {
    s.S511? || s.S522? || s.S514? || s.S456? || s.S453?
  }

  /** Reading a path that is not kept, or nothing yet. */
  predicate Skips(s: State) {
    s.S451? || s.S452? || s.S455? || s.S458? || s.S508? || s.S509? || s.S510?
  }

  /** Reading a path that is not kept, or refused, or not covered. */
  predicate Unmarked(s: State) {
    s.S452? || s.S3? || s.S4? || s.S455? || s.S5? || s.S6? || s.S458? || s.S509? || s.S510? || s.S0? || s.Outside?
  }

  /** A path, query or fragment that can end here. */
  predicate BehindHost(s: State) {
    s.S513? || s.S456? || s.S457? || s.S453? || s.S454?
  }

  datatype Action = MARK | SCHEME | USERINFO | HOST | PORT | PATH | QUERY | FRAGMENT

  datatype Move = Move(actions: seq<Action>, target: State)

  /** Reading path characters of a reference whose path is not kept. */
  function SkipMove(x: char, percent: State, slash: State, loop: State): Move {
    if x == '#' then Move([], S453)
    else if x == '?' then Move([], S456)
    else if x == '%' then Move([], percent)
    else if x == '/' then Move([], slash)
    else if Plain(Path, x) then Move([], loop)
    else Move([], S0)
  }

  function HexMove(x: char, target: State): Move {
    Move([], if IsHex(x) then target else S0)
  }

  function WordMove(k: Kind, x: char, first: seq<Action>, percent: State, loop: State): Move {
    if x == '%' then Move(first, percent) else if Plain(k, x) then Move(first, loop) else Move([], S0)
  }

  /** Leaving the authority: the pending save comes before the mark of the path. */
  function ExitMove(x: char, early: seq<Action>, late: seq<Action>): Move {
    if x == '/' then Move(early, S513) else Move(late, if x == '?' then S456 else S453)
  }

  predicate IsExit(x: char) {
    x == '/' || x == '?' || x == '#'
  }

  /** What the automaton does on a byte, except where `relative` makes a difference. */
  function Delta(s: State, x: char): Move {
    match s
    case S451 =>
      if x == ':' then Move([], S0) else if IsAlpha(x) then Move([MARK], S508) else SkipMove(x, S3, S458, S452)
    case S452 => if x == ':' then Move([], S0) else SkipMove(x, S3, S455, S452)
    case S3 => HexMove(x, S4)
    case S4 => HexMove(x, S452)
    case S455 => SkipMove(x, S5, S455, S455)
    case S5 => HexMove(x, S6)
    case S6 => HexMove(x, S455)
    case S458 => SkipMove(x, S5, S511, S455)
    case S508 =>
      if IsSchemeChar(x) then Move([], S508)
      else if x == ':' then Move([SCHEME], S509)
      else SkipMove(x, S3, S455, S452)
    case S509 => SkipMove(x, S5, S510, S455)
    case S510 => SkipMove(x, S5, S511, S455)
    case S511 =>
      if IsExit(x) then ExitMove(x, [MARK, HOST], [MARK, HOST, PATH])
      else if x == ':' then Move([MARK, HOST], S521)
      else if x == '@' then Move([MARK, USERINFO], S522)
      else if x == 2 as char || x == '[' then Move([MARK], Outside)
      else WordMove(Name, x, [MARK], S253, S520)
    case S520 =>
      if IsExit(x) then ExitMove(x, [HOST, MARK], [HOST, MARK, PATH])
      else if x == ':' then Move([HOST], S521)
      else if x == '@' then Move([USERINFO], S522)
      else if x == 2 as char then Move([], Outside)
      else WordMove(Name, x, [], S253, S520)
    case S253 => HexMove(x, S254)
    case S254 => HexMove(x, S520)
    case S521 =>
      if IsExit(x) then ExitMove(x, [MARK, PORT], [MARK, PORT, PATH])
      else if IsDigit(x) then Move([MARK], S542)
      else if x == '@' then Move([USERINFO], S522)
      else WordMove(User, x, [], S256, S255)
    case S542 =>
      if IsExit(x) then ExitMove(x, [PORT, MARK], [PORT, MARK, PATH])
      else if IsDigit(x) then Move([], S542)
      else if x == '@' then Move([USERINFO], S522)
      else WordMove(User, x, [], S256, S255)
    case S255 => if x == '@' then Move([USERINFO], S522) else WordMove(User, x, [], S256, S255)
    case S256 => HexMove(x, S257)
    case S257 => HexMove(x, S255)
    case S522 =>
      if IsExit(x) then ExitMove(x, [MARK, HOST], [MARK, HOST, PATH])
      else if x == ':' then Move([MARK, HOST], S514)
      else if x == 2 as char || x == '[' then Move([MARK], Outside)
      else WordMove(Name, x, [MARK], S258, S523)
    case S523 =>
      if IsExit(x) then ExitMove(x, [HOST, MARK], [HOST, MARK, PATH])
      else if x == ':' then Move([HOST], S514)
      else if x == 2 as char then Move([], Outside)
      else WordMove(Name, x, [], S258, S523)
    case S258 => HexMove(x, S259)
    case S259 => HexMove(x, S523)
    case S514 =>
      if IsExit(x) then ExitMove(x, [MARK, PORT], [MARK, PORT, PATH])
      else if IsDigit(x) then Move([MARK], S515)
      else Move([], S0)
    case S515 =>
      if IsExit(x) then ExitMove(x, [PORT, MARK], [PORT, MARK, PATH])
      else if IsDigit(x) then Move([], S515)
      else Move([], S0)
    case S513 =>
      if x == '?' then Move([PATH], S456)
      else if x == '#' then Move([PATH], S453)
      else WordMove(Path, x, [], S243, S513)
    case S243 => HexMove(x, S244)
    case S244 => HexMove(x, S513)
    case S456 => if x == '#' then Move([MARK, QUERY], S453) else WordMove(Query, x, [MARK], S7, S457)
    case S457 => if x == '#' then Move([QUERY], S453) else WordMove(Query, x, [], S7, S457)
    case S7 => HexMove(x, S8)
    case S8 => HexMove(x, S457)
    case S453 => WordMove(Query, x, [MARK], S1, S454)
    case S454 => WordMove(Query, x, [], S1, S454)
    case S1 => HexMove(x, S2)
    case S2 => HexMove(x, S454)
    case Outside => Move([], Outside)
    case _ => Move([], S0)
  }

  /** What is still to be saved where an authority can end. */
  function Saves(s: State): seq<Action> {
    if s == S511 || s == S522 then [MARK, HOST]
    else if s == S520 || s == S523 then [HOST]
    else if s == S521 || s == S514 then [MARK, PORT]
    else [PORT]
  }

  /** Leaving an authority without a scheme: nothing marks the path. */
  function Leave(s: State, x: char): Move {
    Move(Saves(s), if x == '/' then S455 else if x == '?' then S456 else S453)
  }

  predicate Leaves(s: State, relative: bool, x: char) {
    relative && MayEnd(s) && IsExit(x)
  }

  function Transition(s: State, relative: bool, x: char): Move {
    if Leaves(s, relative, x) then Leave(s, x) else Delta(s, x)
  }

  /** The second slash of a text that starts with "//". */
  predicate Starts(s: State, x: char) {
    s == S458 && x == '/'
  }

  /** The actions at the end of the text, except where `relative` makes a difference. */
  function EndActions(s: State): seq<Action> {
    match s
    case S511 => [MARK, HOST, PATH]
    case S522 => [MARK, HOST, PATH]
    case S520 => [HOST, MARK, PATH]
    case S523 => [HOST, MARK, PATH]
    case S514 => [MARK, PORT, PATH]
    case S521 => [MARK, PORT, PATH]
    case S515 => [PORT, MARK, PATH]
    case S542 => [PORT, MARK, PATH]
    case S513 => [PATH]
    case S456 => [MARK, QUERY]
    case S457 => [QUERY]
    case S453 => [MARK, FRAGMENT]
    case S454 => [FRAGMENT]
    case _ => []
  }

  function Ending(s: State, relative: bool): seq<Action> {
    if relative && MayEnd(s) then Saves(s) else EndActions(s)
  }

  /** The states numbered from uri_parser_first_final on. */
  predicate Final(s: State) {
    s.S451? || s.S452? || s.S455? || s.S458? || s.S508? || s.S509? || s.S510? || s.S511? || s.S520? || s.S521? ||
    s.S542? || s.S522? || s.S523? || s.S514? || s.S515? || s.S513? || s.S456? || s.S457? || s.S453? || s.S454?
  }

  // ---------------------------------------------------------------- the machine

  datatype Fields = Fields(
    scheme: string, userinfo: string, host: string, path: string, query: string, fragment: string, port: int)

  const NO_FIELDS := Fields("", "", "", "", "", "", 0)

  const INT32_MAX := 0x7fff_ffff

  /** The digits atoi() reads. */
  function Digits(text: string): (d: string)
    ensures d <= text && IsNumber(d)
  {
    if text == [] || !IsDigit(text[0]) then [] else [text[0]] + Digits(text[1..])
  }

  /** `token` is the text from the mark to the current position, None when the mark is null.
      `fault` records a step that C++ leaves undefined or that throws: a string made from a
      null mark, or a number atoi() cannot represent. */
  datatype Config = Config(cs: State, token: Option<string>, uri: Fields, fault: bool, relative: bool := false)

  const INITIAL := Config(S451, None, NO_FIELDS, false)

  function Act(a: Action, c: Config): Config {
    if c.fault then c
    else if a.MARK? then c.(token := Some(""))
    else if c.token == None then (if a == HOST || a == USERINFO then c else c.(fault := true))
    else
      var t := c.token.value;
      match a
      case SCHEME => c.(uri := c.uri.(scheme := t), token := None)
      case USERINFO => c.(uri := c.uri.(userinfo := t), token := None)
      case HOST => c.(uri := c.uri.(host := t))
      case PORT =>
        if t == "" then c.(token := None)
        else if Value(Digits(t)) > INT32_MAX then c.(fault := true)
        else c.(uri := c.uri.(port := Value(Digits(t))), token := None)
      case PATH => c.(uri := c.uri.(path := t), token := None)
      case QUERY => c.(uri := c.uri.(query := t), token := None)
      case FRAGMENT => c.(uri := c.uri.(fragment := t), token := None)
      case MARK => c
  }

  function ActAll(actions: seq<Action>, c: Config): Config {
    if actions == [] then c else ActAll(actions[1..], Act(actions[0], c))
  }

  /** Actions come before the character is consumed. */
  function Step(c: Config, x: char): Config {
    if c.fault then c
    else
      var m := Transition(c.cs, c.relative, x);
      var d := ActAll(m.actions, c);
      if d.fault then d
      else
        d.(cs := m.target, token := if d.token.Some? then Some(d.token.value + [x]) else None,
          relative := c.relative || Starts(c.cs, x))
  }

  function Run(c: Config, text: string): Config
    decreases |text|
  {
    if text == [] then c else Run(Step(c, text[0]), text[1..])
  }

  datatype Outcome = Parsed(uri: Fields) | Refused | Faulted | NotCovered

  function Finish(c: Config): Outcome {
    var d := ActAll(Ending(c.cs, c.relative), c);
    if d.fault then Faulted
    else if c.cs == Outside then NotCovered
    else if Final(c.cs) then Parsed(d.uri)
    else Refused
  }

  function Parse(text: string): Outcome {
    Finish(Run(INITIAL, text))
  }

  /** Leaving the authority behind a scheme. */
  lemma ExitMoves(s: State, x: char)
    requires MayEnd(s) && IsExit(x)
    ensures (s == S511 || s == S522) ==> Delta(s, x) == ExitMove(x, [MARK, HOST], [MARK, HOST, PATH])
    ensures (s == S520 || s == S523) ==> Delta(s, x) == ExitMove(x, [HOST, MARK], [HOST, MARK, PATH])
    ensures (s == S521 || s == S514) ==> Delta(s, x) == ExitMove(x, [MARK, PORT], [MARK, PORT, PATH])
    ensures (s == S542 || s == S515) ==> Delta(s, x) == ExitMove(x, [PORT, MARK], [PORT, MARK, PATH])
  {
    hide WordMove, IsDigit;
  }

  // ---------------------------------------------------------------- running

  lemma {:induction false} RunConcat(c: Config, a: string, b: string)
    ensures Run(c, a + b) == Run(Run(c, a), b)
    decreases |a|
  {
    hide Step;
    if a == [] {
      assert a + b == b;
    } else {
      RunConcat(Step(c, a[0]), a[1..], b);
      assert (a + b)[1..] == a[1..] + b;
    }
  }

  lemma RunOne(c: Config, x: char)
    ensures Run(c, [x]) == Step(c, x)
  {
    assert [x][1..] == [];
  }

  lemma RunNext(c: Config, text: string, i: nat)
    requires i < |text|
    ensures Run(c, text[..i + 1]) == Step(Run(c, text[..i]), text[i])
  {
    assert text[..i + 1] == text[..i] + [text[i]];
    RunConcat(c, text[..i], [text[i]]);
    RunOne(Run(c, text[..i]), text[i]);
  }

  lemma ActOne(a: Action, c: Config)
    ensures ActAll([a], c) == Act(a, c)
  {
    assert [a][1..] == [];
  }

  lemma ActTwo(a: Action, b: Action, c: Config)
    ensures ActAll([a, b], c) == Act(b, Act(a, c))
  {
    assert [a, b][1..] == [b];
    ActOne(b, Act(a, c));
  }

  lemma ActThree(a: Action, b: Action, d: Action, c: Config)
    ensures ActAll([a, b, d], c) == Act(d, Act(b, Act(a, c)))
  {
    assert [a, b, d][1..] == [b, d];
    ActTwo(b, d, Act(a, c));
  }
}
