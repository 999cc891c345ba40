/** The pattern language of LogFormatter: literals, where "%%" stands for a percent sign, and
    directives "%x" or "%x{argument}". */
module Patterns {
  import opened Options

  /** What init() collects in `vec`: text, a directive with its argument, or a complaint. */
  datatype Piece = Literal(text: string) | Directive(name: char, arg: string) | Complaint(text: string)

  datatype Pieces = Pieces(pieces: seq<Piece>, error: bool)

  const LACK := "lack of '}'"
  const SINGLE := "single '%'"

  function Flush(ss: string): seq<Piece> {
    if ss == "" then [] else [Literal(ss)]
  }

  function Pending(fmt: Option<char>): seq<Piece> {
    if fmt.Some? then [Directive(fmt.value, "")] else []
  }

  function Emit(ps: seq<Piece>, after: Pieces): Pieces {
    Pieces(ps + after.pieces, after.error)
  }

  function IndexOf(w: string, c: char): (i: nat)
    ensures i <= |w| && (i < |w| ==> w[i] == c) && forall j :: 0 <= j < i ==> w[j] != c
  {
    if w == [] || w[0] == c then 0 else 1 + IndexOf(w[1..], c)
  }

  /** What the loop makes of the rest of the pattern, with a directive that may still get an
      argument in `fmt` and literal text in `ss`. */
  function Scan(rest: string, fmt: Option<char>, ss: string): Pieces
    decreases |rest|, if fmt.Some? then 1 else 0
  {
    if rest == "" then Pieces(Flush(ss) + Pending(fmt), false)
    else if rest[0] != '%' then
      if fmt == None then Scan(rest[1..], None, ss + [rest[0]])
      else if rest[0] != '{' then Emit(Pending(fmt), Scan(rest[1..], None, ss + [rest[0]]))
      else
        var end := IndexOf(rest, '}');
        if end == |rest| then Pieces([Complaint(LACK), Complaint(SINGLE)] + Flush(ss) + Pending(fmt), true)
        else Emit([Directive(fmt.value, rest[1..end])], Scan(rest[end + 1..], None, ss))
    else if |rest| == 1 then Pieces([Complaint(SINGLE)] + Flush(ss) + Pending(fmt), true)
    else if rest[1] == '%' then Scan(rest[2..], fmt, ss + ['%'])
    else if fmt.Some? then Emit(Pending(fmt), Scan(rest, None, ss))
    else Emit(Flush(ss), Scan(rest[2..], Some(rest[1]), ""))
  }

  function Parse(pattern: string): Pieces {
    Scan(pattern, None, "")
  }

  // ---------------------------------------------------------------- printing

  function Escape(text: string): string {
    if text == "" then "" else (if text[0] == '%' then "%%" else [text[0]]) + Escape(text[1..])
  }

  function PrintPiece(p: Piece): string {
    match p
    case Literal(t) => Escape(t)
    case Directive(c, a) => ['%', c] + (if a == "" then "" else "{" + a + "}")
    case Complaint(t) => t
  }

  function Print(ps: seq<Piece>): string {
    if ps == [] then "" else PrintPiece(ps[0]) + Print(ps[1..])
  }

  /** Pieces a pattern can name: no empty literals, no two literals in a row, no directive
      called '%', no argument with a closing brace. */
  predicate Nameable(ps: seq<Piece>) {
    && (forall p :: p in ps ==> match p
          case Literal(t) => t != ""
          case Directive(c, a) => c != '%' && '}' !in a
          case Complaint(_) => false)
    && (forall i :: 0 < i < |ps| ==> !(ps[i - 1].Literal? && ps[i].Literal?))
  }

  /** The first characters that are not percent signs. */
  function Unpercent(t: string): (u: string)
    ensures |u| <= |t| && t == t[..|t| - |u|] + u && (u != "" ==> u[0] != '%')
    ensures forall i :: 0 <= i < |t| - |u| ==> t[i] == '%'
  {
    if t == "" || t[0] != '%' then t else Unpercent(t[1..])
  }

  /** A directive without argument keeps its place before these pieces: the literal behind it
      must not go on with '{' after its percent signs, and must not end the pattern when it
      is made of percent signs only. */
  predicate Separable(ps: seq<Piece>) {
    ps != [] && ps[0].Literal? ==>
      var u := Unpercent(ps[0].text);
      if u == "" then |ps| > 1 else u[0] != '{'
  }

  predicate Faithful(ps: seq<Piece>) {
    ps == [] || ((ps[0].Directive? && ps[0].arg == "" ==> Separable(ps[1..])) && Faithful(ps[1..]))
  }

  // ---------------------------------------------------------------- parsing what was printed

  lemma ScanPercent(r: string, fmt: Option<char>, ss: string)
    ensures Scan("%%" + r, fmt, ss) == Scan(r, fmt, ss + ['%'])
  {
    var w := "%%" + r;
    assert w[0] == '%' && w[1] == '%' && w[2..] == r;
  }

  lemma ScanChar(x: char, r: string, ss: string)
    requires x != '%'
    ensures Scan([x] + r, None, ss) == Scan(r, None, ss + [x])
  {
    assert ([x] + r)[1..] == r;
  }

  lemma EscapeHead(t: string, r: string)
    requires t != ""
    ensures Escape(t) + r == (if t[0] == '%' then "%%" else [t[0]]) + (Escape(t[1..]) + r)
  {
  }

  lemma {:induction false} LiteralScans(t: string, r: string, ss: string)
    ensures Scan(Escape(t) + r, None, ss) == Scan(r, None, ss + t)
    decreases |t|
  {
    hide Scan, Escape;
    if t == "" {
      EscapeEmpty();
      assert "" + r == r && ss + t == ss;
    } else {
      EscapeHead(t, r);
      var w := Escape(t[1..]) + r;
      LiteralScans(t[1..], r, ss + [t[0]]);
      assert ss + [t[0]] + t[1..] == ss + t;
      if t[0] == '%' {
        ScanPercent(w, None, ss);
      } else {
        ScanChar(t[0], w, ss);
      }
    }
  }

  /** Percent signs behind a directive are put aside while it waits for its argument. */
  lemma {:induction false} PercentsScan(t: string, k: nat, r: string, c: char, ss: string)
    requires k <= |t| && forall i :: 0 <= i < k ==> t[i] == '%'
    ensures Scan(Escape(t) + r, Some(c), ss) == Scan(Escape(t[k..]) + r, Some(c), ss + t[..k])
    decreases k
  {
    hide Scan, Escape;
    if k == 0 {
      assert ss + t[..0] == ss && t[0..] == t;
    } else {
      PercentsScan(t[1..], k - 1, r, c, ss + ['%']);
      EscapeHead(t, r);
      ScanPercent(Escape(t[1..]) + r, Some(c), ss);
      assert t[1..][k - 1..] == t[k..];
      assert ss + ['%'] + t[1..][..k - 1] == ss + t[..k];
    }
  }

  lemma PrintDirective(ps: seq<Piece>)
    requires ps != [] && ps[0].Directive? && ps[0].name != '%'
    ensures var w := Print(ps);
      |w| > 1 && w[0] == '%' && w[1] == ps[0].name
      && w[2..] == (if ps[0].arg == "" then "" else "{" + ps[0].arg + "}") + Print(ps[1..])
  {
    hide Escape;
    var a := if ps[0].arg == "" then "" else "{" + ps[0].arg + "}";
    var h := ['%', ps[0].name];
    assert Print(ps) == h + a + Print(ps[1..]);
    Behind(h, a, Print(ps[1..]));
  }

  lemma Behind(h: string, a: string, r: string)
    ensures (h + a + r)[..|h|] == h && (h + a + r)[|h|..] == a + r
    ensures forall i :: 0 <= i < |h| ==> (h + a + r)[i] == h[i]
  {
  }

  /** A directive waiting for its argument gives up at the next directive. */
  lemma DirectiveGivesUp(ps: seq<Piece>, c: char, ss: string)
    requires ps != [] && ps[0].Directive? && ps[0].name != '%'
    ensures Scan(Print(ps), Some(c), ss) == Emit([Directive(c, "")], Scan(Print(ps), None, ss))
  {
    PrintDirective(ps);
  }

  lemma EscapeCons(u: string)
    requires u != "" && u[0] != '%'
    ensures Escape(u) == [u[0]] + Escape(u[1..])
  {
  }

  /** The same for any pieces that leave the directive in its place. */
  lemma DirectiveSettles(ps: seq<Piece>, c: char)
    requires Nameable(ps) && Separable(ps)
    ensures Scan(Print(ps), Some(c), "") == Emit([Directive(c, "")], Scan(Print(ps), None, ""))
  {
    hide Escape, Unpercent, Scan;
    if ps == [] {
      ScanEmpty(Some(c), "");
      ScanEmpty(None, "");
    } else if ps[0].Directive? {
      assert ps[0] in ps;
      DirectiveGivesUp(ps, c, "");
    } else {
      KindsOf(ps);
      LiteralSettles(ps, c);
    }
  }

  /** The percent signs at the start of a literal are put aside. */
  lemma PercentsAside(t: string, r: string, c: char) returns (q: string)
    ensures t == q + Unpercent(t)
    ensures Scan(Escape(t) + r, Some(c), "") == Scan(Escape(Unpercent(t)) + r, Some(c), q)
  {
    hide Escape, Scan, Unpercent;
    var k := |t| - |Unpercent(t)|;
    q := t[..k];
    PercentsScan(t, k, r, c, "");
    assert "" + q == q && t[k..] == Unpercent(t);
  }

  lemma WholeLiteral(t: string, r: string)
    ensures Scan(Escape(t) + r, None, "") == Scan(r, None, t)
  {
    hide Escape, Scan;
    LiteralScans(t, r, "");
    assert "" + t == t;
  }

  lemma PrintLiteral(ps: seq<Piece>)
    requires ps != [] && ps[0].Literal?
    ensures Print(ps) == Escape(ps[0].text) + Print(ps[1..])
  {
    hide Escape;
  }

  lemma LiteralSettles(ps: seq<Piece>, c: char)
    requires Nameable(ps) && Separable(ps) && ps != [] && ps[0].Literal?
    ensures Scan(Print(ps), Some(c), "") == Emit([Directive(c, "")], Scan(Print(ps), None, ""))
  {
    hide *;
    var t, r := ps[0].text, Print(ps[1..]);
    PrintLiteral(ps);
    WholeLiteral(t, r);
    var q := PercentsAside(t, r, c);
    var u := Unpercent(t);
    if u == "" {
      NothingBehind(q, r);
      SecondIsDirective(ps);
      DirectiveGivesUp(ps[1..], c, t);
    } else {
      NextCharacter(ps, u);
      TextBehind(u, r, c, q);
    }
  }

  lemma NothingBehind(q: string, r: string)
    ensures q + "" == q && Escape("") + r == r
  {
  }

  lemma TextBehind(u: string, r: string, c: char, q: string)
    requires u != "" && u[0] != '%' && u[0] != '{'
    ensures Scan(Escape(u) + r, Some(c), q) == Emit([Directive(c, "")], Scan(r, None, q + u))
  {
    hide *;
    EscapeCons(u);
    TextSettles(u, r, c, q);
    LiteralScans(u[1..], r, q + [u[0]]);
    assert q + [u[0]] + u[1..] == q + u;
  }

  lemma NextCharacter(ps: seq<Piece>, u: string)
    requires Separable(ps) && ps != [] && ps[0].Literal? && u == Unpercent(ps[0].text) && u != ""
    ensures u[0] != '%' && u[0] != '{'
  {
  }

  lemma SecondIsDirective(ps: seq<Piece>)
    requires Nameable(ps) && Separable(ps) && ps != [] && ps[0].Literal? && Unpercent(ps[0].text) == ""
    ensures |ps| > 1 && ps[1].Directive? && ps[1].name != '%'
  {
    assert ps[1] in ps;
    assert !(ps[1 - 1].Literal? && ps[1].Literal?);
  }

  lemma ScanEmpty(fmt: Option<char>, ss: string)
    ensures Scan("", fmt, ss) == Pieces(Flush(ss) + Pending(fmt), false)
  {
  }

  lemma EscapeEmpty()
    ensures Escape("") == ""
  {
  }

  lemma TextSettles(u: string, r: string, c: char, ss: string)
    requires u != "" && u[0] != '%' && u[0] != '{' && Escape(u) == [u[0]] + Escape(u[1..])
    ensures Scan(Escape(u) + r, Some(c), ss) == Emit([Directive(c, "")], Scan(Escape(u[1..]) + r, None, ss + [u[0]]))
  {
    var w := Escape(u) + r;
    assert w[0] == u[0] && w[1..] == Escape(u[1..]) + r;
  }

  lemma DirectiveStarts(ps: seq<Piece>, ss: string)
    requires ps != [] && ps[0].Directive? && ps[0].name != '%'
    ensures Scan(Print(ps), None, ss) ==
              Emit(Flush(ss), Scan((if ps[0].arg == "" then "" else "{" + ps[0].arg + "}") + Print(ps[1..]), Some(ps[0].name), ""))
  {
    hide Print;
    PrintDirective(ps);
  }

  lemma {:induction false} IndexIs(w: string, c: char, i: nat)
    requires i < |w| && w[i] == c && forall j :: 0 <= j < i ==> w[j] != c
    ensures IndexOf(w, c) == i
  {
    if i > 0 {
      assert w[0] != c;
      IndexIs(w[1..], c, i - 1);
    }
  }

  lemma ArgumentScans(a: string, r: string, c: char)
    requires '}' !in a
    ensures Scan("{" + a + "}" + r, Some(c), "") == Emit([Directive(c, a)], Scan(r, None, ""))
  {
    var w := "{" + a + "}" + r;
    IndexIs(w, '}', |a| + 1);
    assert w[1..|a| + 1] == a && w[|a| + 2..] == r;
  }

  lemma TailNameable(ps: seq<Piece>)
    requires Nameable(ps) && ps != []
    ensures Nameable(ps[1..])
  {
    assert forall p :: p in ps[1..] ==> p in ps;
    forall i | 0 < i < |ps[1..]|
      ensures !(ps[1..][i - 1].Literal? && ps[1..][i].Literal?)
    {
      assert ps[1..][i] == ps[i + 1] && ps[1..][i - 1] == ps[i];
    }
  }

  lemma LiteralThenRest(ps: seq<Piece>)
    requires Nameable(ps) && ps != [] && ps[0].Literal?
    ensures Scan(Print(ps), None, "") == Scan(Print(ps[1..]), None, ps[0].text)
    ensures ps[1..] != [] ==> !ps[1..][0].Literal?
    ensures Flush("") + ps == Flush(ps[0].text) + ps[1..]
  {
    assert ps[0] in ps;
    LiteralScans(ps[0].text, Print(ps[1..]), "");
    assert "" + ps[0].text == ps[0].text;
    assert |ps| > 1 ==> !(ps[1 - 1].Literal? && ps[1].Literal?);
  }

  lemma EmitAll(a: seq<Piece>, b: seq<Piece>, ps: seq<Piece>)
    ensures Emit(a, Emit(b, Pieces(ps, false))) == Pieces(a + (b + ps), false)
  {
  }

  /** One directive and its argument, when it keeps its place. */
  lemma DirectiveThenRest(ps: seq<Piece>, ss: string)
    requires Nameable(ps) && ps != [] && ps[0].Directive? && (ps[0].arg == "" ==> Separable(ps[1..]))
    ensures Scan(Print(ps), None, ss) == Emit(Flush(ss), Emit([ps[0]], Scan(Print(ps[1..]), None, "")))
  {
    hide Scan, Print, Separable;
    assert ps[0] in ps;
    DirectiveStarts(ps, ss);
    TailNameable(ps);
    if ps[0].arg == "" {
      assert "" + Print(ps[1..]) == Print(ps[1..]);
      DirectiveSettles(ps[1..], ps[0].name);
    } else {
      ArgumentScans(ps[0].arg, Print(ps[1..]), ps[0].name);
    }
  }

  lemma {:induction false} ParsePrints(ps: seq<Piece>, ss: string)
    requires Nameable(ps) && Faithful(ps) && (ss == "" || ps == [] || !ps[0].Literal?)
    ensures Scan(Print(ps), None, ss) == Pieces(Flush(ss) + ps, false)
    decreases |ps|
  {
    hide Scan, Nameable, Separable;
    if ps == [] {
      ScanEmpty(None, ss);
    } else {
      assert ps[0].Literal? || ps[0].Directive? by { KindsOf(ps); }
      TailNameable(ps);
      if ps[0].Literal? {
        LiteralThenRest(ps);
        ParsePrints(ps[1..], ps[0].text);
      } else {
        DirectiveThenRest(ps, ss);
        ParsePrints(ps[1..], "");
        EmitAll(Flush(ss), [ps[0]], ps[1..]);
        assert [ps[0]] + ps[1..] == ps;
      }
    }
  }

  lemma KindsOf(ps: seq<Piece>)
    requires Nameable(ps) && ps != []
    ensures ps[0].Literal? || ps[0].Directive?
  {
    assert ps[0] in ps;
  }

  // ---------------------------------------------------------------- when printing is not faithful

  lemma {:induction false} EscapeConcat(a: string, b: string)
    ensures Escape(a + b) == Escape(a) + Escape(b)
    decreases |a|
  {
    hide Escape;
    if a == "" {
      assert a + b == b;
      EscapeEmpty();
      assert "" + Escape(b) == Escape(b);
    } else {
      EscapeConcat(a[1..], b);
      EscapeHead(a, Escape(b));
      assert (a + b)[1..] == a[1..] + b;
      EscapeHead(a + b, "");
      assert Escape(a + b) + "" == Escape(a + b) && Escape((a + b)[1..]) + "" == Escape((a + b)[1..]);
    }
  }

  lemma EscapeOne(ss: string, x: char)
    ensures |Escape(ss + [x])| == |Escape(ss)| + (if x == '%' then 2 else 1)
  {
    EscapeConcat(ss, [x]);
    EscapeHead([x], "");
    assert [x][1..] == "";
  }

  lemma {:induction false} PrintEmit(a: seq<Piece>, b: seq<Piece>)
    ensures |Print(a + b)| == |Print(a)| + |Print(b)|
    decreases |a|
  {
    hide PrintPiece;
    if a == [] {
      assert a + b == b;
    } else {
      PrintEmit(a[1..], b);
      assert (a + b)[1..] == a[1..] + b;
    }
  }

  lemma PrintOne(p: Piece)
    ensures |Print([p])| == |PrintPiece(p)|
  {
    assert [p][1..] == [];
    assert Print([]) == "";
  }

  function Held(fmt: Option<char>): nat {
    if fmt.Some? then 2 else 0
  }

  lemma SmallPrints(ss: string, fmt: Option<char>)
    ensures |Print(Flush(ss))| == |Escape(ss)| && |Print(Pending(fmt))| == Held(fmt)
    ensures |Print(Flush(ss) + Pending(fmt))| == |Escape(ss)| + Held(fmt)
  {
    PrintOne(Literal(ss));
    if fmt.Some? {
      PrintOne(Directive(fmt.value, ""));
    }
    PrintEmit(Flush(ss), Pending(fmt));
  }

  /** A pattern without an error never names more than it says. */
  lemma {:induction false} ScanWeighs(rest: string, fmt: Option<char>, ss: string)
    requires !Scan(rest, fmt, ss).error
    ensures |Print(Scan(rest, fmt, ss).pieces)| <= |rest| + |Escape(ss)| + Held(fmt)
    decreases |rest|, Held(fmt)
  {
    hide Escape, Print, PrintPiece;
    SmallPrints(ss, fmt);
    EscapeEmpty();
    if rest == "" {
    } else if rest[0] != '%' {
      EscapeOne(ss, rest[0]);
      if fmt == None {
        ScanWeighs(rest[1..], None, ss + [rest[0]]);
      } else if rest[0] != '{' {
        ScanWeighs(rest[1..], None, ss + [rest[0]]);
        PrintEmit(Pending(fmt), Scan(rest[1..], None, ss + [rest[0]]).pieces);
      } else {
        var end := IndexOf(rest, '}');
        ScanWeighs(rest[end + 1..], None, ss);
        var d := Directive(fmt.value, rest[1..end]);
        PrintOne(d);
        DirectiveWeighs(d);
        PrintEmit([d], Scan(rest[end + 1..], None, ss).pieces);
      }
    } else if rest[1] == '%' {
      EscapeOne(ss, '%');
      ScanWeighs(rest[2..], fmt, ss + ['%']);
    } else if fmt.Some? {
      ScanWeighs(rest, None, ss);
      PrintEmit(Pending(fmt), Scan(rest, None, ss).pieces);
    } else {
      ScanWeighs(rest[2..], Some(rest[1]), "");
      PrintEmit(Flush(ss), Scan(rest[2..], Some(rest[1]), "").pieces);
    }
  }

  lemma DirectiveWeighs(p: Piece)
    requires p.Directive?
    ensures |PrintPiece(p)| == 2 + (if p.arg == "" then 0 else |p.arg| + 2)
  {
  }

  lemma BraceScans(w: string, c: char, ss: string)
    requires w != "" && w[0] == '{'
    ensures var end := IndexOf(w, '}');
      if end == |w| then Scan(w, Some(c), ss).error
      else 1 <= end && Scan(w, Some(c), ss) == Emit([Directive(c, w[1..end])], Scan(w[end + 1..], None, ss))
  {
  }

  /** A literal that is not separable changes the directive before it, or its place. */
  lemma DirectiveUnsettled(ps: seq<Piece>, c: char)
    requires Nameable(ps) && !Separable(ps)
    ensures Scan(Print(ps), Some(c), "") != Emit([Directive(c, "")], Pieces(ps, false))
  {
    hide Scan, Escape, Unpercent, Nameable;
    var t, r := ps[0].text, Print(ps[1..]);
    var u := Unpercent(t);
    var k := |t| - |u|;
    PercentsScan(t, k, r, c, "");
    assert "" + t[..k] == t[..k] && t[k..] == u;
    var w := Escape(u) + r;
    if u == "" {
      assert ps[1..] == [];
      EscapeEmpty();
      assert w == "";
      ScanEmpty(Some(c), t[..k]);
      LiteralFirst(ps, t);
      assert t[..k] == t;
      assert Scan(Print(ps), Some(c), "").pieces[0] == Literal(t);
      assert Emit([Directive(c, "")], Pieces(ps, false)).pieces[0] == Directive(c, "");
    } else {
      EscapeCons(u);
      BraceScans(w, c, t[..k]);
      var end := IndexOf(w, '}');
      if end < |w| && end == 1 && !Scan(w[2..], None, t[..k]).error {
        ScanWeighs(w[2..], None, t[..k]);
        EscapeConcat(t[..k], u);
        assert |Print(ps)| == |Escape(t)| + |r|;
      }
      EmitOne(Directive(c, ""), ps);
    }
  }

  lemma LiteralFirst(ps: seq<Piece>, t: string)
    requires Nameable(ps) && ps != [] && ps[0] == Literal(t)
    ensures t != ""
  {
    assert ps[0] in ps;
  }

  lemma EmitOne(p: Piece, ps: seq<Piece>)
    ensures forall q, after :: Emit([q], after) == Emit([p], Pieces(ps, false)) ==> q == p && after == Pieces(ps, false)
  {
    forall q, after | Emit([q], after) == Emit([p], Pieces(ps, false))
      ensures q == p && after == Pieces(ps, false)
    {
      EmitCancels([q], [p], after, Pieces(ps, false));
    }
  }

  lemma EmitCancels(a: seq<Piece>, b: seq<Piece>, x: Pieces, y: Pieces)
    requires |a| == |b| && Emit(a, x) == Emit(b, y)
    ensures a == b && x == y
  {
    assert a == Emit(a, x).pieces[..|a|] && x.pieces == Emit(a, x).pieces[|a|..];
    assert b == Emit(b, y).pieces[..|b|] && y.pieces == Emit(b, y).pieces[|b|..];
  }

  lemma {:induction false} ParseChanges(ps: seq<Piece>, ss: string)
    requires Nameable(ps) && !Faithful(ps) && (ss == "" || !ps[0].Literal?)
    ensures Scan(Print(ps), None, ss) != Pieces(Flush(ss) + ps, false)
    decreases |ps|
  {
    hide Scan, Nameable, Separable;
    KindsOf(ps);
    TailNameable(ps);
    EmitAll(Flush(ss), [ps[0]], ps[1..]);
    assert [ps[0]] + ps[1..] == ps;
    if ps[0].Literal? {
      LiteralThenRest(ps);
      ParseChanges(ps[1..], ps[0].text);
    } else if ps[0].arg == "" && !Separable(ps[1..]) {
      NameableHead(ps);
      DirectiveStarts(ps, ss);
      assert "" + Print(ps[1..]) == Print(ps[1..]);
      DirectiveUnsettled(ps[1..], ps[0].name);
      var x := Scan(Print(ps[1..]), Some(ps[0].name), "");
      if Emit(Flush(ss), x) == Emit(Flush(ss), Emit([ps[0]], Pieces(ps[1..], false))) {
        EmitCancels(Flush(ss), Flush(ss), x, Emit([ps[0]], Pieces(ps[1..], false)));
      }
    } else {
      DirectiveThenRest(ps, ss);
      ParseChanges(ps[1..], "");
      var x := Scan(Print(ps[1..]), None, "");
      assert Flush("") + ps[1..] == ps[1..];
      if Emit(Flush(ss), Emit([ps[0]], x)) == Emit(Flush(ss), Emit([ps[0]], Pieces(ps[1..], false))) {
        EmitCancels(Flush(ss), Flush(ss), Emit([ps[0]], x), Emit([ps[0]], Pieces(ps[1..], false)));
        EmitCancels([ps[0]], [ps[0]], x, Pieces(ps[1..], false));
      }
    }
  }

  lemma NameableHead(ps: seq<Piece>)
    requires Nameable(ps) && ps != [] && ps[0].Directive?
    ensures ps[0].name != '%' && '}' !in ps[0].arg
  {
    assert ps[0] in ps;
  }

  /** init() inverts the printer on every list of pieces a pattern can name, exactly when no
      literal is taken for an argument and none overtakes a directive at the end. */
  lemma ParsePrint(ps: seq<Piece>)
    requires Nameable(ps)
    ensures Parse(Print(ps)) == Pieces(ps, false) <==> Faithful(ps)
  {
    hide Scan, Nameable;
    assert Flush("") + ps == ps;
    if Faithful(ps) {
      ParsePrints(ps, "");
    } else {
      ParseChanges(ps, "");
    }
  }

  /** A directive before a literal brace: "%d{" is an argument that does not end. */
  lemma BraceIsTaken(c: char)
    requires c != '%'
    ensures var ps := [Directive(c, ""), Literal("{")];
      && Nameable(ps) && !Faithful(ps) && Print(ps) == ['%', c, '{']
      && Parse(Print(ps)) == Pieces([Complaint(LACK), Complaint(SINGLE), Directive(c, "")], true)
  {
    var ps := [Directive(c, ""), Literal("{")];
    assert ps[1..] == [Literal("{")] && ps[1..][1..] == [];
    assert Escape("{") == "{" by { assert "{"[1..] == ""; }
    assert Print(ps[1..]) == "{";
    var w := Print(ps);
    assert w == ['%', c, '{'] && w[2..] == "{";
    IndexNone("{", '}');
    assert Scan("{", Some(c), "") == Pieces([Complaint(LACK), Complaint(SINGLE)] + Flush("") + Pending(Some(c)), true);
    assert Scan(w, None, "") == Emit(Flush(""), Scan("{", Some(c), ""));
  }

  lemma {:induction false} IndexNone(w: string, c: char)
    requires c !in w
    ensures IndexOf(w, c) == |w|
  {
    if w != "" {
      IndexNone(w[1..], c);
    }
  }

  /** A directive before a percent sign at the end: the percent sign comes out first. */
  lemma PercentOvertakes(c: char)
    requires c != '%'
    ensures var ps := [Directive(c, ""), Literal("%")];
      && Nameable(ps) && !Faithful(ps) && Print(ps) == ['%', c, '%', '%']
      && Parse(Print(ps)) == Pieces([Literal("%"), Directive(c, "")], false)
  {
    PercentPieces(c);
    PercentText(c);
    PercentScans(c);
  }

  lemma PercentPieces(c: char)
    requires c != '%'
    ensures var ps := [Directive(c, ""), Literal("%")]; Nameable(ps) && !Faithful(ps)
  {
    var ps := [Directive(c, ""), Literal("%")];
    assert ps[1..] == [Literal("%")];
    assert "%"[1..] == "" && Unpercent("") == "" && Unpercent("%") == "";
    assert !Separable(ps[1..]);
  }

  lemma PercentText(c: char)
    ensures Print([Directive(c, ""), Literal("%")]) == ['%', c, '%', '%']
  {
    var ps := [Directive(c, ""), Literal("%")];
    assert ps[1..] == [Literal("%")] && ps[1..][1..] == [];
    assert Escape("%") == "%%" by { assert "%"[1..] == ""; }
    assert Print(ps[1..]) == "%%";
  }

  lemma PercentScans(c: char)
    requires c != '%'
    ensures Parse(['%', c, '%', '%']) == Pieces([Literal("%"), Directive(c, "")], false)
  {
    var w := ['%', c, '%', '%'];
    assert w[2..] == "%%" && "%%"[2..] == "" && "" + ['%'] == "%";
    ScanEmpty(Some(c), "%");
    assert Scan("%%", Some(c), "") == Scan("", Some(c), "%");
    assert Scan(w, None, "") == Emit(Flush(""), Scan("%%", Some(c), ""));
  }
}
