/** class LogFormatter: init() turns the pattern into format items. */
module LogFormatters {
  import opened Options
  import opened Patterns

  /** StringFormatItem, and the items the directives name. */
  datatype FormatItem = Text(text: string) | Field(name: char, arg: string)

  const DIRECTIVES := "mprctNndflTF"

  predicate Known(p: Piece) {
    p.Literal? || (p.Directive? && p.name in DIRECTIVES)
  }

  function ErrorItem(what: string): FormatItem {
    Text("<error_format: " + what + ">")
  }

  function ItemOf(p: Piece): FormatItem {
    match p
    case Literal(t) => Text(t)
    case Directive(c, a) => if c in DIRECTIVES then Field(c, a) else ErrorItem([c])
    case Complaint(t) => ErrorItem(t)
  }

  function Items(ps: seq<Piece>): (items: seq<FormatItem>)
    ensures |items| == |ps| && forall i :: 0 <= i < |ps| ==> items[i] == ItemOf(ps[i])
  {
    if ps == [] then [] else Items(ps[..|ps| - 1]) + [ItemOf(ps[|ps| - 1])]
  }

  predicate AllKnown(ps: seq<Piece>) {
    forall p :: p in ps ==> Known(p)
  }

  predicate Erroneous(pattern: string) {
    Parse(pattern).error || !AllKnown(Parse(pattern).pieces)
  }

  lemma NextItem(ps: seq<Piece>, k: nat)
    requires k < |ps|
    ensures Items(ps[..k + 1]) == Items(ps[..k]) + [ItemOf(ps[k])]
    ensures AllKnown(ps[..k + 1]) <==> AllKnown(ps[..k]) && Known(ps[k])
  {
    assert ps[..k + 1][..k] == ps[..k];
    assert ps[..k + 1] == ps[..k] + [ps[k]];
  }

  lemma NoItems(ps: seq<Piece>)
    ensures Items(ps[..0]) == [] && AllKnown(ps[..0])
  {
  }

  lemma StepDirective(rest: string, fmt: Option<char>, ss: string, vec: seq<Piece>)
    requires fmt.Some? && rest != "" && (if rest[0] == '%' then |rest| > 1 && rest[1] != '%' else rest[0] != '{')
    ensures Emit(vec, Scan(rest, fmt, ss)) ==
              Emit(vec + [Directive(fmt.value, "")],
                   if rest[0] == '%' then Scan(rest, None, ss) else Scan(rest[1..], None, ss + [rest[0]]))
  {
  }

  lemma StepArgument(rest: string, fmt: Option<char>, ss: string, vec: seq<Piece>, end: nat)
    requires fmt.Some? && rest != "" && rest[0] == '{' && end < |rest| && rest[end] == '}'
    requires forall j :: 0 <= j < end ==> rest[j] != '}'
    ensures end > 0 && Emit(vec, Scan(rest, fmt, ss)) ==
                         Emit(vec + [Directive(fmt.value, rest[1..end])], Scan(rest[end + 1..], None, ss))
  {
    IndexIs(rest, '}', end);
  }

  lemma StepLack(rest: string, fmt: Option<char>, ss: string, vec: seq<Piece>)
    requires fmt.Some? && rest != "" && rest[0] == '{' && '}' !in rest
    ensures Emit(vec, Scan(rest, fmt, ss)) ==
              Pieces(vec + [Complaint(LACK)] + [Complaint(SINGLE)] + Flush(ss) + Pending(fmt), true)
  {
  }

  lemma StepFlush(rest: string, ss: string, vec: seq<Piece>)
    requires |rest| > 1 && rest[0] == '%' && rest[1] != '%'
    ensures Emit(vec, Scan(rest, None, ss)) == Emit(vec + Flush(ss), Scan(rest[2..], Some(rest[1]), ""))
  {
  }

  lemma StepSingle(rest: string, fmt: Option<char>, ss: string, vec: seq<Piece>)
    requires rest == "%"
    ensures Emit(vec, Scan(rest, fmt, ss)) == Pieces(vec + [Complaint(SINGLE)] + Flush(ss) + Pending(fmt), true)
  {
  }

  lemma ParseIs(pattern: string)
    ensures Parse(pattern) == Emit([], Scan(pattern, None, ""))
  {
  }

  lemma ErroneousIs(pattern: string)
    ensures Erroneous(pattern) == (Parse(pattern).error || !AllKnown(Parse(pattern).pieces))
  {
  }

  lemma ScanEnds(fmt: Option<char>, ss: string, vec: seq<Piece>)
    ensures Emit(vec, Scan("", fmt, ss)) == Pieces(vec + Flush(ss) + Pending(fmt), false)
  {
  }

  class LogFormatter {
    const pattern: string          // m_pattern
    var items: seq<FormatItem>     // m_items
    var error: bool                // m_error

    constructor (pattern: string)
      ensures this.pattern == pattern && items == Items(Parse(pattern).pieces) && error == Erroneous(pattern)
    {
      this.pattern := pattern;
      items, error := [], false;
      new;
      Init();
    }

    /** To the closing brace, or the end. */
    method SkipArgument(from: nat) returns (i: nat)
      requires from < |pattern| && pattern[from] != '}'
      ensures from <= i <= |pattern| && (i < |pattern| ==> i > from && pattern[i] == '}')
      ensures forall j :: 0 <= j < i - from ==> pattern[from..][j] != '}'
      ensures if i == |pattern| then '}' !in pattern[from..] else pattern[from..][i - from] == '}'
    {
      i := from;
      while i < |pattern| && pattern[i] != '}'
        invariant from <= i <= |pattern|
        invariant forall j :: from <= j < i ==> pattern[j] != '}'
      {
        i := i + 1;
      }
    }

    /** The index loop; stepping back leaves `i` where it was, but without a directive pending. */
    method Init()
      requires items == [] && !error
      modifies this
      ensures items == Items(Parse(pattern).pieces) && error == Erroneous(pattern)
    {
      hide Scan, IndexOf, Emit, Items, Erroneous, Parse;
      assert Parse(pattern) == Emit([], Scan(pattern, None, "")) by { ParseIs(pattern); }
      var vec, ss := [], "";
      var fmt: Option<char> := None;
      var i := 0;
      assert pattern[0..] == pattern;
      while i < |pattern|
        invariant 0 <= i && items == []
        invariant !error ==> i <= |pattern| && Parse(pattern) == Emit(vec, Scan(pattern[i..], fmt, ss))
        invariant error ==> i >= |pattern| && Parse(pattern) == Pieces(vec + Flush(ss) + Pending(fmt), true)
        decreases |pattern| - i, if fmt.Some? then 1 else 0
      {
        ghost var rest := pattern[i..];
        ghost var was := vec;
        assert i + 1 < |pattern| ==> rest[1] == pattern[i + 1];
        if pattern[i] != '%' {
          assert pattern[i + 1..] == rest[1..];
          if fmt == None {
            assert rest == [pattern[i]] + rest[1..];
            ScanChar(pattern[i], rest[1..], ss);
            ss := ss + [pattern[i]];
            i := i + 1;
            continue;
          } else if pattern[i] != '{' {
            StepDirective(rest, fmt, ss, vec);
            vec := vec + [Directive(fmt.value, "")];
            fmt := None;
            ss := ss + [pattern[i]];
            i := i + 1;
            continue;
          } else {
            var start := i + 1;
            i := SkipArgument(i);
            if i == |pattern| {
              StepLack(rest, fmt, ss, vec);
              vec := vec + [Complaint(LACK)];
              error := true;
            } else {
              StepArgument(rest, fmt, ss, vec, i - start + 1);
              assert rest[1..i - start + 1] == pattern[start..i] && rest[i - start + 2..] == pattern[i + 1..];
              vec := vec + [Directive(fmt.value, pattern[start..i])];
              fmt := None;
              i := i + 1;
              continue;
            }
          }
        }
        if i + 1 < |pattern| {
          assert pattern[i + 2..] == rest[2..];
          if pattern[i + 1] == '%' {
            assert rest == "%%" + rest[2..];
            ScanPercent(rest[2..], fmt, ss);
            ss := ss + ['%'];
            i := i + 1;
          } else if fmt != None {
            StepDirective(rest, fmt, ss, vec);
            vec := vec + [Directive(fmt.value, "")];
            fmt := None;
            i := i - 1;
          } else {
            StepFlush(rest, ss, vec);
            ghost var text := ss;
            if ss != "" {
              vec := vec + [Literal(ss)];
              ss := "";
            }
            assert vec == was + Flush(text);
            i := i + 1;
            fmt := Some(pattern[i]);
          }
        } else {
          if !error {
            assert rest == "%";
            StepSingle(rest, fmt, ss, vec);
          }
          vec := vec + [Complaint(SINGLE)];
          error := true;
        }
        i := i + 1;
      }
      if !error {
        assert pattern[i..] == "";
        ScanEnds(fmt, ss, vec);
      }
      Close(vec, fmt, ss);
    }

    /** What init() does behind its loop. */
    method Close(vec: seq<Piece>, fmt: Option<char>, ss: string)
      requires items == [] && Parse(pattern) == Pieces(vec + Flush(ss) + Pending(fmt), error)
      modifies this
      ensures items == Items(Parse(pattern).pieces) && error == Erroneous(pattern)
    {
      hide Parse, Items, Erroneous, AllKnown;
      var all := vec;
      if ss != "" {
        all := all + [Literal(ss)];
      }
      if fmt != None {
        all := all + [Directive(fmt.value, "")];
      }
      assert Parse(pattern) == Pieces(all, error);
      ErroneousIs(pattern);
      Build(all);
    }

    /** The second loop of init(). */
    method Build(vec: seq<Piece>)
      requires items == []
      modifies this
      ensures items == Items(vec)
      ensures error <==> old(error) || !AllKnown(vec)
    {
      hide Items, AllKnown;
      assert Items(vec[..0]) == [] && AllKnown(vec[..0]) by { NoItems(vec); }
      var k := 0;
      while k < |vec|
        invariant 0 <= k <= |vec| && items == Items(vec[..k])
        invariant error <==> old(error) || !AllKnown(vec[..k])
      {
        NextItem(vec, k);
        match vec[k] {
          case Literal(t) =>
            items := items + [Text(t)];
          case Directive(c, a) =>
            if c in DIRECTIVES {
              items := items + [Field(c, a)];
            } else {
              items := items + [ErrorItem([c])];
              error := true;
            }
          case Complaint(t) =>
            items := items + [ErrorItem(t)];
            error := true;
        }
        k := k + 1;
      }
      assert vec[..k] == vec;
    }
  }

  /** A formatter made from a printed list of known items formats exactly these items, without
      an error, when the list is faithful. */
  lemma FormatterOfPrint(ps: seq<Piece>)
    requires Nameable(ps) && Faithful(ps) && AllKnown(ps)
    ensures Items(Parse(Print(ps)).pieces) == Items(ps) && !Erroneous(Print(ps))
  {
    hide Parse, Print, Nameable;
    ParsePrint(ps);
  }
}
