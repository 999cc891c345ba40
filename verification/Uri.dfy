/** class Uri: Create runs the automaton over the text with a position and a mark register,
    and dump prints the fields. */
module Uris {
  import opened Chars
  import opened Options
  import opened UriMachine
  import opened UriText
  import opened UriPrint
  import opened UriSound

  /** The text between the mark and the position. */
  function Token(text: string, mark: Option<nat>, p: nat): Option<string>
    requires p <= |text| && (mark.Some? ==> mark.value <= p)
  {
    if mark.Some? then Some(text[mark.value..p]) else None
  }

  /** atoi() at the mark: it reads on past the position while there are digits. */
  function Atoi(text: string, mark: nat): nat
    requires mark <= |text|
  {
    Value(Digits(text[mark..]))
  }

  lemma {:induction false} DigitsStop(a: string, b: string)
    requires IsNumber(a) && (b != [] ==> !IsDigit(b[0]))
    ensures Digits(a + b) == a
  {
    if a == [] {
      assert a + b == b;
    } else {
      assert a[0] in a;
      DigitsStop(a[1..], b);
      assert (a + b)[1..] == a[1..] + b;
    }
  }

  lemma AtoiIsToken(text: string, mark: nat, p: nat)
    requires mark <= p <= |text| && IsNumber(text[mark..p]) && (p < |text| ==> !IsDigit(text[p]))
    ensures Atoi(text, mark) == Value(Digits(text[mark..p]))
  {
    DigitsStop(text[mark..p], text[p..]);
    assert text[mark..p] + text[p..] == text[mark..];
    DigitsStop(text[mark..p], []);
    assert text[mark..p] + [] == text[mark..p];
  }

  /** save_port is only ever reached with digits between the mark and the position. */
  predicate PortSafe(actions: seq<Action>, token: Option<string>) {
    PORT in actions ==> actions[0] == MARK || (token.Some? ==> IsNumber(token.value))
  }

  /** Where a port is saved. */
  lemma PortMoves(s: State, x: char)
    ensures var a := Delta(s, x).actions;
      PORT in a ==> EndsPort(s) && IsExit(x) && a[0] == if s == S521 || s == S514 then MARK else PORT
  {
    hide Plain, IsHex, IsSchemeChar, IsAlpha, IsDigit;
  }

  lemma SavedPorts(s: State)
    requires MayEnd(s)
    ensures PORT in Saves(s) ==> EndsPort(s) && Saves(s)[0] == if s == S521 || s == S514 then MARK else PORT
  {
  }

  lemma PortToken(s: State, token: string)
    requires TokenOk(s, token) && (s == S542 || s == S515)
    ensures IsNumber(token)
  {
  }

  /** A port is saved right behind its mark, or behind digits. */
  lemma PortActionsSafe(s: State, actions: seq<Action>, token: Option<string>)
    requires token.Some? ==> TokenOk(s, token.value)
    requires PORT in actions ==> EndsPort(s) && actions[0] == if s == S521 || s == S514 then MARK else PORT
    ensures PortSafe(actions, token)
  {
    hide TokenOk;
    if PORT in actions && token.Some? && (s == S542 || s == S515) {
      PortToken(s, token.value);
    }
  }

  lemma MovePortSafe(s: State, relative: bool, x: char, token: Option<string>)
    requires token.Some? ==> TokenOk(s, token.value)
    ensures PortSafe(Transition(s, relative, x).actions, token)
    ensures PORT in Transition(s, relative, x).actions ==> !IsDigit(x)
  {
    hide Delta, TokenOk, PortSafe, Saves;
    if Leaves(s, relative, x) {
      SavedPorts(s);
    } else {
      PortMoves(s, x);
    }
    PortActionsSafe(s, Transition(s, relative, x).actions, token);
  }

  lemma EndPorts(s: State)
    ensures var a := EndActions(s); PORT in a ==> EndsPort(s) && a[0] == if s == S521 || s == S514 then MARK else PORT
  {
  }

  lemma EndPortSafe(s: State, relative: bool, token: Option<string>)
    requires token.Some? ==> TokenOk(s, token.value)
    ensures PortSafe(Ending(s, relative), token)
  {
    hide EndActions, TokenOk, PortSafe, Saves;
    if relative && MayEnd(s) {
      SavedPorts(s);
    } else {
      EndPorts(s);
    }
    PortActionsSafe(s, Ending(s, relative), token);
  }

  lemma FaultedText(text: string, p: nat)
    requires p <= |text| && Run(INITIAL, text[..p]).fault
    ensures Parse(text) == Faulted
  {
    hide Run, Finish;
    RunConcat(INITIAL, text[..p], text[p..]);
    assert text[..p] + text[p..] == text;
    RunFaulted(Run(INITIAL, text[..p]), text[p..]);
  }

  /** The generated code stops at the error state. */
  lemma RefusedText(text: string, p: nat)
    requires p <= |text| && Run(INITIAL, text[..p]).cs == S0 && !Run(INITIAL, text[..p]).fault
    ensures Parse(text) == Refused
  {
    hide Run, Finish;
    RunConcat(INITIAL, text[..p], text[p..]);
    assert text[..p] + text[p..] == text;
    ErrorStays(Run(INITIAL, text[..p]), text[p..]);
  }

  class Uri {
    var scheme: string
    var userinfo: string
    var host: string
    var path: string
    var query: string
    var fragment: string
    var port: int

    ghost function View(): Fields
      reads this
    {
      Fields(scheme, userinfo, host, path, query, fragment, port)
    }

    constructor ()
      ensures View() == NO_FIELDS
    {
      scheme, userinfo, host, path, query, fragment, port := "", "", "", "", "", "", 0;
    }

    method IsDefaultPort() returns (b: bool)
      ensures b <==> UriPrint.IsDefaultPort(View())
    {
      if port == 0 {
        return true;
      }
      if scheme == "http" || scheme == "ws" {
        return port == 80;
      } else if scheme == "https" || scheme == "wss" {
        return port == 443;
      }
      return false;
    }

    method GetPath() returns (p: string)
      ensures p == UriPrint.GetPath(View()) && p != ""
    {
      p := if path == "" then "/" else path;
    }

    method GetPort() returns (p: int)
      ensures p == UriPrint.GetPort(View())
    {
      if port != 0 {
        return port;
      }
      if scheme == "http" || scheme == "ws" {
        return 80;
      } else if scheme == "https" || scheme == "wss" {
        return 443;
      }
      return port;
    }

    method Dump() returns (os: string)
      ensures os == Print(View())
    {
      var default := IsDefaultPort();
      var p := GetPath();
      os := scheme + "://" + userinfo + (if userinfo == "" then "" else "@") + host
        + (if default then "" else ":" + UriPrint.ToString(port)) + p
        + (if query == "" then "" else "?") + query + (if fragment == "" then "" else "#") + fragment;
    }

    /** One action at position p; the answer says whether C++ defines it. */
    method Perform(a: Action, text: string, p: nat, mark: Option<nat>, ghost s: State, ghost relative: bool)
      returns (mark': Option<nat>, defined: bool)
      requires p <= |text| && (mark.Some? ==> mark.value <= p)
      requires a == PORT ==> p < |text| ==> !IsDigit(text[p])
      requires a == PORT && mark.Some? ==> IsNumber(text[mark.value..p])
      modifies this
      ensures mark'.Some? ==> mark'.value <= p
      ensures if a == MARK then mark' == Some(p) else mark' == mark || mark' == None
      ensures var c := Act(a, Config(s, Token(text, mark, p), old(View()), false, relative));
        c.fault == !defined && (defined ==> c == Config(s, Token(text, mark', p), View(), false, relative))
    {
      mark', defined := mark, true;
      assert text[p..p] == "";
      match a
      case MARK =>
        mark' := Some(p);
      case SCHEME =>
        if mark == None { return None, false; }
        scheme := text[mark.value..p];
        mark' := None;
      case USERINFO =>
        if mark.Some? {
          userinfo := text[mark.value..p];
        }
        mark' := None;
      case HOST =>
        if mark.Some? {
          host := text[mark.value..p];
        }
      case PORT =>
        if mark == None { return None, false; }
        AtoiIsToken(text, mark.value, p);
        if p != mark.value {
          if Atoi(text, mark.value) > INT32_MAX { return None, false; }
          port := Atoi(text, mark.value);
        }
        mark' := None;
      case PATH =>
        if mark == None { return None, false; }
        path := text[mark.value..p];
        mark' := None;
      case QUERY =>
        if mark == None { return None, false; }
        query := text[mark.value..p];
        mark' := None;
      case FRAGMENT =>
        if mark == None { return None, false; }
        fragment := text[mark.value..p];
        mark' := None;
    }

    /** The actions of one transition. */
    method PerformAll(actions: seq<Action>, text: string, p: nat, mark: Option<nat>, ghost s: State, ghost relative: bool)
      returns (mark': Option<nat>, defined: bool)
      requires p <= |text| && (mark.Some? ==> mark.value <= p)
      requires PORT in actions ==> p < |text| ==> !IsDigit(text[p])
      requires PortSafe(actions, Token(text, mark, p))
      modifies this
      ensures mark'.Some? ==> mark'.value <= p
      ensures var c := ActAll(actions, Config(s, Token(text, mark, p), old(View()), false, relative));
        c.fault == !defined && (defined ==> c == Config(s, Token(text, mark', p), View(), false, relative))
    {
      hide Act;
      mark', defined := mark, true;
      ghost var start := Config(s, Token(text, mark, p), old(View()), false, relative);
      var k := 0;
      while k < |actions|
        invariant 0 <= k <= |actions| && (mark'.Some? ==> mark'.value <= p)
        invariant ActAll(actions, start) == ActAll(actions[k..], Config(s, Token(text, mark', p), View(), false, relative))
        invariant k == 0 ==> mark' == mark
        invariant k > 0 && PORT in actions ==> mark'.Some? ==> IsNumber(text[mark'.value..p])
      {
        ghost var before := Config(s, Token(text, mark', p), View(), false, relative);
        assert actions[k..][1..] == actions[k + 1..];
        mark', defined := Perform(actions[k], text, p, mark', s, relative);
        if !defined {
          ActFaulted(actions[k + 1..], Act(actions[k], before));
          return;
        }
        k := k + 1;
      }
      assert actions[k..] == [];
    }

    /** Create: null for a text the grammar refuses; not `defined` where C++ throws or is
        undefined, or where the text leaves the part of the grammar described here. */
    static method Create(uristr: string) returns (uri: Uri?, defined: bool)
      ensures uri != null ==> fresh(uri)
      ensures match Parse(uristr)
        case Parsed(f) => defined && uri != null && uri.View() == f
        case Refused => defined && uri == null
        case Faulted => !defined
        case NotCovered => !defined
    {
      hide Run, Transition, Ending, ActAll, TokenOk, ValidFields, Final;
      var u := new Uri();
      var cs, relative, p := S451, false, 0;
      var mark: Option<nat> := None;
      InitialSound();
      RunEmpty(INITIAL);
      while p < |uristr|
        invariant 0 <= p <= |uristr| && fresh(u) && (mark.Some? ==> mark.value <= p)
        invariant Run(INITIAL, uristr[..p]) == Config(cs, Token(uristr, mark, p), u.View(), false, relative)
        invariant Sound(Config(cs, Token(uristr, mark, p), u.View(), false, relative))
      {
        var m := Transition(cs, relative, uristr[p]);
        ghost var c := Config(cs, Token(uristr, mark, p), u.View(), false, relative);
        RunNext(INITIAL, uristr, p);
        StepSound(c, uristr[p]);
        MovePortSafe(cs, relative, uristr[p], Token(uristr, mark, p));
        mark, defined := u.PerformAll(m.actions, uristr, p, mark, cs, relative);
        if !defined {
          FaultedText(uristr, p + 1);
          return null, false;
        }
        cs, relative := m.target, relative || Starts(cs, uristr[p]);
        p := p + 1;
        assert mark.Some? ==> uristr[mark.value..p] == uristr[mark.value..p - 1] + [uristr[p - 1]];
        if cs == S0 {
          RefusedText(uristr, p);
          return null, true;
        }
      }
      assert uristr[..p] == uristr;
      EndPortSafe(cs, relative, Token(uristr, mark, p));
      mark, defined := u.PerformAll(Ending(cs, relative), uristr, p, mark, cs, relative);
      if !defined {
        return null, false;
      }
      if cs == Outside {
        return null, false;
      }
      uri := if Final(cs) then u else null;
    }
  }
}
