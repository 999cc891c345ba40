/** The body loops of HttpConnection::recvResponse.  Size lines and chunk data arrive in reads
    of any size, and are taken from one buffer that is compacted after each step. */
module HttpBody {
  import opened Chars
  import opened Options

  const INT32_MAX := 0x7fff_ffff

  // ---------------------------------------------------------------- the size line

  /** What one run of the parser makes of a buffer.  A chunk extension or a status line leads
      Outside this description. */
  datatype Line = Size(used: nat, size: int) | Partial | Malformed | Outside

  function Execute(w: string): (l: Line)
    ensures l.Size? ==> 0 < l.used <= |w| && l.size >= 0
  {
    var n := HexPrefix(w);
    if n == 0 then (if w != "" && w[0] == 'H' then Outside else Malformed)
    else if n == |w| then Partial
    else if w[n] == '\n' then Size(n + 1, HexValue(w[..n]))
    else if w[n] == ';' then Outside
    else if w[n] != '\r' then Malformed
    else if n + 1 == |w| then Partial
    else if w[n + 1] == '\n' then Size(n + 2, HexValue(w[..n]))
    else Malformed
  }

  // ---------------------------------------------------------------- reading

  /** What is still to come, and how much each read may deliver; a read fails when the plan is
      over, or delivers nothing. */
  datatype Net = Net(wire: string, plan: seq<nat>)

  predicate Fails(net: Net) {
    net.wire == "" || net.plan == [] || net.plan[0] == 0
  }

  function Min(a: int, b: int): (m: int)
    ensures m <= a && m <= b && (m == a || m == b)
  {
    if a < b then a else b
  }

  function Amount(net: Net, cap: nat): nat
    requires !Fails(net)
  {
    Min(cap, Min(|net.wire|, net.plan[0]))
  }

  function AfterRead(net: Net, cap: nat): Net
    requires !Fails(net)
  {
    Net(net.wire[Amount(net, cap)..], net.plan[1..])
  }

  datatype Outcome = Body(body: string) | Closed | Refused | Faulted | NotCovered

  datatype Header = Header(size: int, buf: string, net: Net) | Stop(why: Outcome)

  /** The inner loop: read and parse until a size line is finished.  The parser starts anew on
      every turn, and a partial line is dropped from the buffer. */
  function ReadHeader(net: Net, buf: string, cap: nat): (h: Header)
    requires cap > 0
    ensures h.Header? ==> h.size >= 0 && |h.buf| + |h.net.wire| < |buf| + |net.wire|
    ensures h.Stop? ==> !h.why.Body?
    decreases |net.plan|
  {
    if buf != "" then ParseHeader(net, buf, cap)
    else if Fails(net) then Stop(Closed)
    else ParseHeader(AfterRead(net, cap), net.wire[..Amount(net, cap)], cap)
  }

  function ParseHeader(net: Net, buf: string, cap: nat): (h: Header)
    requires cap > 0
    ensures h.Header? ==> h.size >= 0 && |h.buf| + |h.net.wire| < |buf| + |net.wire|
    ensures h.Stop? ==> !h.why.Body?
    decreases |net.plan|, 0
  {
    match Execute(buf)
    case Size(used, size) => Header(size, buf[used..], net)
    case Partial =>
      if Fails(net) then Stop(Closed) else ParseHeader(AfterRead(net, cap), net.wire[..Amount(net, cap)], cap)
    case Malformed => Stop(Refused)
    case Outside => Stop(NotCovered)
  }

  /** Data and its line end, read straight into the body: None when a read fails. */
  function ReadRest(net: Net, left: nat, cap: nat): (r: Option<(string, Net)>)
    requires cap > 0
    ensures r.Some? ==> |r.value.0| == left && r.value.0 + r.value.1.wire == net.wire
    decreases |net.plan|
  {
    if left == 0 then Some(("", net))
    else if Fails(net) then None
    else
      var n := Amount(net, Min(left, cap));
      match ReadRest(AfterRead(net, Min(left, cap)), left - n, cap)
      case None => None
      case Some(r) => Some((net.wire[..n] + r.0, r.1))
  }

  /** The outer loop. */
  function ReadChunks(net: Net, buf: string, body: string, cap: nat): Outcome
    requires cap > 0
    decreases |buf| + |net.wire|
  {
    match ReadHeader(net, buf, cap)
    case Stop(why) => why
    case Header(size, buf', net') => TakeChunk(net', buf', body, size, cap)
  }

  /** One turn of it behind the size line. */
  function TakeChunk(net: Net, buf: string, body: string, size: nat, cap: nat): Outcome
    requires cap > 0
    decreases |buf| + |net.wire|
  {
    if size > INT32_MAX - 2 then Faulted
    else if size + 2 <= |buf| then
      var body' := body + buf[..size];
      if size == 0 then Body(body') else ReadChunks(net, buf[size + 2..], body', cap)
    else
      match ReadRest(net, size - |buf| + 2, cap)
      case None => Closed
      case Some(r) =>
        var all := body + buf + r.0;
        var body' := all[..|all| - 2];
        if size == 0 then Body(body') else ReadChunks(r.1, "", body', cap)
  }

  // ---------------------------------------------------------------- what a server sends

  /** A chunk: the digits of its size line and its data. */
  datatype Chunk = Chunk(digits: string, data: string)

  predicate ValidChunk(c: Chunk) {
    c.digits != "" && AllHex(c.digits) && HexValue(c.digits) == |c.data| <= INT32_MAX - 2
  }

  /** Chunks with data, and an empty one at the end. */
  predicate ValidChunks(cs: seq<Chunk>) {
    cs != [] && ValidChunk(cs[0]) && (if |cs| == 1 then cs[0].data == "" else cs[0].data != "" && ValidChunks(cs[1..]))
  }

  function SizeLine(c: Chunk): string {
    c.digits + "\r\n"
  }

  function Encode(cs: seq<Chunk>): string {
    if cs == [] then "" else SizeLine(cs[0]) + (cs[0].data + "\r\n" + Encode(cs[1..]))
  }

  function Data(cs: seq<Chunk>): string {
    if cs == [] then "" else cs[0].data + Data(cs[1..])
  }

  /** Every read delivers something until all has come. */
  predicate Alive(net: Net) {
    |net.plan| >= |net.wire| && forall i :: 0 <= i < |net.plan| ==> net.plan[i] > 0
  }

  // ---------------------------------------------------------------- decoding

  /** A buffer that holds a whole size line. */
  lemma WholeLine(d: string, rest: string)
    requires d != "" && AllHex(d)
    ensures Execute(d + "\r\n" + rest) == Size(|d| + 2, HexValue(d))
    ensures (d + "\r\n" + rest)[|d| + 2..] == rest
  {
    var w := d + "\r\n" + rest;
    assert w[..|d|] == d && w[|d|] == '\r' && w[|d| + 1] == '\n';
    HexPrefixIs(w, |d|);
  }

  lemma AliveRead(net: Net, cap: nat)
    requires Alive(net) && net.wire != "" && cap > 0
    ensures !Fails(net) && Amount(net, cap) > 0 && Alive(AfterRead(net, cap))
    ensures net.wire[..Amount(net, cap)] + AfterRead(net, cap).wire == net.wire
  {
  }

  lemma {:induction false} RestArrives(net: Net, left: nat, cap: nat)
    requires Alive(net) && left <= |net.wire| && cap > 0
    ensures ReadRest(net, left, cap).Some?
    ensures var r := ReadRest(net, left, cap).value;
      r.0 == net.wire[..left] && r.1.wire == net.wire[left..] && Alive(r.1)
    decreases |net.plan|
  {
    if left > 0 {
      var c := Min(left, cap);
      AliveRead(net, c);
      var n := Amount(net, c);
      RestArrives(AfterRead(net, c), left - n, cap);
      assert net.wire[..n] + net.wire[n..][..left - n] == net.wire[..left];
      assert net.wire[n..][left - n..] == net.wire[left..];
    }
  }

  /** The buffer the size line is first looked for in. */
  function FirstLook(net: Net, buf: string, cap: nat): string {
    if buf != "" || Fails(net) then buf else net.wire[..Amount(net, cap)]
  }

  function AfterLook(net: Net, buf: string, cap: nat): Net {
    if buf != "" || Fails(net) then net else AfterRead(net, cap)
  }

  /** A turn of the inner loop with an empty buffer. */
  function LookAgain(net: Net, cap: nat): Header
    requires cap > 0
  {
    if Fails(net) then Stop(Closed) else ParseHeader(AfterRead(net, cap), net.wire[..Amount(net, cap)], cap)
  }

  lemma HeaderStart(net: Net, buf: string, cap: nat)
    requires cap > 0
    ensures ReadHeader(net, buf, cap) == if buf == "" then LookAgain(net, cap) else ParseHeader(net, buf, cap)
  {
  }

  lemma LookedAgain(net: Net, cap: nat)
    requires cap > 0
    ensures if Fails(net) then LookAgain(net, cap) == Stop(Closed)
            else
              && 0 < Amount(net, cap) <= cap && Amount(net, cap) <= |net.wire|
              && |AfterRead(net, cap).plan| < |net.plan|
              && LookAgain(net, cap) == ParseHeader(AfterRead(net, cap), net.wire[..Amount(net, cap)], cap)
  {
  }

  lemma Parsed(net: Net, buf: string, cap: nat)
    requires cap > 0
    ensures ParseHeader(net, buf, cap) ==
              var line := Execute(buf);
              if line.Size? then Header(line.size, buf[line.used..], net)
              else if line.Partial? then LookAgain(net, cap)
              else Stop(if line.Malformed? then Refused else NotCovered)
  {
  }

  // ---------------------------------------------------------------- size lines over several reads

  /** Where the look that completes the first n characters starts. */
  function LastLook(net: Net, buf: string, n: nat, cap: nat): nat
    requires cap > 0
    decreases |net.plan|, |buf|
  {
    var look := FirstLook(net, buf, cap);
    if |look| >= n || look == "" then 0 else |look| + LastLook(AfterLook(net, buf, cap), "", n - |look|, cap)
  }

  lemma PartialLine(d: string, k: nat)
    requires d != "" && AllHex(d) && 0 < k < |d| + 2
    ensures Execute((d + "\r\n")[..k]) == Partial
  {
    var w, n := (d + "\r\n")[..k], if k < |d| then k else |d|;
    assert w[..n] == d[..n];
    HexPrefixIs(w, n);
  }

  lemma EndFirst(w: string)
    requires w != "" && (w[0] == '\r' || w[0] == '\n')
    ensures Execute(w) == Malformed
  {
    HexPrefixIs(w, 0);
  }

  /** What a look holds, and what is left behind it. */
  lemma LookSplits(net: Net, buf: string, line: string, after: string, cap: nat)
    requires Alive(net) && cap > 0 && line != "" && buf + net.wire == line + after
    ensures var look, net' := FirstLook(net, buf, cap), AfterLook(net, buf, cap);
      && look != "" && Alive(net') && look + net'.wire == line + after && (buf == "" ==> |net'.plan| < |net.plan|)
      && ReadHeader(net, buf, cap) == ParseHeader(net', look, cap)
      && (|look| < |line| ==> look == line[..|look|] && net'.wire == line[|look|..] + after)
      && (|line| <= |look| ==> look == line + look[|line|..] && look[|line|..] + net'.wire == after)
  {
    var look, net' := FirstLook(net, buf, cap), AfterLook(net, buf, cap);
    HeaderStart(net, buf, cap);
    if buf == "" {
      assert buf + net.wire == net.wire;
      AliveRead(net, cap);
      LookedAgain(net, cap);
    }
    if |line| <= |look| {
      Overlap(look, net'.wire, line, after);
    } else {
      Overlap(line, after, look, net'.wire);
    }
  }

  lemma WholeRead(net: Net, buf: string, d: string, after: string, cap: nat)
    requires Alive(net) && cap > 0 && d != "" && AllHex(d) && buf + net.wire == d + "\r\n" + after
    requires |d| + 2 <= |FirstLook(net, buf, cap)|
    ensures var look, h := FirstLook(net, buf, cap), ReadHeader(net, buf, cap);
      && h == Header(HexValue(d), look[|d| + 2..], AfterLook(net, buf, cap))
      && h.buf + h.net.wire == after && Alive(h.net)
  {
    hide Execute, HexValue, HexPrefix, ReadHeader, FirstLook, AfterLook, Alive;
    LookSplits(net, buf, d + "\r\n", after, cap);
    var look, net' := FirstLook(net, buf, cap), AfterLook(net, buf, cap);
    WholeLine(d, look[|d| + 2..]);
    Parsed(net', look, cap);
  }

  /** The digits, or only the line end, are behind the cut. */
  lemma EndRead(net: Net, line: string, after: string, cap: nat)
    requires Alive(net) && cap > 0 && net.wire == line + after && (line == "\r\n" || line == "\n")
    ensures ReadHeader(net, "", cap) == Stop(Refused)
  {
    hide Execute, ReadHeader, FirstLook, AfterLook, Alive;
    assert "" + net.wire == net.wire;
    LookSplits(net, "", line, after, cap);
    var look, net' := FirstLook(net, "", cap), AfterLook(net, "", cap);
    assert look[0] == line[0];
    EndFirst(look);
    Parsed(net', look, cap);
  }

  /** For any reads: the parser forgets every look but the one that completes the line.  The
      size is that of the digits in that look; without a digit there the line is refused. */
  lemma {:induction false} LineRead(net: Net, buf: string, d: string, after: string, cap: nat)
    requires Alive(net) && cap > 0 && d != "" && AllHex(d) && buf + net.wire == d + "\r\n" + after
    ensures var j, h := LastLook(net, buf, |d| + 2, cap), ReadHeader(net, buf, cap);
      if j < |d| then h.Header? && h.size == HexValue(d[j..]) && h.buf + h.net.wire == after && Alive(h.net)
      else h == Stop(Refused)
    decreases |net.plan|, |buf|
  {
    hide Execute, HexValue, HexPrefix, ReadHeader, FirstLook, AfterLook, Alive;
    var line := d + "\r\n";
    LookSplits(net, buf, line, after, cap);
    var look, net' := FirstLook(net, buf, cap), AfterLook(net, buf, cap);
    var k := |look|;
    if |line| <= k {
      WholeRead(net, buf, d, after, cap);
      assert d[0..] == d;
    } else {
      PartialLine(d, k);
      Parsed(net', look, cap);
      HeaderStart(net', "", cap);
      SameNet(net, buf, cap);
      if k < |d| {
        assert line[k..] == d[k..] + "\r\n";
        assert "" + net'.wire == net'.wire;
        LineRead(net', "", d[k..], after, cap);
        var j := LastLook(net', "", |d| - k + 2, cap);
        assert j < |d| - k ==> d[k..][j..] == d[k + j..];
      } else {
        assert line[k..] == if k == |d| then "\r\n" else "\n";
        EndRead(net', line[k..], after, cap);
      }
    }
  }

  lemma SameNet(net: Net, buf: string, cap: nat)
    ensures buf != "" ==> AfterLook(net, buf, cap) == net
  {
  }

  /** Dropping digits keeps the value exactly when they are zeros. */
  lemma {:induction false} CutDigits(a: string, b: string)
    requires AllHex(a) && AllHex(b)
    ensures AllHex(a + b) && HexValue(b) <= HexValue(a + b)
    ensures HexValue(a + b) == HexValue(b) <==> HexValue(a) == 0
    decreases |b|
  {
    if b == "" {
      assert a + b == a;
    } else {
      var b' := b[..|b| - 1];
      CutDigits(a, b');
      assert (a + b)[..|a + b| - 1] == a + b';
    }
  }

  /** Only zeros are lost: the look that completes the size line holds all digits from the
      first one that counts on; and at least one. */
  predicate LosesZeros(net: Net, buf: string, c: Chunk, cap: nat)
    requires cap > 0 && AllHex(c.digits)
  {
    var j := LastLook(net, buf, |SizeLine(c)|, cap);
    j < |c.digits| && HexValue(c.digits[..j]) == 0
  }

  /** For any reads the size of a chunk is right exactly when only zeros are lost. */
  lemma SizeExactly(net: Net, buf: string, c: Chunk, after: string, cap: nat)
    requires Alive(net) && cap > 0 && c.digits != "" && AllHex(c.digits) && buf + net.wire == SizeLine(c) + after
    ensures var h := ReadHeader(net, buf, cap);
      && (h.Header? && h.size == HexValue(c.digits) <==> LosesZeros(net, buf, c, cap))
      && (h.Header? ==> h.buf + h.net.wire == after && Alive(h.net))
  {
    hide ReadHeader, LastLook, HexValue;
    LineRead(net, buf, c.digits, after, cap);
    var j := LastLook(net, buf, |SizeLine(c)|, cap);
    if j < |c.digits| {
      CutDigits(c.digits[..j], c.digits[j..]);
      assert c.digits[..j] + c.digits[j..] == c.digits;
    }
  }

  /** In particular when the line is whole in the first look. */
  lemma WholeLosesZeros(net: Net, buf: string, c: Chunk, cap: nat)
    requires cap > 0 && c.digits != "" && AllHex(c.digits) && |SizeLine(c)| <= |FirstLook(net, buf, cap)|
    ensures LosesZeros(net, buf, c, cap)
  {
    assert c.digits[..0] == "";
  }

  /** No size line loses more than zeros. */
  predicate HarmlessLines(net: Net, buf: string, cs: seq<Chunk>, cap: nat)
    requires cap > 0 && ValidChunks(cs)
    decreases |cs|, 1
  {
    LosesZeros(net, buf, cs[0], cap) && (|cs| > 1 ==> HarmlessRest(net, buf, cs, cap))
  }

  predicate HarmlessRest(net: Net, buf: string, cs: seq<Chunk>, cap: nat)
    requires cap > 0 && ValidChunks(cs) && |cs| > 1
    decreases |cs|, 0
  {
    var h, size := ReadHeader(net, buf, cap), |cs[0].data|;
    && h.Header?
    && if size + 2 <= |h.buf| then HarmlessLines(h.net, h.buf[size + 2..], cs[1..], cap)
       else
         var r := ReadRest(h.net, size - |h.buf| + 2, cap);
         r.Some? && HarmlessLines(r.value.1, "", cs[1..], cap)
  }

  lemma Overlap(a: string, b: string, x: string, y: string)
    requires a + b == x + y && |x| <= |a|
    ensures a == x + a[|x|..] && a[|x|..] + b == y
  {
    assert a == (a + b)[..|a|] && x == (x + y)[..|x|] && y == (x + y)[|x|..];
    assert a[|x|..] + b == (a + b)[|x|..];
    assert a[..|x|] == (a + b)[..|x|];
  }

  /** For any chunks, any sizes of the reads and any buffer size: when the peer delivers
      everything and no size line loses more than zeros, the body is the data of the chunks,
      wherever the reads split the data and the line ends behind it. */
  lemma {:induction false} ChunksArrive(net: Net, buf: string, body: string, cs: seq<Chunk>, after: string, cap: nat)
    requires ValidChunks(cs) && Alive(net) && cap > 0
    requires buf + net.wire == Encode(cs) + after && HarmlessLines(net, buf, cs, cap)
    ensures ReadChunks(net, buf, body, cap) == Body(body + Data(cs))
    decreases |cs|
  {
    hide ReadHeader, ReadRest, ReadChunks, HexValue, LosesZeros, Alive;
    ChunkStep(net, buf, body, cap);
    var c, tail := cs[0], Encode(cs[1..]) + after;
    assert Encode(cs) + after == SizeLine(c) + (c.data + "\r\n" + tail);
    SizeExactly(net, buf, c, c.data + "\r\n" + tail, cap);
    var h := ReadHeader(net, buf, cap);
    var buf', net', size := h.buf, h.net, |c.data|;
    if size + 2 <= |buf'| {
      Overlap(buf', net'.wire, c.data + "\r\n", tail);
      assert buf'[..size] == c.data;
      NextChunk(net', buf'[size + 2..], body, cs, after, cap);
    } else {
      var left := size - |buf'| + 2;
      Overlap(c.data + "\r\n", tail, buf', net'.wire);
      RestArrives(net', left, cap);
      var r := ReadRest(net', left, cap).value;
      RestSplits(c.data + "\r\n", tail, buf', net'.wire, left);
      DropLineEnd(body, c.data, buf', r.0);
      NextChunk(r.1, "", body, cs, after, cap);
    }
  }

  lemma RestSplits(a: string, b: string, x: string, y: string, left: nat)
    requires a + b == x + y && |x| + left == |a| && left <= |y|
    ensures x + y[..left] == a && y[left..] == b
  {
    Overlap(a, b, x, y);
  }

  lemma DropLineEnd(body: string, data: string, buf: string, rest: string)
    requires buf + rest == data + "\r\n"
    ensures var all := body + buf + rest; |all| >= 2 && all[..|all| - 2] == body + data
  {
    assert body + buf + rest == body + (data + "\r\n");
    assert body + (data + "\r\n") == (body + data) + "\r\n";
  }

  lemma NextChunk(net: Net, buf: string, body: string, cs: seq<Chunk>, after: string, cap: nat)
    requires ValidChunks(cs) && Alive(net) && cap > 0
    requires buf + net.wire == Encode(cs[1..]) + after
    requires |cs| > 1 ==> HarmlessLines(net, buf, cs[1..], cap)
    ensures if |cs| == 1 then body + cs[0].data == body + Data(cs)
            else ReadChunks(net, buf, body + cs[0].data, cap) == Body(body + Data(cs))
    decreases |cs|, 0
  {
    hide ReadChunks, HarmlessLines, Encode;
    if |cs| > 1 {
      ChunksArrive(net, buf, body + cs[0].data, cs[1..], after, cap);
    } else {
      assert Data(cs[1..]) == "";
    }
    assert body + cs[0].data + Data(cs[1..]) == body + Data(cs);
  }

  // ---------------------------------------------------------------- what a harmful line does

  /** The outer loop behind a size line: that many bytes go to the body, two are dropped, and
      what follows them is the next size line. */
  lemma TakesSize(net: Net, buf: string, body: string, size: nat, after: string, cap: nat) returns (net': Net, buf': string)
    requires Alive(net) && cap > 0 && buf + net.wire == after && size <= INT32_MAX - 2 && size + 2 <= |after|
    ensures Alive(net') && buf' + net'.wire == after[size + 2..]
    ensures TakeChunk(net, buf, body, size, cap)
         == if size == 0 then Body(body) else ReadChunks(net', buf', body + after[..size], cap)
  {
    hide ReadRest, ReadChunks, Alive;
    if size + 2 <= |buf| {
      net', buf' := net, buf[size + 2..];
      assert buf[..size] == after[..size] && buf' + net.wire == after[size + 2..];
      assert size == 0 ==> body + buf[..size] == body;
    } else {
      var left := size + 2 - |buf|;
      RestArrives(net, left, cap);
      var r := ReadRest(net, left, cap).value;
      net', buf' := r.1, "";
      RestSplits(after[..size + 2], after[size + 2..], buf, net.wire, left);
      DropTwo(body, buf + r.0, size);
      assert body + buf + r.0 == body + (buf + r.0);
      assert after[..size + 2][..size] == after[..size];
      assert size == 0 ==> body + after[..size] == body;
    }
  }

  lemma DropTwo(body: string, w: string, size: nat)
    requires |w| == size + 2
    ensures (body + w)[..|body + w| - 2] == body + w[..size]
  {
  }

  /** What any size line makes of the body, harmful or not: without a digit in the look that
      completes it the response is refused; otherwise the digits in that look say how much of
      what follows is taken.  A harmful line takes less than the data, loses two bytes behind
      it, and the rest of the data is read as the next size line; when only zeros are left,
      the body ends there. */
  lemma LineDecides(net: Net, buf: string, body: string, c: Chunk, after: string, cap: nat)
    returns (net': Net, buf': string)
    requires Alive(net) && cap > 0 && c.digits != "" && AllHex(c.digits) && buf + net.wire == SizeLine(c) + after
    requires HexValue(c.digits) <= INT32_MAX - 2 && HexValue(c.digits) + 2 <= |after|
    ensures var j := LastLook(net, buf, |SizeLine(c)|, cap);
      if j >= |c.digits| then ReadChunks(net, buf, body, cap) == Refused
      else
        var v := HexValue(c.digits[j..]);
        && v <= HexValue(c.digits) && (v == HexValue(c.digits) <==> LosesZeros(net, buf, c, cap))
        && Alive(net') && buf' + net'.wire == after[v + 2..]
        && ReadChunks(net, buf, body, cap)
           == if v == 0 then Body(body) else ReadChunks(net', buf', body + after[..v], cap)
  {
    hide ReadHeader, ReadChunks, TakeChunk, LastLook, HexValue, Alive;
    LineRead(net, buf, c.digits, after, cap);
    ChunkStep(net, buf, body, cap);
    net', buf' := net, buf;
    var j := LastLook(net, buf, |SizeLine(c)|, cap);
    if j < |c.digits| {
      var h := ReadHeader(net, buf, cap);
      CutDigits(c.digits[..j], c.digits[j..]);
      assert c.digits[..j] + c.digits[j..] == c.digits;
      net', buf' := TakesSize(h.net, h.buf, body, h.size, after, cap);
    }
  }

  /** One character in the first read, everything else in the second. */
  function OneThenAll(wire: string): Net {
    Net(wire, [1] + seq(|wire|, i => |wire| + 1))
  }

  lemma OneThenAllLooks(line: string, after: string, cap: nat)
    requires |line| > 1 && |line + after| <= cap
    ensures Alive(OneThenAll(line + after)) && LastLook(OneThenAll(line + after), "", |line|, cap) == 1
  {
    var net := OneThenAll(line + after);
    assert FirstLook(net, "", cap) == net.wire[..1];
    var net' := AfterLook(net, "", cap);
    assert net'.wire == net.wire[1..] && net'.plan == seq(|net.wire|, i => |net.wire| + 1);
    assert FirstLook(net', "", cap) == net'.wire;
    assert LastLook(net', "", |line| - 1, cap) == 0;
  }

  /** Sixteen bytes behind the size line "10", split behind its first digit: the line loses the
      digit that counts, and the whole body is empty. */
  lemma TenIsZero(data: string, cap: nat)
    requires |data| == 16 && cap >= 27
    ensures var cs, net := [Chunk("10", data), Chunk("0", "")], OneThenAll(Encode([Chunk("10", data), Chunk("0", "")]));
      && ValidChunks(cs) && Alive(net) && !LosesZeros(net, "", cs[0], cap)
      && Data(cs) == data && ReadChunks(net, "", "", cap) == Body("")
  {
    var c, cs := Chunk("10", data), [Chunk("10", data), Chunk("0", "")];
    var after := data + "\r\n" + "0\r\n\r\n";
    TenDigits();
    TwoChunks(data);
    hide ReadChunks, Encode, HexValue, OneThenAll, LastLook, Alive, ValidChunks, Data, LosesZeros;
    OneThenAllLooks(SizeLine(c), after, cap);
    var net := OneThenAll(SizeLine(c) + after);
    assert "" + net.wire == SizeLine(c) + after by { WireIs(SizeLine(c) + after); }
    var net', buf' := LineDecides(net, "", "", c, after, cap);
  }

  lemma WireIs(wire: string)
    ensures "" + OneThenAll(wire).wire == wire
  {
  }

  lemma TenDigits()
    ensures AllHex("10") && HexValue("10") == 16 && "10"[1..] == "0" && AllHex("0") && HexValue("0") == 0
  {
    assert "10"[..1] == "1" && "1"[..0] == "" && "0"[..0] == "";
    assert HexValue("") == 0 && HexValue("1") == 1;
  }

  lemma TwoChunks(data: string)
    requires |data| == 16
    ensures var cs := [Chunk("10", data), Chunk("0", "")];
      && ValidChunks(cs) && Data(cs) == data
      && Encode(cs) == SizeLine(cs[0]) + (data + "\r\n" + "0\r\n\r\n")
  {
    var cs, last := [Chunk("10", data), Chunk("0", "")], [Chunk("0", "")];
    TenDigits();
    hide HexValue, AllHex;
    assert cs[1..] == last && last[1..] == [];
    assert ValidChunk(cs[0]) && ValidChunk(last[0]) && ValidChunks(last);
    assert Data(last) == "" && data + "" == data;
    LastChunk();
  }

  lemma LastChunk()
    ensures Encode([Chunk("0", "")]) == "0\r\n\r\n"
  {
    var c := Chunk("0", "");
    assert [c][1..] == [] && Encode([]) == "";
    assert SizeLine(c) == "0\r\n";
    assert "" + "\r\n" + "" == "\r\n" && "0\r\n" + "\r\n" == "0\r\n\r\n";
  }

  // ---------------------------------------------------------------- a body of known length

  /** What is in the buffer, then reads for what is missing. */
  function ReadLength(net: Net, buf: string, length: nat): Option<string> {
    if length <= |buf| then Some(buf[..length])
    else
      match ReadRest(net, length - |buf|, length)
      case None => None
      case Some(r) => Some(buf + r.0)
  }

  lemma LengthArrives(net: Net, buf: string, length: nat)
    requires Alive(net) && length <= |buf| + |net.wire|
    ensures ReadLength(net, buf, length) == Some((buf + net.wire)[..length])
  {
    if length > |buf| {
      RestArrives(net, length - |buf|, length);
      assert (buf + net.wire)[..length] == buf + net.wire[..length - |buf|];
    } else {
      assert (buf + net.wire)[..length] == buf[..length];
    }
  }

  // ---------------------------------------------------------------- the connection

  class HttpConnection {
    var wire: string
    var plan: seq<nat>

    ghost function View(): Net
      reads this
    {
      Net(wire, plan)
    }

    constructor (wire: string, plan: seq<nat>)
      ensures View() == Net(wire, plan)
    {
      this.wire, this.plan := wire, plan;
    }

    /** Socket read: at most `cap` characters to the buffer from `at` on. */
    method Read(data: array<char>, at: nat, cap: nat) returns (rt: nat)
      requires at + cap <= data.Length
      modifies this, data
      ensures Fails(old(View())) ==> rt == 0 && View() == old(View()) && data[..] == old(data[..])
      ensures !Fails(old(View())) ==>
        && rt == Amount(old(View()), cap) && View() == AfterRead(old(View()), cap)
        && data[..] == old(data[..at]) + old(wire)[..rt] + old(data[at + rt..])
    {
      if wire == "" || plan == [] || plan[0] == 0 {
        return 0;
      }
      rt := Min(cap, Min(|wire|, plan[0]));
      forall i | 0 <= i < rt {
        data[at + i] := wire[i];
      }
      wire := wire[rt..];
      plan := plan[1..];
    }

    /** memmove to the start of the buffer. */
    method Drop(data: array<char>, len: nat, used: nat)
      requires used <= len <= data.Length
      modifies data
      ensures data[..len - used] == old(data[used..len])
    {
      forall i | 0 <= i < len - used {
        data[i] := data[used + i];
      }
    }

    /** The inner loop: `len` characters of the buffer are in use. */
    method ReceiveHeader(data: array<char>, offset: nat) returns (h: Option<int>, len: nat, ghost why: Outcome)
      requires 1 < data.Length && offset < data.Length
      modifies this, data
      ensures len < data.Length
      ensures match ReadHeader(old(View()), old(data[..offset]), data.Length - 1)
        case Header(size, buf, net) => h == Some(size) && data[..len] == buf && View() == net
        case Stop(w) => h == None && why == w
    {
      hide Execute, ReadHeader, ParseHeader, LookAgain, AfterRead, Amount, Fails;
      var cap := data.Length - 1;
      ghost var all := ReadHeader(View(), data[..offset], cap);
      HeaderStart(View(), data[..offset], cap);
      len := offset;
      why := Closed;
      var begin := true;
      while true
        invariant len < data.Length && (!begin ==> len == 0)
        invariant all == if len == 0 then LookAgain(View(), cap) else ParseHeader(View(), data[..len], cap)
        decreases |plan|, begin
      {
        if !begin || len == 0 {
          ghost var net := View();
          var rt := Read(data, len, cap - len);
          LookedAgain(net, cap);
          if rt == 0 {
            return None, 0, Closed;
          }
          len := len + rt;
          assert data[..len] == net.wire[..rt];
        }
        data[len] := '\0';
        ghost var buf := data[..len];
        assert all == ParseHeader(View(), buf, cap);
        Parsed(View(), buf, cap);
        var line := Execute(data[..len]);
        match line {
          case Size(used, value) =>
            Drop(data, len, used);
            len := len - used;
            assert data[..len] == buf[used..];
            return Some(value), len, Closed;
          case Partial =>
            len := 0;
            begin := false;
          case Malformed =>
            return None, 0, Refused;
          case Outside =>
            return None, 0, NotCovered;
        }
      }
    }

    /** The rest of the data and its line end; the buffer is overwritten from its start. */
    method ReceiveRest(data: array<char>, left: nat, body: string) returns (ok: bool, body': string)
      requires 1 < data.Length
      modifies this, data
      ensures match ReadRest(old(View()), left, data.Length - 1)
        case None => !ok
        case Some(r) => ok && body' == body + r.0 && View() == r.1
    {
      hide Fails, Amount, AfterRead, ReadRest, Behind, Min;
      var cap := data.Length - 1;
      var left' := left;
      ok, body' := true, body;
      ghost var done := "";
      BehindNothing(ReadRest(View(), left, cap));
      while left' > 0
        invariant body' == body + done && 0 <= left'
        invariant ReadRest(old(View()), left, cap) == Behind(done, ReadRest(View(), left', cap))
        decreases |plan|
      {
        ghost var net := View();
        var rt := Read(data, 0, Min(left', cap));
        RestStep(net, left', cap);
        if rt == 0 {
          return false, body';
        }
        assert data[..rt] == net.wire[..rt];
        BehindBehind(done, net.wire[..rt], ReadRest(View(), left' - rt, cap));
        assert body + done + net.wire[..rt] == body + (done + net.wire[..rt]);
        body' := body' + data[..rt];
        done := done + net.wire[..rt];
        left' := left' - rt;
      }
      BehindEnd(done, View(), cap);
    }

    /** The chunked part of recvResponse, with `offset` characters in the buffer. */
    method RecvChunks(data: array<char>, offset: nat) returns (response: Option<string>, ghost why: Outcome)
      requires 1 < data.Length && offset < data.Length
      modifies this, data
      ensures why == ReadChunks(old(View()), old(data[..offset]), "", data.Length - 1)
      ensures response == if why.Body? then Some(why.body) else None
    {
      hide ReadHeader, ReadRest, ReadChunks;
      var cap := data.Length - 1;
      var len, body := offset, "";
      ghost var all := ReadChunks(View(), data[..len], "", cap);
      while true
        invariant len < data.Length && all == ReadChunks(View(), data[..len], body, cap)
        decreases len + |wire|
      {
        ghost var net, buf := View(), data[..len];
        ChunkStep(net, buf, body, cap);
        var h, left, stop := ReceiveHeader(data, len);
        len := left;
        if h == None {
          return None, stop;
        }
        var size := h.value;
        ghost var buf' := data[..len];
        if size > INT32_MAX - 2 {
          return None, Faulted;
        }
        if size + 2 <= len {
          assert data[..size] == buf'[..size];
          body := body + data[..size];
          Drop(data, len, size + 2);
          len := len - (size + 2);
          assert data[..len] == buf'[size + 2..];
        } else {
          body := body + data[..len];
          ghost var net' := View();
          var ok, more := ReceiveRest(data, size - len + 2, body);
          if !ok {
            return None, Closed;
          }
          body := more[..|more| - 2];
          len := 0;
          assert data[..len] == "";
        }
        if size == 0 {
          return Some(body), Body(body);
        }
      }
    }

    /** The part of recvResponse for a body of known length, with readFixSize in it. */
    method RecvLength(data: array<char>, offset: nat, length: nat) returns (response: Option<string>)
      requires offset <= data.Length
      modifies this
      ensures response == ReadLength(old(View()), old(data[..offset]), length)
    {
      hide Fails, Amount, AfterRead, ReadRest, Behind, Min;
      var body := new char[length];
      var len := if length >= offset then offset else length;
      forall i | 0 <= i < len {
        body[i] := data[i];
      }
      assert body[..len] == data[..len] == data[..offset][..len];
      if length <= offset {
        assert body[..] == old(data[..offset])[..length];
        return Some(body[..]);
      }
      var left, at := length - offset, len;
      ghost var done := "";
      BehindNothing(ReadRest(View(), left, length));
      assert body[..at] == data[..offset] + done;
      while left > 0
        invariant 0 <= left && at + left == length
        invariant body[..at] == old(data[..offset]) + done
        invariant ReadRest(old(View()), length - offset, length) == Behind(done, ReadRest(View(), left, length))
        decreases |plan|
      {
        ghost var net, was := View(), body[..at];
        var rt := Read(body, at, left);
        RestStep(net, left, length);
        if rt == 0 {
          return None;
        }
        BehindBehind(done, net.wire[..rt], ReadRest(View(), left - rt, length));
        assert body[..at + rt] == was + net.wire[..rt];
        assert old(data[..offset]) + done + net.wire[..rt] == old(data[..offset]) + (done + net.wire[..rt]);
        done := done + net.wire[..rt];
        at := at + rt;
        left := left - rt;
      }
      BehindEnd(done, View(), length);
      assert body[..] == body[..at];
      response := Some(body[..]);
    }
  }

  function Behind(done: string, r: Option<(string, Net)>): Option<(string, Net)> {
    if r.Some? then Some((done + r.value.0, r.value.1)) else None
  }

  lemma RestStep(net: Net, left: nat, cap: nat)
    requires cap > 0 && left > 0
    ensures Fails(net) ==> ReadRest(net, left, cap) == None && forall done :: Behind(done, None) == None
    ensures !Fails(net) ==>
      var n := Amount(net, Min(left, cap));
      && 0 < n <= left && n <= |net.wire| && |AfterRead(net, Min(left, cap)).plan| < |net.plan|
      && ReadRest(net, left, cap) == Behind(net.wire[..n], ReadRest(AfterRead(net, Min(left, cap)), left - n, cap))
  {
  }

  lemma BehindBehind(a: string, b: string, r: Option<(string, Net)>)
    ensures Behind(a, Behind(b, r)) == Behind(a + b, r)
  {
    if r.Some? {
      assert a + (b + r.value.0) == a + b + r.value.0;
    }
  }

  lemma BehindNothing(r: Option<(string, Net)>)
    ensures Behind("", r) == r
  {
    if r.Some? {
      assert "" + r.value.0 == r.value.0;
    }
  }

  lemma BehindEnd(done: string, net: Net, cap: nat)
    requires cap > 0
    ensures Behind(done, ReadRest(net, 0, cap)) == Some((done, net))
  {
    assert done + "" == done;
  }

  lemma ChunkStep(net: Net, buf: string, body: string, cap: nat)
    requires cap > 0
    ensures var h := ReadHeader(net, buf, cap);
      ReadChunks(net, buf, body, cap) == if h.Stop? then h.why else TakeChunk(h.net, h.buf, body, h.size, cap)
  {
    hide ReadHeader, TakeChunk;
  }
}
