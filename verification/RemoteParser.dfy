/** The parser of `<local-host>:<local-port>:<remote-host>:<remote-port>/<protocol>` remote
    specs, the printer of their canonical long form, and the laws that connect the two. */
module RemoteParser {
  import opened Basics
  import opened IpText
  import opened Remote

  datatype Part = LocalHost | LocalPort | RemotePort

  datatype ParseError =
    | MissingAfterReverse
    | InvalidProtocol
    | UnterminatedBracket
    | MissingColonAfterBracket
    | TrailingColonAfterBracket
    | TrailingColon
    | StdioReversed
    | StdioWithSocks
    | StdioMissingRemote
    | StdioArity
    | MissingParts
    | TooManyParts
    | Invalid(part: Part)

  const SOCKS := "socks"
  const STDIO := "stdio"
  const ANY_V4_TEXT := "0.0.0.0"
  const LOOPBACK_TEXT := "127.0.0.1"
  const ANY_V4 := V4([0, 0, 0, 0])
  const LOOPBACK := V4([127, 0, 0, 1])
  const SOCKS_DEFAULT_PORT: u16 := 1080

  // ---------------------------------------------------------------------------
  // Prefix and suffix
  // ---------------------------------------------------------------------------

  function ParseDirection(s: string): Result<(Direction, string), ParseError> {
    if |s| >= 2 && s[0] == 'R' && s[1] == ':' then
      if |s| == 2 then Err(MissingAfterReverse) else Ok((Reverse, s[2..]))
    else if s == "R" then Err(MissingAfterReverse)
    else Ok((Forward, s))
  }

  function ParseProtocol(s: string): Result<(Option<Protocol>, string), ParseError> {
    match LastIndexOf(s, '/')
    case None => Ok((None, s))
    case Some(i) =>
      if s[i + 1..] == "tcp" then Ok((Some(Tcp), s[..i]))
      else if s[i + 1..] == "udp" then Ok((Some(Udp), s[..i]))
      else Err(InvalidProtocol)
  }

  // ---------------------------------------------------------------------------
  // Tokens
  // ---------------------------------------------------------------------------

  function Prepend(ts: seq<string>, r: Result<seq<string>, ParseError>)
    : Result<seq<string>, ParseError>
  {
    match r
    case Ok(rest) => Ok(ts + rest)
    case Err(e) => Err(e)
  }

  // The token grammar, stated without reference to the tokenizer.

  predicate IsBracketed(t: string) {
    |t| >= 2 && t[0] == '[' && Last(t) == ']' && ']' !in t[1..|t| - 1]
  }

  predicate IsBare(t: string) {
    ':' !in t && (t != "" ==> t[0] != '[')
  }

  predicate IsToken(t: string) {
    IsBracketed(t) || IsBare(t)
  }

  /** The token at position `i`: where it ends and where the next one starts. */
  function NextToken(s: string, i: nat): (r: Result<(nat, nat), ParseError>)
    requires i < |s|
    ensures r.Ok? ==> i <= r.value.0 <= r.value.1 <= |s| && i < r.value.1
  {
    if s[i] == '[' then
      match IndexOf(s, ']', i + 1)
      case None => Err(UnterminatedBracket)
      case Some(close) =>
        if close + 1 == |s| then Ok((close + 1, close + 1))
        else if s[close + 1] != ':' then Err(MissingColonAfterBracket)
        else if close + 2 == |s| then Err(TrailingColonAfterBracket)
        else Ok((close + 1, close + 2))
    else
      match IndexOf(s, ':', i)
      case None => Ok((|s|, |s|))
      case Some(end) =>
        if end + 1 == |s| then Err(TrailingColon) else Ok((end, end + 1))
  }

  /** It is a token of the grammar, and a single colon separates it from the next one. */
  lemma NextTokenSpec(s: string, i: nat)
    requires i < |s| && NextToken(s, i).Ok?
    ensures var (end, next) := NextToken(s, i).value;
      && IsToken(s[i..end])
      && (if end == |s| then next == end else s[end] == ':' && next == end + 1 < |s|)
  {
    var end := NextToken(s, i).value.0;
    var t := s[i..end];
    if s[i] == '[' {
      IndexOfSpec(s, ']', i + 1);
      SliceOfSlice(s, i, end, 1, |t| - 1);
    } else {
      IndexOfSpec(s, ':', i);
      assert end == |s| ==> t == s[i..];
    }
  }

  /** What the tokenizer computes from position `i` on. */
  function SplitFrom(s: string, i: nat): Result<seq<string>, ParseError>
    requires i <= |s|
    decreases |s| - i
  {
    if i == |s| then Ok([])
    else
      match NextToken(s, i)
      case Err(e) => Err(e)
      case Ok((end, next)) => Prepend([s[i..end]], SplitFrom(s, next))
  }

  function Split(s: string): Result<seq<string>, ParseError> {
    SplitFrom(s, 0)
  }

  /** The tokenizer: one pass over an index that only moves forward. */
  method SplitAddrTokens(s: string) returns (r: Result<seq<string>, ParseError>)
    ensures r == Split(s)
  {
    var tokens: seq<string> := [];
    var i := 0;
    PrependNothing(Split(s));
    while i < |s|
      invariant 0 <= i <= |s|
      invariant Split(s) == Prepend(tokens, SplitFrom(s, i))
      decreases |s| - i
    {
      ghost var before, start := tokens, i;
      if s[i] == '[' {
        var close := IndexOf(s, ']', i + 1);
        if close.None? {
          return Err(UnterminatedBracket);
        }
        tokens := tokens + [s[i..close.value + 1]];
        i := close.value + 1;
        if i < |s| {
          if s[i] != ':' {
            return Err(MissingColonAfterBracket);
          }
          i := i + 1;
          if i == |s| {
            return Err(TrailingColonAfterBracket);
          }
        }
      } else {
        var colon := IndexOf(s, ':', i);
        var next := if colon.Some? then colon.value else |s|;
        tokens := tokens + [s[i..next]];
        i := next;
        if i < |s| {
          i := i + 1;
          if i == |s| {
            return Err(TrailingColon);
          }
        }
      }
      assert NextToken(s, start) == Ok((start + |Last(tokens)|, i));
      PrependTwice(before, [Last(tokens)], SplitFrom(s, i));
    }
    assert tokens + [] == tokens;
    r := Ok(tokens);
  }

  lemma PrependNothing(r: Result<seq<string>, ParseError>)
    ensures Prepend([], r) == r
  {
    if r.Ok? {
      assert [] + r.value == r.value;
    }
  }

  lemma PrependTwice(a: seq<string>, b: seq<string>, r: Result<seq<string>, ParseError>)
    ensures Prepend(a, Prepend(b, r)) == Prepend(a + b, r)
  {
    if r.Ok? {
      assert a + (b + r.value) == a + b + r.value;
    }
  }

  /** `s` stands at position `n` of `u`, up to its end. */
  predicate EndsWith(u: string, n: nat, s: string) {
    |u| == n + |s| && forall k | 0 <= k < |s| :: u[n + k] == s[k]
  }

  function Shifted(r: Option<nat>, n: nat): Option<nat> {
    match r
    case None => None
    case Some(k) => Some(n + k)
  }

  lemma {:induction false} IndexOfShift(u: string, n: nat, s: string, c: char, i: nat)
    requires EndsWith(u, n, s) && i <= |s|
    ensures IndexOf(u, c, n + i) == Shifted(IndexOf(s, c, i), n)
    decreases |s| - i
  {
    if i < |s| {
      assert u[n + i] == s[i];
      if s[i] != c {
        IndexOfShift(u, n, s, c, i + 1);
      }
    }
  }

  lemma NextTokenShift(u: string, n: nat, s: string, i: nat)
    requires EndsWith(u, n, s) && i < |s|
    ensures NextToken(u, n + i) ==
            match NextToken(s, i) {
              case Err(e) => Err(e)
              case Ok((end, next)) => Ok((n + end, n + next))
            }
  {
    assert u[n + i] == s[i];
    if s[i] == '[' {
      IndexOfShift(u, n, s, ']', i + 1);
    } else {
      IndexOfShift(u, n, s, ':', i);
    }
  }

  lemma SliceShift(u: string, n: nat, s: string, i: nat, j: nat)
    requires EndsWith(u, n, s) && i <= j <= |s|
    ensures u[n + i..n + j] == s[i..j]
  {
    forall k | 0 <= k < j - i ensures u[n + i..n + j][k] == s[i..j][k] {
      assert u[n + (i + k)] == s[i + k];
    }
  }

  /** Two positions with the same token in front of the same rest split the same way. */
  lemma SameStep(u: string, j: nat, uEnd: nat, uNext: nat, s: string, i: nat, sEnd: nat, sNext: nat)
    requires j < |u| && NextToken(u, j) == Ok((uEnd, uNext))
    requires i < |s| && NextToken(s, i) == Ok((sEnd, sNext))
    requires u[j..uEnd] == s[i..sEnd] && SplitFrom(u, uNext) == SplitFrom(s, sNext)
    ensures SplitFrom(u, j) == SplitFrom(s, i)
  {
  }

  lemma {:induction false} SplitOfEnd(u: string, n: nat, s: string, i: nat)
    requires EndsWith(u, n, s) && i <= |s|
    ensures SplitFrom(u, n + i) == SplitFrom(s, i)
    decreases |s| - i
  {
    if i < |s| {
      NextTokenShift(u, n, s, i);
      if NextToken(s, i).Ok? {
        var (end, next) := NextToken(s, i).value;
        SplitOfEnd(u, n, s, next);
        SliceShift(u, n, s, i, end);
        SameStep(u, n + i, n + end, n + next, s, i, end, next);
      }
    }
  }

  /** What was read already does not matter. */
  lemma SplitShift(a: string, s: string, i: nat)
    requires i <= |s|
    ensures SplitFrom(a + s, |a| + i) == SplitFrom(s, i)
  {
    SplitOfEnd(a + s, |a|, s, i);
  }

  /** Lists of tokens that a spec can be made of: only the last one has to be non-empty. */
  predicate IsTokenList(ts: seq<string>) {
    (forall t | t in ts :: IsToken(t)) && (ts != [] ==> Last(ts) != "")
  }

  lemma TokenListTail(ts: seq<string>)
    requires IsTokenList(ts) && ts != []
    ensures IsTokenList(ts[1..]) && IsToken(ts[0])
    ensures |ts| > 1 ==> Join(ts[1..], ':') != ""
  {
    if |ts| > 1 {
      assert Last(ts[1..]) == Last(ts);
    }
    JoinNonEmpty(ts[1..]);
    forall t | t in ts[1..] ensures IsToken(t) {
      assert t in ts;
    }
  }

  lemma JoinNonEmpty(ts: seq<string>)
    requires ts != [] ==> Last(ts) != ""
    ensures Join(ts, ':') == "" <==> ts == []
  {
    if |ts| == 1 {
      assert Last(ts) == ts[0];
    }
  }

  lemma NextTokenIs(t: string, tail: string)
    requires IsToken(t) && t + tail != ""
    requires tail == "" || (|tail| > 1 && tail[0] == ':')
    ensures NextToken(t + tail, 0) == Ok((|t|, if tail == "" then |t| else |t| + 1))
  {
    var s := t + tail;
    if IsBracketed(t) {
      assert s[1..|t| - 1] == t[1..|t| - 1];
      IndexOfFirst(s, ']', 1, |t| - 1);
    } else if tail == "" {
      IndexOfAbsent(s, ':');
    } else {
      assert s[0..|t|] == t;
      IndexOfFirst(s, ':', 0, |t|);
    }
  }

  lemma SplitOneToken(t: string)
    requires IsToken(t) && t != ""
    ensures Split(t) == Ok([t])
  {
    NextTokenIs(t, "");
    assert t + "" == t && t[0..|t|] == t && [t] + [] == [t];
    assert Split(t) == Prepend([t], SplitFrom(t, |t|));
  }

  lemma SplitFirstToken(t: string, rest: string)
    requires IsToken(t) && rest != ""
    ensures Split(t + [':'] + rest) == Prepend([t], Split(rest))
  {
    var s := t + [':'] + rest;
    assert s == t + ([':'] + rest) && s[0..|t|] == t;
    NextTokenIs(t, [':'] + rest);
    SplitShift(t + [':'], rest, 0);
  }

  /** Splitting a joined token list gives the list back. */
  lemma {:induction false} SplitOfJoin(ts: seq<string>)
    requires IsTokenList(ts)
    ensures Split(Join(ts, ':')) == Ok(ts)
  {
    if |ts| == 1 {
      assert IsToken(ts[0]);
      SplitOneToken(ts[0]);
      assert ts == [ts[0]];
    } else if ts != [] {
      TokenListTail(ts);
      SplitOfJoin(ts[1..]);
      SplitFirstToken(ts[0], Join(ts[1..], ':'));
      assert [ts[0]] + ts[1..] == ts;
    }
  }

  /** The tokenizer loses nothing: the tokens joined by `:` are the input from `i` on, and
      they are tokens of the grammar. */
  lemma {:induction false} JoinOfSplit(s: string, i: nat)
    requires i <= |s| && SplitFrom(s, i).Ok?
    ensures IsTokenList(SplitFrom(s, i).value) && Join(SplitFrom(s, i).value, ':') == s[i..]
    decreases |s| - i
  {
    if i < |s| {
      var (end, next) := NextToken(s, i).value;
      NextTokenSpec(s, i);
      JoinOfSplit(s, next);
      if end < |s| {
        JoinCons(s[i..end], SplitFrom(s, next).value);
        CutAtColon(s, i, end);
      } else {
        assert s[i..end] == s[i..];
      }
    }
  }

  lemma CutAtColon(s: string, i: nat, j: nat)
    requires i <= j < |s| && s[j] == ':'
    ensures s[i..] == s[i..j] + [':'] + s[j + 1..]
  {
  }

  lemma JoinCons(t: string, ts: seq<string>)
    requires IsToken(t) && IsTokenList(ts) && Join(ts, ':') != ""
    ensures IsTokenList([t] + ts)
    ensures Join([t] + ts, ':') == t + [':'] + Join(ts, ':')
  {
    assert ts != [];
    assert ([t] + ts)[1..] == ts;
    assert Last([t] + ts) == Last(ts);
  }

  /** The tokenizer succeeds exactly on the joined token lists, and the list is unique. */
  lemma SplitIffJoin(s: string, ts: seq<string>)
    ensures Split(s) == Ok(ts) <==> IsTokenList(ts) && Join(ts, ':') == s
  {
    if Split(s) == Ok(ts) {
      JoinOfSplit(s, 0);
      assert s[0..] == s;
    }
    if IsTokenList(ts) && Join(ts, ':') == s {
      SplitOfJoin(ts);
    }
  }

  // ---------------------------------------------------------------------------
  // Tokens to requests
  // ---------------------------------------------------------------------------

  function Unbracket(s: string): string {
    if |s| >= 2 && s[0] == '[' && Last(s) == ']' then s[1..|s| - 1] else s
  }

  function ParseIp(t: Text, s: string, what: Part): Result<IpAddr, ParseError> {
    match ParseIpText(t, Unbracket(s))
    case Some(ip) => Ok(ip)
    case None => Err(Invalid(what))
  }

  function ParsePort(s: string, what: Part): Result<u16, ParseError> {
    match ParseU16(s)
    case Some(p) => Ok(p)
    case None => Err(Invalid(what))
  }

  function HostPortKind(local: SocketAddr, remote: HostPort, protocol: Option<Protocol>)
    : RemoteKind
  {
    if protocol == Some(Udp) then UdpRemote(local, remote) else TcpRemote(local, remote)
  }

  function ParseOneToken(ts: seq<string>, protocol: Option<Protocol>): Result<RemoteKind, ParseError>
    requires |ts| == 1
  {
    if ts[0] == SOCKS then Ok(Socks5Remote(NewSocketAddr(LOOPBACK, SOCKS_DEFAULT_PORT)))
    else
      var port :- ParsePort(ts[0], RemotePort);
      Ok(HostPortKind(NewSocketAddr(ANY_V4, port), HostPort(ANY_V4_TEXT, port), protocol))
  }

  function ParseTwoTokens(ts: seq<string>, protocol: Option<Protocol>): Result<RemoteKind, ParseError>
    requires |ts| == 2
  {
    if ts[1] == SOCKS then
      var localPort :- ParsePort(ts[0], RemotePort);
      Ok(Socks5Remote(NewSocketAddr(LOOPBACK, localPort)))
    else
      var port :- ParsePort(ts[1], RemotePort);
      Ok(HostPortKind(NewSocketAddr(ANY_V4, port), HostPort(Unbracket(ts[0]), port), protocol))
  }

  function ParseThreeTokens(t: Text, ts: seq<string>, protocol: Option<Protocol>)
    : Result<RemoteKind, ParseError>
    requires |ts| == 3
  {
    if ts[2] == SOCKS then
      var localHost :- ParseIp(t, ts[0], LocalHost);
      var localPort :- ParsePort(ts[1], LocalPort);
      Ok(Socks5Remote(NewSocketAddr(localHost, localPort)))
    else
      var localPort :- ParsePort(ts[0], LocalPort);
      var port :- ParsePort(ts[2], RemotePort);
      Ok(HostPortKind(NewSocketAddr(ANY_V4, localPort), HostPort(Unbracket(ts[1]), port), protocol))
  }

  function ParseFourTokens(t: Text, ts: seq<string>, protocol: Option<Protocol>)
    : Result<RemoteKind, ParseError>
    requires |ts| == 4
  {
    var localHost :- ParseIp(t, ts[0], LocalHost);
    var localPort :- ParsePort(ts[1], LocalPort);
    var port :- ParsePort(ts[3], RemotePort);
    Ok(HostPortKind(NewSocketAddr(localHost, localPort), HostPort(Unbracket(ts[2]), port), protocol))
  }

  function TokensToKind(t: Text, ts: seq<string>, protocol: Option<Protocol>)
    : Result<RemoteKind, ParseError>
  {
    if |ts| == 0 then Err(MissingParts)
    else if |ts| == 1 then ParseOneToken(ts, protocol)
    else if |ts| == 2 then ParseTwoTokens(ts, protocol)
    else if |ts| == 3 then ParseThreeTokens(t, ts, protocol)
    else if |ts| == 4 then ParseFourTokens(t, ts, protocol)
    else Err(TooManyParts)
  }

  function TokensToStdioKind(ts: seq<string>, protocol: Option<Protocol>)
    : Result<RemoteKind, ParseError>
  {
    var local := NewSocketAddr(ANY_V4, 0);
    if SOCKS in ts then Err(StdioWithSocks)
    else if |ts| == 1 then
      var port :- ParsePort(ts[0], RemotePort);
      Ok(HostPortKind(local, HostPort(LOOPBACK_TEXT, port), protocol))
    else if |ts| == 2 then
      var port :- ParsePort(ts[1], RemotePort);
      Ok(HostPortKind(local, HostPort(Unbracket(ts[0]), port), protocol))
    else if |ts| == 0 then Err(StdioMissingRemote)
    else Err(StdioArity)
  }

  function TokensToRequest(t: Text, d: Direction, ts: seq<string>, protocol: Option<Protocol>)
    : Result<RemoteRequest, ParseError>
  {
    if ts != [] && ts[0] == STDIO then
      if d == Reverse then Err(StdioReversed)
      else
        var kind :- TokensToStdioKind(ts[1..], protocol);
        Ok(RemoteRequest(d, kind, true))
    else
      var kind :- TokensToKind(t, ts, protocol);
      Ok(RemoteRequest(d, kind, false))
  }

  /** `RemoteRequest::from_str` */
  function Parse(t: Text, input: string): Result<RemoteRequest, ParseError> {
    var (direction, afterDirection) :- ParseDirection(input);
    var (protocol, body) :- ParseProtocol(afterDirection);
    var tokens :- Split(body);
    TokensToRequest(t, direction, tokens, protocol)
  }

  // ---------------------------------------------------------------------------
  // The canonical long form
  // ---------------------------------------------------------------------------

  function ProtocolSuffix(p: Option<Protocol>): string {
    match p
    case None => ""
    case Some(Tcp) => "/tcp"
    case Some(Udp) => "/udp"
  }

  function Prefix(d: Direction): string {
    if d == Reverse then "R:" else ""
  }

  /** A spec written from its tokens. */
  function Spec(d: Direction, ts: seq<string>, p: Option<Protocol>): string {
    Prefix(d) + Join(ts, ':') + ProtocolSuffix(p)
  }

  /** The token lists that `Spec` writes without ambiguity: a leading `R` would read as the
      reverse marker, and without a suffix a `/` in a token would read as one. */
  predicate Unambiguous(d: Direction, ts: seq<string>, p: Option<Protocol>) {
    && ts != [] && IsTokenList(ts)
    && (d == Forward ==> ts[0] != "R")
    && (p.None? ==> '/' !in Join(ts, ':'))
  }

  /** Parsing a written spec reads back the direction, the protocol and every token. */
  lemma ParseOfSpec(t: Text, d: Direction, ts: seq<string>, p: Option<Protocol>)
    requires Unambiguous(d, ts, p)
    ensures Parse(t, Spec(d, ts, p)) == TokensToRequest(t, d, ts, p)
  {
    DirectionOfSpec(d, ts, p);
    ProtocolOfSpec(Join(ts, ':'), p);
    SplitOfJoin(ts);
  }

  lemma ProtocolOfSpec(body: string, p: Option<Protocol>)
    requires p.None? ==> '/' !in body
    ensures ParseProtocol(body + ProtocolSuffix(p)) == Ok((p, body))
  {
    var s := body + ProtocolSuffix(p);
    if p.Some? {
      var name := if p.value == Tcp then "tcp" else "udp";
      assert s == body + ['/'] + name;
      LastIndexOfSuffix(body, '/', name);
      assert s[..|body|] == body && s[|body| + 1..] == name;
    } else {
      assert s == body;
    }
  }

  lemma DirectionOfSpec(d: Direction, ts: seq<string>, p: Option<Protocol>)
    requires Unambiguous(d, ts, p)
    ensures ParseDirection(Spec(d, ts, p)) == Ok((d, Join(ts, ':') + ProtocolSuffix(p)))
  {
    var s := Join(ts, ':') + ProtocolSuffix(p);
    JoinNonEmpty(ts);
    if d == Reverse {
      assert Spec(d, ts, p) == "R:" + s;
      assert ("R:" + s)[2..] == s;
    } else {
      assert Spec(d, ts, p) == s;
      NotReversed(ts, ProtocolSuffix(p));
    }
  }

  lemma NotReversed(ts: seq<string>, suffix: string)
    requires ts != [] && IsTokenList(ts) && ts[0] != "R"
    ensures var s := Join(ts, ':') + suffix;
      s != "R" && !(|s| >= 2 && s[0] == 'R' && s[1] == ':')
  {
    var s, head := Join(ts, ':'), ts[0];
    JoinNonEmpty(ts);
    assert IsToken(head);
    assert head == "" ==> s[0] == ':';
    if s[0] == 'R' {
      assert s[0] == head[0];
      assert |head| == 1 ==> head == "R";
      assert s[1] == head[1] && head[1] in head;
    }
  }

  lemma {:induction false} LastIndexOfSuffix(a: string, c: char, b: string)
    requires c !in b
    ensures LastIndexOf(a + [c] + b, c) == Some(|a|)
    decreases |b|
  {
    var s := a + [c] + b;
    if b != "" {
      assert Last(s) == Last(b);
      assert s[..|s| - 1] == a + [c] + b[..|b| - 1];
      LastIndexOfSuffix(a, c, b[..|b| - 1]);
    }
  }

  function IpToken(t: Text, ip: IpAddr): string {
    if ip.V4? then PrintIp(t, ip) else "[" + PrintIp(t, ip) + "]"
  }

  lemma IpTokenParses(t: Text, ip: IpAddr)
    requires LawfulV6(t)
    ensures var s := IpToken(t, ip);
      && IsToken(s) && s != "" && s != "R" && s != STDIO && s != SOCKS && '/' !in s
      && forall what :: ParseIp(t, s, what) == Ok(ip)
  {
    var s := IpToken(t, ip);
    IpTextRoundTrip(t, ip);
    if ip.V4? {
      PrintV4Chars(ip.octets4);
      assert s[0] in s;
      assert IsBare(s);
    } else {
      var text := t.print6(ip.octets16);
      assert LooksLikeV6(text);
      assert s[1..|s| - 1] == text;
    }
  }

  lemma PortTokenParses(p: u16)
    ensures var s := Decimal(p);
      && IsToken(s) && s != "" && s != SOCKS && s != STDIO && '/' !in s
      && forall what :: ParsePort(s, what) == Ok(p)
  {
    var s := Decimal(p);
    ParseDecimal(p);
    assert s[0] in s;
  }

  /** The two ways to write a host: in brackets if it is free of `]`, or bare if it is free of
      `:` and does not start with `[`. */
  predicate HostWritable(host: string, bracketed: bool) {
    if bracketed then ']' !in host else IsBare(host)
  }

  function HostToken(host: string, bracketed: bool): string {
    if bracketed then "[" + host + "]" else host
  }

  lemma HostTokenParses(host: string, bracketed: bool)
    requires HostWritable(host, bracketed)
    ensures IsToken(HostToken(host, bracketed)) && Unbracket(HostToken(host, bracketed)) == host
  {
    if bracketed {
      assert ("[" + host + "]")[1..|host| + 1] == host;
    }
  }

  lemma NoSlash(ts: seq<string>)
    requires forall t | t in ts :: '/' !in t
    ensures '/' !in Join(ts, ':')
  {
    if '/' in Join(ts, ':') {
      JoinChars(ts, ':', '/');
      assert false;
    }
  }

  /** Parsing `<ip>:<port>:<host>:<port>/<protocol>` returns exactly that request. */
  lemma FourPartRoundTrip(
      t: Text, d: Direction, ip: IpAddr, localPort: u16, host: string, bracketed: bool,
      port: u16, p: Protocol)
    requires LawfulV6(t) && HostWritable(host, bracketed)
    ensures
      var ts := [IpToken(t, ip), Decimal(localPort), HostToken(host, bracketed), Decimal(port)];
      Parse(t, Spec(d, ts, Some(p))) ==
      Ok(RemoteRequest(
           d, HostPortKind(NewSocketAddr(ip, localPort), HostPort(host, port), Some(p)), false))
  {
    IpTokenParses(t, ip);
    PortTokenParses(localPort);
    PortTokenParses(port);
    HostTokenParses(host, bracketed);
    var ts := [IpToken(t, ip), Decimal(localPort), HostToken(host, bracketed), Decimal(port)];
    FourUnambiguous(d, ts, p);
    ParseOfSpec(t, d, ts, Some(p));
    FourPartTokens(t, d, ts, p, ip, localPort, port);
  }

  lemma FourUnambiguous(d: Direction, ts: seq<string>, p: Protocol)
    requires |ts| == 4 && (forall k | 0 <= k < 4 :: IsToken(ts[k])) && ts[0] != "R" && ts[3] != ""
    ensures Unambiguous(d, ts, Some(p))
  {
    assert Last(ts) == ts[3];
  }

  lemma FourPartTokens(
      t: Text, d: Direction, ts: seq<string>, p: Protocol, ip: IpAddr, localPort: u16, port: u16)
    requires |ts| == 4 && ts[0] != STDIO
    requires ParseIp(t, ts[0], LocalHost) == Ok(ip) && ParsePort(ts[1], LocalPort) == Ok(localPort)
    requires ParsePort(ts[3], RemotePort) == Ok(port)
    ensures TokensToRequest(t, d, ts, Some(p)) ==
            Ok(RemoteRequest(
                 d, HostPortKind(NewSocketAddr(ip, localPort), HostPort(Unbracket(ts[2]), port), Some(p)), false))
  {
  }

  /** Parsing `<ip>:<port>:socks`, with or without a protocol suffix, gives that listener. */
  lemma SocksRoundTrip(t: Text, d: Direction, ip: IpAddr, localPort: u16, p: Option<Protocol>)
    requires LawfulV6(t)
    ensures Parse(t, Spec(d, [IpToken(t, ip), Decimal(localPort), SOCKS], p)) ==
            Ok(RemoteRequest(d, Socks5Remote(NewSocketAddr(ip, localPort)), false))
  {
    IpTokenParses(t, ip);
    PortTokenParses(localPort);
    SocksUnambiguous(d, IpToken(t, ip), Decimal(localPort), p);
    var ts := [IpToken(t, ip), Decimal(localPort), SOCKS];
    ParseOfSpec(t, d, ts, p);
    SocksTokens(t, d, ts, p, ip, localPort);
  }

  lemma SocksUnambiguous(d: Direction, host: string, port: string, p: Option<Protocol>)
    requires IsToken(host) && IsToken(port) && '/' !in host && '/' !in port && host != "R"
    ensures Unambiguous(d, [host, port, SOCKS], p)
  {
    var ts := [host, port, SOCKS];
    assert IsBare(SOCKS);
    assert Last(ts) == SOCKS;
    NoSlash(ts);
  }

  lemma SocksTokens(
      t: Text, d: Direction, ts: seq<string>, p: Option<Protocol>, ip: IpAddr, localPort: u16)
    requires |ts| == 3 && ts[0] != STDIO && ts[2] == SOCKS
    requires ParseIp(t, ts[0], LocalHost) == Ok(ip) && ParsePort(ts[1], LocalPort) == Ok(localPort)
    ensures TokensToRequest(t, d, ts, p) ==
            Ok(RemoteRequest(d, Socks5Remote(NewSocketAddr(ip, localPort)), false))
  {
  }

  /** Parsing `stdio:<host>:<port>/<protocol>` gives that request; the keyword `socks` can
      only be a stdio host in brackets. */
  lemma StdioRoundTrip(t: Text, host: string, bracketed: bool, port: u16, p: Protocol)
    requires HostWritable(host, bracketed) && HostToken(host, bracketed) != SOCKS
    ensures Parse(t, Spec(Forward, [STDIO, HostToken(host, bracketed), Decimal(port)], Some(p))) ==
            Ok(RemoteRequest(
                 Forward, HostPortKind(NewSocketAddr(ANY_V4, 0), HostPort(host, port), Some(p)), true))
  {
    PortTokenParses(port);
    HostTokenParses(host, bracketed);
    var ts := [STDIO, HostToken(host, bracketed), Decimal(port)];
    StdioUnambiguous(ts, p);
    ParseOfSpec(t, Forward, ts, Some(p));
    StdioTokens(t, ts, p, port);
  }

  lemma StdioUnambiguous(ts: seq<string>, p: Protocol)
    requires |ts| == 3 && ts[0] == STDIO && IsToken(ts[1]) && IsToken(ts[2]) && ts[2] != ""
    ensures Unambiguous(Forward, ts, Some(p))
  {
    assert Last(ts) == ts[2] && IsBare(STDIO);
  }

  lemma StdioTokens(t: Text, ts: seq<string>, p: Protocol, port: u16)
    requires |ts| == 3 && ts[0] == STDIO && ts[1] != SOCKS && ts[2] != SOCKS
    requires ParsePort(ts[2], RemotePort) == Ok(port)
    ensures TokensToRequest(t, Forward, ts, Some(p)) ==
            Ok(RemoteRequest(
                 Forward,
                 HostPortKind(NewSocketAddr(ANY_V4, 0), HostPort(Unbracket(ts[1]), port), Some(p)),
                 true))
  {
    assert ts[1..] == [ts[1], ts[2]];
  }

  // ---------------------------------------------------------------------------
  // What every successful parse satisfies
  // ---------------------------------------------------------------------------

  /** Brackets are used unless the host holds a `]`. */
  predicate BracketHost(host: string) {
    ']' !in host
  }

  function KindProtocol(k: RemoteKind): Protocol {
    if k.UdpRemote? then Udp else Tcp
  }

  /** The tokens of the canonical long form of a request. */
  function LongTokens(t: Text, r: RemoteRequest): seq<string> {
    var local := [IpToken(t, r.kind.local.Ip()), Decimal(r.kind.local.port)];
    match r.kind
    case Socks5Remote(_) => [local[0], local[1], SOCKS]
    case _ =>
      var host := HostToken(r.kind.remote.host, BracketHost(r.kind.remote.host));
      var port := Decimal(r.kind.remote.port);
      if r.stdio then [STDIO, host, port] else [local[0], local[1], host, port]
  }

  /** The canonical long form of a request. */
  function Print(t: Text, r: RemoteRequest): string {
    Spec(r.direction, LongTokens(t, r),
         if r.kind.Socks5Remote? then None else Some(KindProtocol(r.kind)))
  }

  /** Stdio declarations are forward, static, and hold the placeholder listener. */
  predicate StdioWellFormed(r: RemoteRequest) {
    r.stdio ==> r.direction == Forward && !r.kind.Socks5Remote?
                && r.kind.local == NewSocketAddr(ANY_V4, 0)
  }

  predicate KindCanonical(k: RemoteKind) {
    && k.local == NewSocketAddr(k.local.Ip(), k.local.port)
    && (!k.Socks5Remote? ==> HostWritable(k.remote.host, BracketHost(k.remote.host)))
  }

  predicate Canonical(r: RemoteRequest) {
    StdioWellFormed(r) && KindCanonical(r.kind)
  }

  lemma TokenHostWritable(tok: string)
    requires IsToken(tok)
    ensures HostWritable(Unbracket(tok), BracketHost(Unbracket(tok)))
  {
  }

  lemma OneOrTwoCanonical(ts: seq<string>, p: Option<Protocol>)
    requires forall tok | tok in ts :: IsToken(tok)
    ensures |ts| == 1 && ParseOneToken(ts, p).Ok? ==> KindCanonical(ParseOneToken(ts, p).value)
    ensures |ts| == 2 && ParseTwoTokens(ts, p).Ok? ==> KindCanonical(ParseTwoTokens(ts, p).value)
  {
    if |ts| == 2 {
      TokenHostWritable(ts[0]);
    }
  }

  lemma ThreeCanonical(t: Text, ts: seq<string>, p: Option<Protocol>)
    requires |ts| == 3 && (forall tok | tok in ts :: IsToken(tok))
    requires ParseThreeTokens(t, ts, p).Ok?
    ensures KindCanonical(ParseThreeTokens(t, ts, p).value)
  {
    TokenHostWritable(ts[1]);
  }

  lemma FourCanonical(t: Text, ts: seq<string>, p: Option<Protocol>)
    requires |ts| == 4 && (forall tok | tok in ts :: IsToken(tok))
    requires ParseFourTokens(t, ts, p).Ok?
    ensures KindCanonical(ParseFourTokens(t, ts, p).value)
  {
    TokenHostWritable(ts[2]);
  }

  lemma StdioCanonical(ts: seq<string>, p: Option<Protocol>)
    requires forall tok | tok in ts :: IsToken(tok)
    requires TokensToStdioKind(ts, p).Ok?
    ensures var k := TokensToStdioKind(ts, p).value;
      KindCanonical(k) && !k.Socks5Remote? && k.local == NewSocketAddr(ANY_V4, 0)
  {
    if |ts| == 2 {
      TokenHostWritable(ts[0]);
    }
  }

  lemma TokensAreCanonical(t: Text, d: Direction, ts: seq<string>, p: Option<Protocol>)
    requires IsTokenList(ts) && TokensToRequest(t, d, ts, p).Ok?
    ensures Canonical(TokensToRequest(t, d, ts, p).value)
  {
    if ts[0] == STDIO {
      StdioCanonical(ts[1..], p);
    } else if |ts| == 3 {
      ThreeCanonical(t, ts, p);
    } else if |ts| == 4 {
      FourCanonical(t, ts, p);
    } else {
      OneOrTwoCanonical(ts, p);
    }
  }

  /** Every request that the parser returns is well-formed; in particular a stdio request is
      forward and not SOCKS. */
  lemma ParsedIsCanonical(t: Text, s: string)
    requires Parse(t, s).Ok?
    ensures Canonical(Parse(t, s).value)
  {
    var d := ParseDirection(s).value;
    var p := ParseProtocol(d.1).value;
    JoinOfSplit(p.1, 0);
    TokensAreCanonical(t, d.0, Split(p.1).value, p.0);
  }

  lemma HostTokenIsNotSocks(host: string)
    ensures HostToken(host, BracketHost(host)) != SOCKS
  {
    if BracketHost(host) {
      assert HostToken(host, true)[0] == '[';
    } else {
      assert ']' in host && ']' !in SOCKS;
    }
  }

  /** Parsing the long form of a well-formed request returns that request. */
  lemma ParseOfPrint(t: Text, r: RemoteRequest)
    requires LawfulV6(t) && Canonical(r)
    ensures Parse(t, Print(t, r)) == Ok(r)
  {
    var k := r.kind;
    if k.Socks5Remote? {
      SocksRoundTrip(t, r.direction, k.local.Ip(), k.local.port, None);
    } else {
      var host, b := k.remote.host, BracketHost(k.remote.host);
      if r.stdio {
        HostTokenIsNotSocks(host);
        StdioRoundTrip(t, host, b, k.remote.port, KindProtocol(k));
      } else {
        FourPartRoundTrip(
          t, r.direction, k.local.Ip(), k.local.port, host, b, k.remote.port, KindProtocol(k));
      }
    }
  }

  /** Whatever was typed, its long form means the same. */
  lemma LongFormMeansTheSame(t: Text, s: string)
    requires LawfulV6(t) && Parse(t, s).Ok?
    ensures Parse(t, Print(t, Parse(t, s).value)) == Parse(t, s)
  {
    ParsedIsCanonical(t, s);
    ParseOfPrint(t, Parse(t, s).value);
  }

  // ---------------------------------------------------------------------------
  // Shorthands
  // ---------------------------------------------------------------------------

  /** The documented defaults, filled in. */
  function Expand(ts: seq<string>): seq<string>
    requires 1 <= |ts| <= 4
  {
    if |ts| == 1 then
      if ts[0] == SOCKS then [LOOPBACK_TEXT, "1080", SOCKS]
      else [ANY_V4_TEXT, ts[0], ANY_V4_TEXT, ts[0]]
    else if |ts| == 2 then
      if ts[1] == SOCKS then [LOOPBACK_TEXT, ts[0], SOCKS]
      else [ANY_V4_TEXT, ts[1], ts[0], ts[1]]
    else if |ts| == 3 && ts[2] != SOCKS then [ANY_V4_TEXT, ts[0], ts[1], ts[2]]
    else ts
  }

  /** Both fail, or both succeed with the same request. */
  predicate SameOutcome(a: Result<RemoteRequest, ParseError>, b: Result<RemoteRequest, ParseError>) {
    if a.Ok? then a == b else b.Err?
  }

  lemma SmallDecimals()
    ensures Decimal(0) == "0" && Decimal(1) == "1" && Decimal(127) == "127"
    ensures Decimal(1080) == "1080"
  {
    assert Decimal(12) == Decimal(1) + [Digit(2)];
    assert Decimal(127) == Decimal(12) + [Digit(7)];
    assert Decimal(10) == Decimal(1) + [Digit(0)];
    assert Decimal(108) == Decimal(10) + [Digit(8)];
    assert Decimal(1080) == Decimal(108) + [Digit(0)];
  }

  lemma DefaultHosts()
    ensures PrintV4([0, 0, 0, 0]) == ANY_V4_TEXT && PrintV4([127, 0, 0, 1]) == LOOPBACK_TEXT
  {
    SmallDecimals();
    PrintV4Is([0, 0, 0, 0]);
    PrintV4Is([127, 0, 0, 1]);
  }

  lemma V4TokenParses(t: Text, o: Octets4, what: Part)
    ensures ParseIp(t, PrintV4(o), what) == Ok(V4(o))
    ensures IsToken(PrintV4(o)) && Unbracket(PrintV4(o)) == PrintV4(o)
    ensures PrintV4(o) != STDIO && PrintV4(o) != "R"
  {
    PrintV4Chars(o);
    V4TextIsCanonical(PrintV4(o), o);
    assert PrintV4(o)[0] in PrintV4(o);
  }

  lemma AnyIp(t: Text)
    ensures ParseIp(t, ANY_V4_TEXT, LocalHost) == Ok(ANY_V4)
  {
    DefaultHosts();
    V4TokenParses(t, [0, 0, 0, 0], LocalHost);
  }

  lemma LoopbackIp(t: Text)
    ensures ParseIp(t, LOOPBACK_TEXT, LocalHost) == Ok(LOOPBACK)
  {
    DefaultHosts();
    V4TokenParses(t, [127, 0, 0, 1], LocalHost);
  }

  lemma DefaultPort(what: Part)
    ensures ParsePort("1080", what) == Ok(1080)
  {
    SmallDecimals();
    ParseDecimal(1080);
  }

  predicate SameKind(a: Result<RemoteKind, ParseError>, b: Result<RemoteKind, ParseError>) {
    if a.Ok? then a == b else b.Err?
  }

  lemma FourTokens(
      t: Text, host: string, ts: seq<string>, p: Option<Protocol>, ip: IpAddr)
    requires |ts| == 3 && ParseIp(t, host, LocalHost) == Ok(ip)
    ensures ParseFourTokens(t, [host] + ts, p) ==
            if ParseU16(ts[0]).None? then Err(Invalid(LocalPort))
            else if ParseU16(ts[2]).None? then Err(Invalid(RemotePort))
            else Ok(HostPortKind(
                      NewSocketAddr(ip, ParseU16(ts[0]).value),
                      HostPort(Unbracket(ts[1]), ParseU16(ts[2]).value), p))
  {
  }

  lemma ThreeSocksTokens(t: Text, host: string, port: string, p: Option<Protocol>, ip: IpAddr)
    requires ParseIp(t, host, LocalHost) == Ok(ip)
    ensures ParseThreeTokens(t, [host, port, SOCKS], p) ==
            if ParseU16(port).None? then Err(Invalid(LocalPort))
            else Ok(Socks5Remote(NewSocketAddr(ip, ParseU16(port).value)))
  {
  }

  lemma ExpandOneToSocks(t: Text, ts: seq<string>, p: Option<Protocol>)
    requires |ts| == 1 && ts[0] == SOCKS
    ensures SameKind(ParseOneToken(ts, p), ParseThreeTokens(t, Expand(ts), Some(p.GetOr(Tcp))))
  {
    LoopbackIp(t);
    DefaultPort(LocalPort);
    ThreeSocksTokens(t, LOOPBACK_TEXT, "1080", Some(p.GetOr(Tcp)), LOOPBACK);
  }

  lemma ExpandTwoToSocks(t: Text, ts: seq<string>, p: Option<Protocol>)
    requires |ts| == 2 && ts[1] == SOCKS
    ensures SameKind(ParseTwoTokens(ts, p), ParseThreeTokens(t, Expand(ts), Some(p.GetOr(Tcp))))
  {
    LoopbackIp(t);
    ThreeSocksTokens(t, LOOPBACK_TEXT, ts[0], Some(p.GetOr(Tcp)), LOOPBACK);
  }

  // The same with the default host as any text that parses to it.

  lemma OneToFour(t: Text, any: string, ts: seq<string>, p: Option<Protocol>)
    requires |ts| == 1 && ts[0] != SOCKS && ParseIp(t, any, LocalHost) == Ok(ANY_V4) && Unbracket(any) == any
    ensures ParseFourTokens(t, [any, ts[0], any, ts[0]], Some(p.GetOr(Tcp))) ==
            if ParseU16(ts[0]).None? then Err(Invalid(LocalPort))
            else Ok(HostPortKind(
                      NewSocketAddr(ANY_V4, ParseU16(ts[0]).value), HostPort(any, ParseU16(ts[0]).value), p))
  {
    FourTokens(t, any, [ts[0], any, ts[0]], Some(p.GetOr(Tcp)), ANY_V4);
    assert [any] + [ts[0], any, ts[0]] == [any, ts[0], any, ts[0]];
  }

  lemma TwoToFour(t: Text, any: string, ts: seq<string>, p: Option<Protocol>)
    requires |ts| == 2 && ts[1] != SOCKS && ParseIp(t, any, LocalHost) == Ok(ANY_V4)
    ensures SameKind(ParseTwoTokens(ts, p), ParseFourTokens(t, [any, ts[1], ts[0], ts[1]], Some(p.GetOr(Tcp))))
  {
    FourTokens(t, any, [ts[1], ts[0], ts[1]], Some(p.GetOr(Tcp)), ANY_V4);
    assert [any] + [ts[1], ts[0], ts[1]] == [any, ts[1], ts[0], ts[1]];
  }

  lemma ThreeToFour(t: Text, any: string, ts: seq<string>, p: Option<Protocol>)
    requires |ts| == 3 && ts[2] != SOCKS && ParseIp(t, any, LocalHost) == Ok(ANY_V4)
    ensures SameKind(ParseThreeTokens(t, ts, p), ParseFourTokens(t, [any, ts[0], ts[1], ts[2]], Some(p.GetOr(Tcp))))
  {
    FourTokens(t, any, ts, Some(p.GetOr(Tcp)), ANY_V4);
    assert [any] + ts == [any, ts[0], ts[1], ts[2]];
  }

  lemma ExpandOneToFour(t: Text, ts: seq<string>, p: Option<Protocol>)
    requires |ts| == 1 && ts[0] != SOCKS
    ensures SameKind(ParseOneToken(ts, p), ParseFourTokens(t, Expand(ts), Some(p.GetOr(Tcp))))
  {
    AnyIp(t);
    OneToFour(t, ANY_V4_TEXT, ts, p);
  }

  lemma ExpandTwoToFour(t: Text, ts: seq<string>, p: Option<Protocol>)
    requires |ts| == 2 && ts[1] != SOCKS
    ensures SameKind(ParseTwoTokens(ts, p), ParseFourTokens(t, Expand(ts), Some(p.GetOr(Tcp))))
  {
    AnyIp(t);
    TwoToFour(t, ANY_V4_TEXT, ts, p);
  }

  lemma ExpandThreeToFour(t: Text, ts: seq<string>, p: Option<Protocol>)
    requires |ts| == 3 && ts[2] != SOCKS
    ensures SameKind(ParseThreeTokens(t, ts, p), ParseFourTokens(t, Expand(ts), Some(p.GetOr(Tcp))))
  {
    AnyIp(t);
    ThreeToFour(t, ANY_V4_TEXT, ts, p);
  }

  lemma ExpandedKind(t: Text, ts: seq<string>, p: Option<Protocol>)
    requires 1 <= |ts| <= 4
    ensures SameKind(TokensToKind(t, ts, p), TokensToKind(t, Expand(ts), Some(p.GetOr(Tcp))))
  {
    if |ts| == 1 {
      if ts[0] == SOCKS {
        ExpandOneToSocks(t, ts, p);
      } else {
        ExpandOneToFour(t, ts, p);
      }
    } else if |ts| == 2 {
      if ts[1] == SOCKS {
        ExpandTwoToSocks(t, ts, p);
      } else {
        ExpandTwoToFour(t, ts, p);
      }
    } else if |ts| == 3 && ts[2] != SOCKS {
      ExpandThreeToFour(t, ts, p);
    }
  }

  lemma ExpandedTokens(t: Text, d: Direction, ts: seq<string>, p: Option<Protocol>)
    requires 1 <= |ts| <= 4 && ts[0] != STDIO
    ensures SameOutcome(
              TokensToRequest(t, d, ts, p),
              TokensToRequest(t, d, Expand(ts), Some(p.GetOr(Tcp))))
  {
    ExpandedKind(t, ts, p);
  }

  lemma ExpandUnambiguous(d: Direction, ts: seq<string>, p: Protocol)
    requires 1 <= |ts| <= 4 && IsTokenList(ts) && (d == Forward ==> ts[0] != "R")
    ensures Unambiguous(d, Expand(ts), Some(p))
  {
    assert IsBare(ANY_V4_TEXT) && IsBare(LOOPBACK_TEXT) && IsBare("1080") && IsBare(SOCKS);
    assert forall k | 0 <= k < |ts| :: ts[k] in ts;
    assert forall k | 0 <= k < |Expand(ts)| :: IsToken(Expand(ts)[k]);
    assert Last(Expand(ts)) == Last(ts);
  }

  /** Every one-, two- or three-part spec means what its expanded form means, errors included. */
  lemma ShorthandMeaning(t: Text, d: Direction, ts: seq<string>, p: Option<Protocol>)
    requires |ts| <= 4 && Unambiguous(d, ts, p) && ts[0] != STDIO
    ensures SameOutcome(Parse(t, Spec(d, ts, p)), Parse(t, Spec(d, Expand(ts), Some(p.GetOr(Tcp)))))
  {
    ParseOfSpec(t, d, ts, p);
    ExpandUnambiguous(d, ts, p.GetOr(Tcp));
    ParseOfSpec(t, d, Expand(ts), Some(p.GetOr(Tcp)));
    ExpandedTokens(t, d, ts, p);
  }

  /** `stdio:<port>` means what `stdio:127.0.0.1:<port>` means, errors included. */
  lemma StdioShorthand(t: Text, d: Direction, port: string, p: Option<Protocol>)
    requires Unambiguous(d, [STDIO, port], p)
    ensures SameOutcome(
              Parse(t, Spec(d, [STDIO, port], p)),
              Parse(t, Spec(d, [STDIO, "127.0.0.1", port], Some(p.GetOr(Tcp)))))
  {
    var short, long := [STDIO, port], [STDIO, LOOPBACK_TEXT, port];
    ParseOfSpec(t, d, short, p);
    StdioLongUnambiguous(d, port);
    ParseOfSpec(t, d, long, Some(p.GetOr(Tcp)));
    StdioDefault(port, p);
    assert short[1..] == [port] && long[1..] == [LOOPBACK_TEXT, port];
  }

  lemma StdioLongUnambiguous(d: Direction, port: string)
    requires IsTokenList([STDIO, port])
    ensures forall p: Protocol :: Unambiguous(d, [STDIO, LOOPBACK_TEXT, port], Some(p))
  {
    var long := [STDIO, LOOPBACK_TEXT, port];
    assert IsToken([STDIO, port][1]) && Last([STDIO, port]) == port;
    assert IsBare(STDIO) && IsBare(LOOPBACK_TEXT) && Last(long) == port;
  }

  lemma StdioDefault(port: string, p: Option<Protocol>)
    ensures SameKind(TokensToStdioKind([port], p), TokensToStdioKind([LOOPBACK_TEXT, port], Some(p.GetOr(Tcp))))
  {
    assert LOOPBACK_TEXT != SOCKS;
    assert Unbracket(LOOPBACK_TEXT) == LOOPBACK_TEXT;
  }
}
