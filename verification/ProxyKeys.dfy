/** Proxy session keys: crates/common/src/proxy/event.rs and proxy_base.rs. */
module ProxyKeys {
  import opened Types

  datatype ProxyType = ChannelAndTcp | TcpAndTcp | TcpAndUdp

  /** The characters a printed socket address is made of. */
  predicate IsAddrChar(c: char) {
    '0' <= c <= '9' || 'a' <= c <= 'f' || c in ".:[]%"
  }

  /** A socket address as the standard library prints it. */
  type Addr = s: string | forall i :: 0 <= i < |s| ==> IsAddrChar(s[i]) witness ""

  const ABSENT_CLIENT := "client_addr_NA"
  const ABSENT_SERVER := "server_addr_NA"

  function TypeKey(t: ProxyType): string {
    match t
    case ChannelAndTcp => "C&T"
    case TcpAndTcp => "T&T"
    case TcpAndUdp => "T&U"
  }

  function OrElse(a: Option<Addr>, absent: string): string {
    match a
    case Some(s) => s
    case None => absent
  }

  /** The characters of a string in its quoted debug form: quotes and backslashes escaped. */
  function Escaped(s: string): string {
    if s == "" then ""
    else (if s[0] == '"' || s[0] == '\\' then ['\\', s[0]] else [s[0]]) + Escaped(s[1..])
  }

  /** `head:"x","y"` */
  function Framed(head: string, x: string, y: string): string {
    head + ":\"" + (x + "\"" + (",\"" + (y + "\"")))
  }

  function KeyValue(t: ProxyType, client: Option<Addr>, server: Option<Addr>): string {
    Framed(TypeKey(t), Escaped(OrElse(client, ABSENT_CLIENT)), Escaped(OrElse(server, ABSENT_SERVER)))
  }

  predicate Plain(s: string) {
    forall i :: 0 <= i < |s| ==> s[i] != '"' && s[i] != '\\'
  }

  lemma {:induction false} EscapedPlain(s: string)
    requires Plain(s)
    ensures Escaped(s) == s
  {
    if s != "" {
      EscapedPlain(s[1..]);
    }
  }

  /** Text up to the first quote is determined by the whole. */
  lemma {:induction false} SplitAtQuote(x: string, r: string, y: string, q: string)
    requires Plain(x) && Plain(y)
    requires x + "\"" + r == y + "\"" + q
    ensures x == y && r == q
  {
    var left, right := x + "\"" + r, y + "\"" + q;
    assert left[|x|] == '"' && right[|y|] == '"';
    assert left[..|x|] == x && right[..|y|] == y;
    assert left[|x| + 1..] == r && right[|y| + 1..] == q;
  }

  lemma FramedInjective(h: string, x: string, y: string, h': string, x': string, y': string)
    requires |h| == |h'| && Plain(x) && Plain(y) && Plain(x') && Plain(y')
    requires Framed(h, x, y) == Framed(h', x', y')
    ensures h == h' && x == x' && y == y'
  {
    var tail, tail' := y + "\"", y' + "\"";
    var rest, rest' := x + "\"" + (",\"" + tail), x' + "\"" + (",\"" + tail');
    assert Framed(h, x, y)[..|h|] == h && Framed(h', x', y')[..|h|] == h';
    assert Framed(h, x, y)[|h| + 2..] == rest && Framed(h', x', y')[|h| + 2..] == rest';
    SplitAtQuote(x, ",\"" + tail, x', ",\"" + tail');
    assert (",\"" + tail)[2..] == tail && (",\"" + tail')[2..] == tail';
    assert tail[..|tail| - 1] == y && tail'[..|tail'| - 1] == y';
  }

  /** The placeholder for a missing address is not itself a printed address. */
  lemma OrElseInjective(a: Option<Addr>, b: Option<Addr>, absent: string)
    requires absent == ABSENT_CLIENT || absent == ABSENT_SERVER
    ensures Plain(OrElse(a, absent))
    ensures OrElse(a, absent) == OrElse(b, absent) <==> a == b
  {
    assert absent[6] == '_';
  }

  lemma KeyIsFramed(t: ProxyType, c: Option<Addr>, s: Option<Addr>)
    ensures Plain(OrElse(c, ABSENT_CLIENT)) && Plain(OrElse(s, ABSENT_SERVER))
    ensures KeyValue(t, c, s) == Framed(TypeKey(t), OrElse(c, ABSENT_CLIENT), OrElse(s, ABSENT_SERVER))
  {
    OrElseInjective(c, c, ABSENT_CLIENT);
    OrElseInjective(s, s, ABSENT_SERVER);
    EscapedPlain(OrElse(c, ABSENT_CLIENT));
    EscapedPlain(OrElse(s, ABSENT_SERVER));
  }

  /** How keys look: the type's letters, then the client's and the server's address in quotes. */
  lemma KeysLookLike(t: ProxyType, client: Addr, server: Addr)
    ensures TypeKey(ChannelAndTcp) == "C&T" && TypeKey(TcpAndTcp) == "T&T" && TypeKey(TcpAndUdp) == "T&U"
    ensures KeyValue(t, Some(client), Some(server)) == (TypeKey(t) + ":\"" + client) + ("\",\"" + server + "\"")
  {
    hide KeyValue, TypeKey;
    KeyIsFramed(t, Some(client), Some(server));
    QuotesJoin(TypeKey(t) + ":\"", client, server + "\"");
    assert "\",\"" + server + "\"" == "\",\"" + (server + "\"");
    assert TypeKey(ChannelAndTcp) == "C&T" && TypeKey(TcpAndTcp) == "T&T" && TypeKey(TcpAndUdp) == "T&U" by {
      TypeKeys();
    }
  }

  lemma TypeKeys()
    ensures TypeKey(ChannelAndTcp) == "C&T" && TypeKey(TcpAndTcp) == "T&T" && TypeKey(TcpAndUdp) == "T&U"
  {
  }

  lemma QuotesJoin(a: string, b: string, c: string)
    ensures a + (b + "\"" + (",\"" + c)) == (a + b) + ("\",\"" + c)
  {
    assert "\"" + (",\"" + c) == "\",\"" + c;
  }

  /**
   * Keys are unambiguous: the type and both optional addresses can be recovered, so sessions of
   * different kinds or of different endpoints never share a key.
   */
  lemma KeyValueInjective(t: ProxyType, c: Option<Addr>, s: Option<Addr>,
                          t': ProxyType, c': Option<Addr>, s': Option<Addr>)
    ensures KeyValue(t, c, s) == KeyValue(t', c', s') <==> t == t' && c == c' && s == s'
  {
    hide KeyValue, Framed, Plain, OrElse;
    KeyIsFramed(t, c, s);
    KeyIsFramed(t', c', s');
    OrElseInjective(c, c', ABSENT_CLIENT);
    OrElseInjective(s, s', ABSENT_SERVER);
    if KeyValue(t, c, s) == KeyValue(t', c', s') {
      FramedInjective(TypeKey(t), OrElse(c, ABSENT_CLIENT), OrElse(s, ABSENT_SERVER),
                      TypeKey(t'), OrElse(c', ABSENT_CLIENT), OrElse(s', ABSENT_SERVER));
      assert TypeKey(t)[0] == TypeKey(t')[0] && TypeKey(t)[2] == TypeKey(t')[2];
    }
  }
}
