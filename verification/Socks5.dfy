/**
 The SOCKS5 handshake as both ends speak it: the client that dials through a proxy
 (internal/sshclient/proxy.go) and the server behind a dynamic forward
 (internal/forward/forward.go). Sections 3, 4 and 6 of RFC 1928.

 A connection end sees the bytes that will ever arrive on it; a read takes the next ones
 and fails when they run out. So each end is a function from what arrives to what it sends,
 what it leaves unread and how it ends, and a handshake is the two of them feeding each other.
 */
module Socks5 {
  import opened Lines

  type Bytes = seq<byte>

  datatype Error =
    | ShortRead | NotSocks5 | OnlyConnect | UnsupportedAddress
    | BadPort | BadVersion | AuthNotConfigured | AuthTooLong | AuthRejected | NoMethod
    | NameTooLong | BadReplyVersion | Refused(code: byte) | BadBindAddress

  /** What a server is asked to reach. */
  datatype Address = V4(ip: Bytes) | Domain(name: Bytes) | V6(ip: Bytes) {
    predicate WellFormed() {
      match this
      case V4(b) => |b| == 4
      case Domain(b) => |b| <= 255
      case V6(b) => |b| == 16
    }
  }

  datatype Request = Target(to: Address, port: nat) | Bad(err: Error)
  datatype Served = Served(sent: Bytes, left: Bytes, result: Request)

  datatype Result = Connected | Failed(err: Error)
  datatype Dialled = Dialled(sent: Bytes, left: Bytes, result: Result)

  const METHOD_CHOICE: Bytes := [5, 0]

  // ---------------------------------------------------------------- one end of a connection

  class Conn {
    var inbox: Bytes
    var outbox: Bytes

    /** io.ReadFull into the first `n` bytes of a buffer: all of them, or an error at the end of input. */
    method ReadFull(buf: array<byte>, n: nat) returns (ok: bool)
      requires n <= buf.Length
      modifies this`inbox, buf
      ensures ok <==> n <= |old(inbox)|
      ensures ok ==> buf[..n] == old(inbox)[..n] && inbox == old(inbox)[n..]
      ensures !ok ==> inbox == []
    {
      ok := n <= |inbox|;
      var take := if ok then n else |inbox|;
      for i := 0 to take
        invariant inbox == old(inbox)
        invariant buf[..i] == inbox[..i]
      {
        buf[i] := inbox[i];
        assert inbox[..i + 1] == inbox[..i] + [inbox[i]];
      }
      inbox := inbox[take..];
    }

    method Send(data: Bytes)
      modifies this`outbox
      ensures outbox == old(outbox) + data
    {
      outbox := outbox + data;
    }
  }

  // ---------------------------------------------------------------- the server

  datatype AddressRead = Got(to: Address, left: Bytes) | Missing(left: Bytes, err: Error)

  function TakeAddress(kind: byte, input: Bytes): AddressRead {
    if kind == 1 then
      if |input| < 4 then Missing([], ShortRead) else Got(V4(input[..4]), input[4..])
    else if kind == 3 then
      if |input| < 1 || |input| - 1 < input[0] as nat then Missing([], ShortRead)
      else Got(Domain(input[1..1 + input[0] as nat]), input[1 + input[0] as nat..])
    else if kind == 4 then
      if |input| < 16 then Missing([], ShortRead) else Got(V6(input[..16]), input[16..])
    else Missing(input, UnsupportedAddress)
  }

  /** The port ends the request; `to` has just been read. */
  function ServePort(to: Address, input: Bytes): Served {
    if |input| < 2 then Served(METHOD_CHOICE, [], Bad(ShortRead))
    else Served(METHOD_CHOICE, input[2..], Target(to, input[0] as nat * 256 + input[1] as nat))
  }

  function ServeAddress(kind: byte, input: Bytes): Served {
    match TakeAddress(kind, input)
    case Missing(left, err) => Served(METHOD_CHOICE, left, Bad(err))
    case Got(to, left) => ServePort(to, left)
  }

  function ServeRequest(input: Bytes): Served {
    if |input| < 4 then Served(METHOD_CHOICE, [], Bad(ShortRead))
    else if input[1] != 1 then Served(METHOD_CHOICE, input[4..], Bad(OnlyConnect))
    else ServeAddress(input[3], input[4..])
  }

  function Serve(input: Bytes): Served {
    if |input| < 2 then Served([], [], Bad(ShortRead))
    else if input[0] != 5 then Served([], input[2..], Bad(NotSocks5))
    else if |input| - 2 < input[1] as nat then Served([], [], Bad(ShortRead))
    else ServeRequest(input[2 + input[1] as nat..])
  }

  /** Reads the whole request through one reused 263-byte buffer. */
  method ReadRequest(conn: Conn) returns (r: Request)
    modifies conn
    ensures var s := Serve(old(conn.inbox));
            r == s.result && conn.inbox == s.left && conn.outbox == old(conn.outbox) + s.sent
  {
    var buf := new byte[263];
    var ok := conn.ReadFull(buf, 2);
    if !ok {
      return Bad(ShortRead);
    }
    if buf[..2][0] != 5 {
      return Bad(NotSocks5);
    }
    var methods := buf[..2][1] as nat;
    ok := conn.ReadFull(buf, methods);
    if !ok {
      return Bad(ShortRead);
    }
    assert conn.inbox == old(conn.inbox)[2 + methods..];
    r := ReadAfterGreeting(conn, buf);
  }

  method ReadAddress(conn: Conn, buf: array<byte>, kind: byte) returns (a: AddressRead)
    requires buf.Length == 263
    modifies conn`inbox, buf
    ensures a == TakeAddress(kind, old(conn.inbox)) && conn.inbox == a.left
  {
    ghost var input := conn.inbox;
    var ok;
    if kind == 1 {
      ok := conn.ReadFull(buf, 4);
      a := if ok then Got(V4(buf[..4]), conn.inbox) else Missing([], ShortRead);
    } else if kind == 3 {
      ok := conn.ReadFull(buf, 1);
      if !ok {
        return Missing([], ShortRead);
      }
      var l := buf[..1][0] as nat;
      assert conn.inbox == input[1..];
      ok := conn.ReadFull(buf, l);
      a := if ok then Got(Domain(buf[..l]), conn.inbox) else Missing([], ShortRead);
      assert ok ==> input[1..][..l] == input[1..1 + l] && input[1..][l..] == input[1 + l..];
    } else if kind == 4 {
      ok := conn.ReadFull(buf, 16);
      a := if ok then Got(V6(buf[..16]), conn.inbox) else Missing([], ShortRead);
    } else {
      a := Missing(conn.inbox, UnsupportedAddress);
    }
  }

  method ReadAfterGreeting(conn: Conn, buf: array<byte>) returns (r: Request)
    requires buf.Length == 263
    modifies conn, buf
    ensures var s := ServeRequest(old(conn.inbox));
            r == s.result && conn.inbox == s.left && conn.outbox == old(conn.outbox) + s.sent
  {
    conn.Send(METHOD_CHOICE);
    var ok := conn.ReadFull(buf, 4);
    if !ok {
      return Bad(ShortRead);
    }
    var head := buf[..4];
    if head[1] != 1 {
      return Bad(OnlyConnect);
    }
    var a := ReadAddress(conn, buf, head[3]);
    if a.Missing? {
      return Bad(a.err);
    }
    ok := conn.ReadFull(buf, 2);
    if !ok {
      return Bad(ShortRead);
    }
    var port := buf[..2];
    r := Target(a.to, port[0] as nat * 256 + port[1] as nat);
  }

  /** The server always reports 0.0.0.0:0 as its bound address. */
  function Reply(code: byte): Bytes { [5, code, 0, 1, 0, 0, 0, 0, 0, 0] }

  /** Answers a request only once the target has been dialled. */
  method ServeConnection(conn: Conn, reachable: bool) returns (r: Request)
    modifies conn
    ensures var s := Serve(old(conn.inbox));
            && r == s.result && conn.inbox == s.left
            && conn.outbox == old(conn.outbox) + s.sent +
                              if s.result.Bad? then [] else Reply(if reachable then 0 else 1)
  {
    r := ReadRequest(conn);
    if r.Bad? {
      return;
    }
    conn.Send(Reply(if reachable then 0 else 1));
  }

  // ---------------------------------------------------------------- what a request looks like

  function AddressBytes(a: Address): Bytes
    requires a.WellFormed()
  {
    match a
    case V4(b) => [1] + b
    case Domain(b) => [3, |b| as byte] + b
    case V6(b) => [4] + b
  }

  function PortBytes(port: nat): Bytes
    requires port < 65536
  {
    [(port / 256) as byte, (port % 256) as byte]
  }

  function Hello(methods: Bytes): Bytes
    requires |methods| <= 255
  {
    [5, |methods| as byte] + methods
  }

  /** Section 4 of RFC 1928; the version and the reserved byte are whatever was sent. */
  function Connect(version: byte, reserved: byte, to: Address, port: nat): Bytes
    requires to.WellFormed() && port < 65536
  {
    [version, 1, reserved] + AddressBytes(to) + PortBytes(port)
  }

  // ---------------------------------------------------------------- the client

  /** A target host: an IP in 16-byte form, or a name that is not an IP. */
  datatype Host = IP(ip: Bytes) | Name(name: Bytes) {
    predicate WellFormed() { IP? ==> |ip| == 16 }
  }

  const V4_PREFIX: Bytes := [0, 0, 0, 0, 0, 0, 0, 0, 0, 0, 255, 255]

  /** The address a client asks for: an IPv4-mapped address travels in its 4-byte form. */
  function AddressOf(h: Host): (a: Address)
    requires h.WellFormed()
    ensures h.IP? || |h.name| <= 255 ==> a.WellFormed()
  {
    match h
    case IP(b) => if b[..12] == V4_PREFIX then V4(b[12..]) else V6(b)
    case Name(n) => Domain(n)
  }

  /** The host a server's address stands for. */
  function HostOf(a: Address): Host {
    match a
    case V4(b) => IP(V4_PREFIX + b)
    case Domain(n) => Name(n)
    case V6(b) => IP(b)
  }

  datatype Proxy = Proxy(user: Bytes, password: Bytes)

  function Greeting(p: Proxy): Bytes { if p.user != [] then [5, 2, 0, 2] else [5, 1, 0] }

  /** Reads the server's verdict and the bound address it carries. */
  function TakeReply(input: Bytes): Dialled {
    if |input| < 4 then Dialled([], [], Failed(ShortRead))
    else if input[0] != 5 then Dialled([], input[4..], Failed(BadReplyVersion))
    else if input[1] != 0 then Dialled([], input[4..], Failed(Refused(input[1])))
    else if input[3] == 1 then TakeBound(input[4..], 4)
    else if input[3] == 3 then
      if |input| < 5 then Dialled([], [], Failed(ShortRead)) else TakeBound(input[5..], input[4] as nat)
    else if input[3] == 4 then TakeBound(input[4..], 16)
    else Dialled([], input[4..], Failed(BadBindAddress))
  }

  function TakeBound(input: Bytes, n: nat): Dialled {
    if |input| < n + 2 then Dialled([], [], Failed(ShortRead)) else Dialled([], input[n + 2..], Connected)
  }

  function Ask(input: Bytes, host: Host, port: nat): Dialled
    requires host.WellFormed() && port < 65536
  {
    if host.Name? && |host.name| > 255 then Dialled([], input, Failed(NameTooLong))
    else TakeReply(input).(sent := Connect(5, 0, AddressOf(host), port))
  }

  function AuthBytes(p: Proxy): Bytes
    requires |p.user| <= 255 && |p.password| <= 255
  {
    [1, |p.user| as byte] + p.user + [|p.password| as byte] + p.password
  }

  function TakeAuth(input: Bytes, p: Proxy): Dialled {
    if |p.user| > 255 || |p.password| > 255 then Dialled([], input, Failed(AuthTooLong))
    else if |input| < 2 then Dialled(AuthBytes(p), [], Failed(ShortRead))
    else Dialled(AuthBytes(p), input[2..],
                 if input[0] != 1 || input[1] != 0 then Failed(AuthRejected) else Connected)
  }

  /** What follows the server's choice of method. */
  function AfterChoice(choice: byte, input: Bytes, p: Proxy, host: Host, port: nat): Dialled
    requires host.WellFormed() && port < 65536
  {
    if choice == 0 then Ask(input, host, port)
    else if choice == 2 then
      if p.user == [] then Dialled([], input, Failed(AuthNotConfigured))
      else
        var auth := TakeAuth(input, p);
        if auth.result.Failed? then auth
        else
          var rest := Ask(auth.left, host, port);
          rest.(sent := auth.sent + rest.sent)
    else Dialled([], input, Failed(NoMethod))
  }

  function Dial(input: Bytes, p: Proxy, host: Host, port: int): Dialled
    requires host.WellFormed()
  {
    if port < 1 || port > 65535 then Dialled([], input, Failed(BadPort))
    else if |input| < 2 then Dialled(Greeting(p), [], Failed(ShortRead))
    else if input[0] != 5 then Dialled(Greeting(p), input[2..], Failed(BadVersion))
    else
      var rest := AfterChoice(input[1], input[2..], p, host, port);
      rest.(sent := Greeting(p) + rest.sent)
  }

  method Handshake(conn: Conn, p: Proxy, host: Host, port: int) returns (r: Result)
    requires host.WellFormed()
    modifies conn
    ensures var d := Dial(old(conn.inbox), p, host, port);
            r == d.result && conn.inbox == d.left && conn.outbox == old(conn.outbox) + d.sent
  {
    if port < 1 || port > 65535 {
      return Failed(BadPort);
    }
    conn.Send(Greeting(p));
    var mr := new byte[2];
    var ok := conn.ReadFull(mr, 2);
    if !ok {
      return Failed(ShortRead);
    }
    var choice := mr[..2];
    if choice[0] != 5 {
      return Failed(BadVersion);
    }
    r := Choose(conn, choice[1], p, host, port);
  }

  method Choose(conn: Conn, choice: byte, p: Proxy, host: Host, port: nat) returns (r: Result)
    requires host.WellFormed() && port < 65536
    modifies conn
    ensures var d := AfterChoice(choice, old(conn.inbox), p, host, port);
            r == d.result && conn.inbox == d.left && conn.outbox == old(conn.outbox) + d.sent
  {
    if choice == 2 {
      if p.user == [] {
        return Failed(AuthNotConfigured);
      }
      r := SendAuth(conn, p);
      if r.Failed? {
        return;
      }
    } else if choice != 0 {
      return Failed(NoMethod);
    }
    r := AskFor(conn, host, port);
  }

  method AskFor(conn: Conn, host: Host, port: nat) returns (r: Result)
    requires host.WellFormed() && port < 65536
    modifies conn
    ensures var d := Ask(old(conn.inbox), host, port);
            r == d.result && conn.inbox == d.left && conn.outbox == old(conn.outbox) + d.sent
  {
    r := SendConnect(conn, host, port);
    if r.Connected? {
      r := ReadConnectReply(conn);
    }
  }

  method SendAuth(conn: Conn, p: Proxy) returns (r: Result)
    modifies conn
    ensures var d := TakeAuth(old(conn.inbox), p);
            r == d.result && conn.inbox == d.left && conn.outbox == old(conn.outbox) + d.sent
  {
    if |p.user| > 255 || |p.password| > 255 {
      return Failed(AuthTooLong);
    }
    var buf: Bytes := [1, |p.user| as byte];
    buf := buf + p.user;
    buf := buf + [|p.password| as byte];
    buf := buf + p.password;
    conn.Send(buf);
    var resp := new byte[2];
    var ok := conn.ReadFull(resp, 2);
    if !ok {
      return Failed(ShortRead);
    }
    var answer := resp[..2];
    if answer[0] != 1 || answer[1] != 0 {
      return Failed(AuthRejected);
    }
    r := Connected;
  }

  method SendConnect(conn: Conn, host: Host, port: nat) returns (r: Result)
    requires host.WellFormed() && port < 65536
    modifies conn
    ensures conn.inbox == old(conn.inbox)
    ensures if host.Name? && |host.name| > 255
            then r == Failed(NameTooLong) && conn.outbox == old(conn.outbox)
            else r == Connected && conn.outbox == old(conn.outbox) + Connect(5, 0, AddressOf(host), port)
  {
    var req: Bytes := [5, 1, 0];
    if host.IP? {
      if host.ip[..12] == V4_PREFIX {
        req := req + [1];
        req := req + host.ip[12..];
      } else {
        req := req + [4];
        req := req + host.ip;
      }
    } else {
      if |host.name| > 255 {
        return Failed(NameTooLong);
      }
      req := req + [3, |host.name| as byte];
      req := req + host.name;
    }
    assert req == [5, 1, 0] + AddressBytes(AddressOf(host));
    req := req + [(port / 256) as byte, (port % 256) as byte];
    conn.Send(req);
    r := Connected;
  }

  method ReadConnectReply(conn: Conn) returns (r: Result)
    modifies conn
    ensures var d := TakeReply(old(conn.inbox));
            r == d.result && conn.inbox == d.left && conn.outbox == old(conn.outbox)
  {
    var rep := new byte[4];
    var ok := conn.ReadFull(rep, 4);
    if !ok {
      return Failed(ShortRead);
    }
    var head := rep[..4];
    if head[0] != 5 {
      return Failed(BadReplyVersion);
    }
    if head[1] != 0 {
      return Failed(Refused(head[1]));
    }
    var skip := 0;
    if head[3] == 1 {
      skip := 4;
    } else if head[3] == 3 {
      var l := new byte[1];
      ok := conn.ReadFull(l, 1);
      if !ok {
        return Failed(ShortRead);
      }
      skip := l[..1][0] as nat;
    } else if head[3] == 4 {
      skip := 16;
    } else {
      return Failed(BadBindAddress);
    }
    var tail := new byte[skip + 2];
    ok := conn.ReadFull(tail, skip + 2);
    r := if ok then Connected else Failed(ShortRead);
  }

  // ---------------------------------------------------------------- the server reads exactly the requests

  lemma TakesAddress(to: Address, rest: Bytes)
    requires to.WellFormed()
    ensures var a := AddressBytes(to) + rest; TakeAddress(a[0], a[1..]) == Got(to, rest)
  {
    var a := AddressBytes(to) + rest;
    match to
    case V4(b) =>
      assert a[1..] == b + rest;
    case V6(b) =>
      assert a[1..] == b + rest;
    case Domain(b) =>
      assert a[1..] == [|b| as byte] + b + rest;
      assert a[1..][1..1 + |b|] == b;
      assert a[1..][1 + |b|..] == rest;
  }

  lemma TakesConnect(version: byte, reserved: byte, to: Address, port: nat, rest: Bytes)
    requires to.WellFormed() && port < 65536
    ensures ServeRequest(Connect(version, reserved, to, port) + rest) == Served(METHOD_CHOICE, rest, Target(to, port))
  {
    var tail := PortBytes(port) + rest;
    var a := AddressBytes(to) + tail;
    Regroup([version, 1, reserved], AddressBytes(to), PortBytes(port), rest);
    ThreeBefore(version, 1, reserved, a);
    TakesAddress(to, tail);
    assert tail[2..] == rest && tail[0] == (port / 256) as byte && tail[1] == (port % 256) as byte;
  }

  /** Every request, whatever its methods, version and reserved byte, is read back exactly, and no byte more. */
  lemma ServerReadsRequest(methods: Bytes, version: byte, reserved: byte, to: Address, port: nat, rest: Bytes)
    requires |methods| <= 255 && to.WellFormed() && port < 65536
    ensures Serve(Hello(methods) + Connect(version, reserved, to, port) + rest) ==
            Served(METHOD_CHOICE, rest, Target(to, port))
  {
    var c := Connect(version, reserved, to, port) + rest;
    var input := Hello(methods) + Connect(version, reserved, to, port) + rest;
    assert input == Hello(methods) + c && input[2 + |methods|..] == c;
    TakesConnect(version, reserved, to, port, rest);
  }

  lemma AddressWasSent(kind: byte, input: Bytes)
    requires TakeAddress(kind, input).Got?
    ensures var a := TakeAddress(kind, input);
            a.to.WellFormed() && [kind] + input == AddressBytes(a.to) + a.left
  {
  }

  lemma Regroup(x: Bytes, y: Bytes, z: Bytes, w: Bytes)
    ensures x + (y + (z + w)) == x + y + z + w
  {
  }

  lemma PortWasSent(input: Bytes)
    requires |input| >= 2
    ensures var port := input[0] as nat * 256 + input[1] as nat;
            port < 65536 && input == PortBytes(port) + input[2..]
  {
  }

  lemma HeadAndRest(c: Bytes)
    requires |c| >= 4
    ensures c == [c[0], c[1], c[2]] + ([c[3]] + c[4..])
  {
  }

  lemma ConnectWasSent(c: Bytes)
    requires ServeRequest(c).result.Target?
    ensures |c| >= 4
    ensures var s := ServeRequest(c);
            && s.result.to.WellFormed() && s.result.port < 65536
            && c == Connect(c[0], c[2], s.result.to, s.result.port) + s.left
  {
    var s, a := ServeRequest(c), TakeAddress(c[3], c[4..]);
    AddressWasSent(c[3], c[4..]);
    PortWasSent(a.left);
    HeadAndRest(c);
    Regroup([c[0], 1, c[2]], AddressBytes(a.to), PortBytes(s.result.port), s.left);
  }

  lemma HelloWasSent(input: Bytes, n: nat)
    requires 2 + n <= |input| && input[0] == 5 && n == input[1] as nat
    ensures input == Hello(input[2..2 + n]) + input[2 + n..]
  {
  }

  /** And it reads nothing else: whatever it accepts is such a request, followed by what it left unread. */
  lemma AcceptedIsARequest(input: Bytes) returns (methods: Bytes, version: byte, reserved: byte)
    requires Serve(input).result.Target?
    ensures var s := Serve(input);
            && |methods| <= 255 && s.result.to.WellFormed() && s.result.port < 65536
            && input == Hello(methods) + Connect(version, reserved, s.result.to, s.result.port) + s.left
  {
    var n, s := input[1] as nat, Serve(input);
    var c := input[2 + n..];
    assert s == ServeRequest(c);
    ConnectWasSent(c);
    HelloWasSent(input, n);
    methods, version, reserved := input[2..2 + n], c[0], c[2];
    Regroup([], Hello(methods), Connect(version, reserved, s.result.to, s.result.port), s.left);
    assert [] + Hello(methods) == Hello(methods);
  }

  /**
   Why a server refuses: another version before a word is said, and after the choice of method
   any command but CONNECT and any kind of address but the three.
   */
  lemma ServerRefuses(methods: Bytes, head: Bytes, rest: Bytes)
    requires |methods| <= 255 && |head| == 4
    ensures forall v: byte, n: byte :: v != 5 ==> Serve([v, n] + rest) == Served([], rest, Bad(NotSocks5))
    ensures head[1] != 1 ==> Serve(Hello(methods) + (head + rest)) == Served([5, 0], rest, Bad(OnlyConnect))
    ensures head[1] == 1 && head[3] !in {1, 3, 4} ==>
              Serve(Hello(methods) + (head + rest)) == Served([5, 0], rest, Bad(UnsupportedAddress))
  {
    forall v: byte, n: byte | v != 5 ensures Serve([v, n] + rest) == Served([], rest, Bad(NotSocks5)) {
      assert ([v, n] + rest)[2..] == rest;
    }
    var input := Hello(methods) + (head + rest);
    assert input[2 + |methods|..] == head + rest;
    assert (head + rest)[4..] == rest;
  }

  // ---------------------------------------------------------------- waiting for more input changes nothing already said

  lemma AddressIsCausal(kind: byte, a: Bytes, b: Bytes)
    ensures TakeAddress(kind, a) != Missing([], ShortRead) ==>
              TakeAddress(kind, a + b) == TakeAddress(kind, a).(left := TakeAddress(kind, a).left + b)
  {
    if kind == 1 && |a| >= 4 {
      assert (a + b)[..4] == a[..4] && (a + b)[4..] == a[4..] + b;
    } else if kind == 4 && |a| >= 16 {
      assert (a + b)[..16] == a[..16] && (a + b)[16..] == a[16..] + b;
    } else if kind == 3 && |a| >= 1 && |a| - 1 >= a[0] as nat {
      var n := 1 + a[0] as nat;
      assert (a + b)[1..n] == a[1..n] && (a + b)[n..] == a[n..] + b;
    }
  }

  lemma RequestIsCausal(a: Bytes, b: Bytes)
    ensures ServeRequest(a).result != Bad(ShortRead) ==>
              ServeRequest(a + b) == ServeRequest(a).(left := ServeRequest(a).left + b)
  {
    if |a| >= 4 {
      assert (a + b)[4..] == a[4..] + b;
      AddressIsCausal(a[3], a[4..], b);
      if a[1] == 1 && TakeAddress(a[3], a[4..]).Got? {
        var left := TakeAddress(a[3], a[4..]).left;
        if |left| >= 2 {
          assert (left + b)[2..] == left[2..] + b;
        }
      }
    }
  }

  /** A server that is only waiting has said the beginning of what it will say; one that has ended stays so. */
  lemma ServerIsCausal(a: Bytes, b: Bytes)
    ensures Serve(a).sent <= Serve(a + b).sent
    ensures Serve(a).result != Bad(ShortRead) ==> Serve(a + b) == Serve(a).(left := Serve(a).left + b)
  {
    if |a| >= 2 {
      var n := if a[0] != 5 then 2 else 2 + a[1] as nat;
      if |a| >= n {
        CutLater(a, b, n);
        RequestIsCausal(a[n..], b);
        RequestSendsChoice(a[n..]);
        RequestSendsChoice(a[n..] + b);
      }
    }
  }

  lemma CutLater(a: Bytes, b: Bytes, n: nat)
    requires n <= |a|
    ensures (a + b)[n..] == a[n..] + b
  {
  }

  lemma RequestSendsChoice(input: Bytes)
    ensures ServeRequest(input).sent == METHOD_CHOICE
  {
  }

  // ---------------------------------------------------------------- the two ends together

  /** The server's address names the host the client meant, in every form. */
  lemma AddressIsRecovered(h: Host)
    requires h.WellFormed()
    ensures HostOf(AddressOf(h)) == h
  {
    if h.IP? && h.ip[..12] == V4_PREFIX {
      assert h.ip == h.ip[..12] + h.ip[12..];
    }
  }

  lemma ClientReadsReply(code: byte, rest: Bytes)
    ensures TakeReply(Reply(code) + rest) ==
            if code == 0 then Dialled([], rest, Connected)
            else Dialled([], Reply(code)[4..] + rest, Failed(Refused(code)))
  {
    var input := Reply(code) + rest;
    assert input[4..] == Reply(code)[4..] + rest;
    assert input[4..][6..] == rest;
  }

  /**
   The whole handshake. The client speaks first; each end then says its next part on nothing
   more than what the other has already said, so neither waits for ever. The server learns
   exactly the host and port, having read every byte the client sent, and the client succeeds
   exactly when the reply code is 0, having then read every byte the server sent. A refused
   client stops after four bytes of the reply.
   */
  lemma HandshakeAgrees(p: Proxy, host: Host, port: nat, code: byte)
    requires host.WellFormed() && (host.Name? ==> |host.name| <= 255) && 1 <= port <= 65535
    ensures Dial([], p, host, port).sent == Greeting(p)
    ensures Serve(Greeting(p)).sent == METHOD_CHOICE
    ensures var sent := Dial(METHOD_CHOICE, p, host, port).sent;
            && sent == Greeting(p) + Connect(5, 0, AddressOf(host), port)
            && Serve(sent) == Served(METHOD_CHOICE, [], Target(AddressOf(host), port))
            && HostOf(Serve(sent).result.to) == host
            && Dial(METHOD_CHOICE + Reply(code), p, host, port) ==
               if code == 0 then Dialled(sent, [], Connected)
               else Dialled(sent, Reply(code)[4..], Failed(Refused(code)))
  {
    var methods: Bytes := if p.user != [] then [0, 2] else [0];
    assert Greeting(p) == Hello(methods);
    var c := Connect(5, 0, AddressOf(host), port);
    assert Greeting(p)[2 + |methods|..] == [];
    ServerReadsRequest(methods, 5, 0, AddressOf(host), port, []);
    assert Greeting(p) + c + [] == Greeting(p) + c;
    AddressIsRecovered(host);
    ClientReadsReply(code, []);
    assert (METHOD_CHOICE + Reply(code))[2..] == Reply(code) + [] == Reply(code);
    assert METHOD_CHOICE[2..] == [];
  }

  /** The client offers to go without a login, and with one exactly when it has a user name. */
  lemma GreetingOffers(p: Proxy)
    ensures Greeting(p) == Hello(if p.user == [] then [0] else [0, 2])
  {
  }

  // ---------------------------------------------------------------- user names, passwords and bound addresses

  datatype Login = Login(user: Bytes, password: Bytes, left: Bytes) | NoLogin

  /** How a server reads the user and the password: version 1, then each with its length before it. */
  function ReadLogin(input: Bytes): Login {
    if |input| < 2 || input[0] != 1 || |input| < 3 + input[1] as nat then NoLogin
    else
      var n := 2 + input[1] as nat;
      if |input| < n + 1 + input[n] as nat then NoLogin
      else Login(input[2..n], input[n + 1..n + 1 + input[n] as nat], input[n + 1 + input[n] as nat..])
  }

  /** What the client sends is read back as its user name and its password, in that order. */
  lemma LoginIsRecovered(p: Proxy, rest: Bytes)
    requires |p.user| <= 255 && |p.password| <= 255
    ensures ReadLogin(AuthBytes(p) + rest) == Login(p.user, p.password, rest)
  {
    var input, n := AuthBytes(p) + rest, 2 + |p.user|;
    assert input[0] == 1 && input[1] == |p.user| as byte && input[n] == |p.password| as byte;
    assert input[2..n] == p.user;
    assert input[n + 1..n + 1 + |p.password|] == p.password;
    assert input[n + 1 + |p.password|..] == rest;
  }

  /** The login is sent whenever it can be, and succeeds if and only if the answer is [1, 0]. */
  lemma LoginSucceedsIff(input: Bytes, p: Proxy)
    ensures var d := TakeAuth(input, p);
            && (d.result == Connected <==>
                  |p.user| <= 255 && |p.password| <= 255 && |input| >= 2 && input[..2] == [1, 0])
            && (|p.user| > 255 || |p.password| > 255 ==> d == Dialled([], input, Failed(AuthTooLong)))
            && (|p.user| <= 255 && |p.password| <= 255 ==>
                  d.sent == AuthBytes(p) && d.left == if |input| < 2 then [] else input[2..])
  {
    if |input| >= 2 {
      assert input[..2] == [input[0], input[1]];
    }
  }

  /**
   A server that asks for a login gets it before the request: user and password as given, then
   exactly the target; and without a user name the client does not go on.
   */
  lemma LoginHandshakeAgrees(p: Proxy, host: Host, port: nat, code: byte)
    requires host.WellFormed() && (host.Name? ==> |host.name| <= 255) && 1 <= port <= 65535
    requires |p.user| <= 255 && |p.password| <= 255
    ensures var asked := [5, 2] + ([1, 0] + Reply(code));
            var d := Dial(asked, p, host, port);
            if p.user == [] then d.result == Failed(AuthNotConfigured) && d.sent == Greeting(p)
            else
              && d.sent == Greeting(p) + (AuthBytes(p) + Connect(5, 0, AddressOf(host), port))
              && (d.result == Connected <==> code == 0)
  {
    var reply: Bytes := [1, 0] + Reply(code);
    var asked: Bytes := [5, 2] + reply;
    assert asked[2..] == reply && reply[2..] == Reply(code) && Reply(code) + [] == Reply(code);
    ClientReadsReply(code, []);
  }

  /** The client accepts a success with a bound address of any kind, and skips exactly that address and its port. */
  lemma ReplyIsSkipped(reserved: byte, bound: Address, port: nat, rest: Bytes)
    requires bound.WellFormed() && port < 65536
    ensures TakeReply([5, 0, reserved] + (AddressBytes(bound) + (PortBytes(port) + rest))) == Dialled([], rest, Connected)
  {
    var tail := PortBytes(port) + rest;
    var a := AddressBytes(bound) + tail;
    ThreeBefore(5, 0, reserved, a);
    TakesAddress(bound, tail);
    ReplyByAddress([5, 0, reserved] + a);
    assert tail[2..] == rest;
  }

  lemma ThreeBefore(x: byte, y: byte, z: byte, a: Bytes)
    requires a != []
    ensures var c := [x, y, z] + a; c[0] == x && c[1] == y && c[2] == z && c[3] == a[0] && c[4..] == a[1..]
  {
  }

  /** The bound address of a reply has the form of a target, followed by a port. */
  lemma ReplyByAddress(input: Bytes)
    requires |input| >= 4 && input[0] == 5 && input[1] == 0
    ensures var a, r := TakeAddress(input[3], input[4..]), TakeReply(input);
            && (a.Got? && |a.left| >= 2 ==> r == Dialled([], a.left[2..], Connected))
            && (a.Missing? || |a.left| < 2 ==> r.result.Failed?)
  {
    var rest := input[4..];
    if input[3] == 3 && rest != [] {
      assert input[5..] == rest[1..] && input[4] == rest[0];
      var n := rest[0] as nat;
      if |rest| - 1 >= n + 2 {
        assert rest[1..][n + 2..] == rest[1 + n..][2..];
      }
    }
  }

  /** And it accepts nothing else. */
  lemma AcceptedIsASuccess(input: Bytes) returns (reserved: byte, bound: Address, port: nat)
    requires TakeReply(input).result == Connected
    ensures bound.WellFormed() && port < 65536
    ensures input == [5, 0, reserved] + (AddressBytes(bound) + (PortBytes(port) + TakeReply(input).left))
  {
    reserved := input[2];
    HeadAndRest(input);
    ReplyByAddress(input);
    var a := TakeAddress(input[3], input[4..]);
    AddressWasSent(input[3], input[4..]);
    PortWasSent(a.left);
    bound, port := a.to, a.left[0] as nat * 256 + a.left[1] as nat;
  }

  /** Why a client refuses a reply: another version, a failure code, an unknown kind of bound address. */
  lemma ClientRefusesReply(head: Bytes, rest: Bytes)
    requires |head| == 4
    ensures var d := TakeReply(head + rest);
            && (head[0] != 5 ==> d == Dialled([], rest, Failed(BadReplyVersion)))
            && (head[0] == 5 && head[1] != 0 ==> d == Dialled([], rest, Failed(Refused(head[1]))))
            && (head[0] == 5 && head[1] == 0 && head[3] !in {1, 3, 4} ==> d == Dialled([], rest, Failed(BadBindAddress)))
  {
    assert (head + rest)[4..] == rest;
  }

  /** A port out of range is refused before a word is said; a name too long, before the request. */
  lemma ClientRefusesEarly(input: Bytes, p: Proxy, host: Host, port: int)
    requires host.WellFormed()
    ensures port < 1 || port > 65535 ==> Dial(input, p, host, port) == Dialled([], input, Failed(BadPort))
    ensures 1 <= port <= 65535 && host.Name? && |host.name| > 255 ==>
              Dial(METHOD_CHOICE + input, p, host, port) == Dialled(Greeting(p), input, Failed(NameTooLong))
  {
    assert (METHOD_CHOICE + input)[2..] == input;
  }
}
