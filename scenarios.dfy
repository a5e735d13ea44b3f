/**
 * The socket-lifecycle sequences of the socket layer's test suite, replayed
 * against a fresh descriptor table: each method performs the calls in the
 * order the suite makes them and returns the results the suite checks.
 */
module Scenarios {

  import opened Optional
  import opened Addresses
  import opened Results
  import opened Resolution
  import opened Sockets

  /**
   * The wildcard bind address of `domain`, resolved as the suite does:
   * `0.0.0.0` with only IPv4 accepted, or `::` with only IPv6 accepted.
   */
  function UniversalBindAddress(domain: Domain, service: string -> seq<Address>): (r: Lookup)
    requires SocketDomain(domain)
    ensures r.result == ResultOk && r.address.Some?
    ensures r.address.value.family == domain && IsAny(r.address.value)
  {
    if domain == DomainIPv4 then
      AnyIPv4Resolves(false, service);
      AnyIPv4Bytes(service);
      GetHostByName(AnyIPv4, true, false, service)
    else
      AnyIPv6Resolves(false, service);
      AnyIPv6Bytes(service);
      GetHostByName(AnyIPv6, false, true, service)
  }

  /** The IPv4 address `0.0.0.0` resolves to has every byte zero. */
  lemma AnyIPv4Bytes(service: string -> seq<Address>)
    ensures var r := GetHostByName(AnyIPv4, true, false, service); r.address.Some? && r.address.value.bytes == Zeros16
  {
    AnyIPv4Resolves(false, service);
    ZeroBytes([0, 0, 0, 0]);
  }

  /** An IPv4 address built from four zero bytes has every byte zero. */
  lemma ZeroBytes(b: seq<Byte>)
    requires b == [0, 0, 0, 0]
    ensures IPv4Address(b).bytes == Zeros16
  {
    assert Zeros16[..12] + b == Zeros16;
  }

  /** The IPv6 address `::` resolves to has every byte zero. */
  lemma AnyIPv6Bytes(service: string -> seq<Address>)
    ensures var r := GetHostByName(AnyIPv6, false, true, service); r.address.Some? && r.address.value.bytes == Zeros16
  {
    AnyIPv6Resolves(false, service);
    ZeroWordsZeroBytes(GetHostByName(AnyIPv6, false, true, service).address.value);
  }

  /** An address whose four words are zero has every byte zero. */
  lemma ZeroWordsZeroBytes(a: Address)
    requires IPv6(a) == [0, 0, 0, 0]
    ensures a.bytes == Zeros16
  {
    DefaultWordsZero();
    IPv6ViewDeterminesBytes(a, DefaultAddress);
  }

  /**
   * The loopback address of `domain`, resolved as the suite's server does,
   * with the family flags taken from the probes of a socket of that domain.
   */
  function LoopbackAddress(domain: Domain, service: string -> seq<Address>): (r: Lookup)
    requires SocketDomain(domain)
    ensures r.result == ResultOk && r.address.Some? && r.address.value.family == domain
  {
    if domain == DomainIPv4 then
      LoopbackIPv4Resolves(false, service);
      GetHostByName(LoopbackIPv4, true, false, service)
    else
      LoopbackIPv6Resolves(false, service);
      GetHostByName(LoopbackIPv6, false, true, service)
  }

  /**
   * `GetSocket(domain)`: a new socket with send and receive timeouts and
   * no-delay applied, or `NoSocket` as soon as one step fails.
   */
  method GetSocket(t: SocketTable, domain: Domain) returns (h: Handle)
    requires t.Valid()
    modifies t
    ensures t.Valid()
    ensures h == NoSocket <==> !SocketDomain(domain)
    ensures h != NoSocket ==> h !in old(t.sockets) && t.sockets == old(t.sockets)[h := Created(domain)]
    ensures h == NoSocket ==> t.sockets == old(t.sockets)
  {
    var r;
    r, h := t.New(domain);
    if r != ResultOk {
      return NoSocket;
    }
    r := t.SetOption(h, SendTimeout(3000));
    if r != ResultOk {
      return NoSocket;
    }
    r := t.SetOption(h, ReceiveTimeout(3000));
    if r != ResultOk {
      return NoSocket;
    }
    r := t.SetOption(h, NoDelay(true));
    if r != ResultOk {
      return NoSocket;
    }
  }

  /** A socket created for IPv4 or IPv6 is live, probes as exactly its domain, and deletes cleanly. */
  method NewAndDelete(platform: Platform, domain: Domain) returns (created: Result, h: Handle, ipv4: bool, ipv6: bool, deleted: Result)
    requires SocketDomain(domain)
    ensures created == ResultOk && h != NoSocket
    ensures ipv4 <==> domain == DomainIPv4
    ensures ipv6 <==> domain == DomainIPv6
    ensures deleted == ResultOk
  {
    var t := new SocketTable(platform);
    created, h := t.New(domain);
    ipv4 := t.IsSocketIPv4(h);
    ipv6 := t.IsSocketIPv6(h);
    deleted := t.Delete(h);
  }

  /**
   * Creating a socket for an unknown domain fails with
   * address-family-not-supported and leaves `NoSocket`, which probes as
   * neither family and whose deletion gets the platform's bad-descriptor code.
   */
  method NewInvalidDomain(platform: Platform) returns (created: Result, h: Handle, ipv4: bool, ipv6: bool, deleted: Result)
    ensures created == ResultAfNoSupport && h == NoSocket
    ensures !ipv4 && !ipv6
    ensures deleted == BadDescriptor(platform)
    ensures platform == Posix ==> deleted == ResultBadF
    ensures platform == Windows ==> deleted == ResultNotSock
  {
    var t := new SocketTable(platform);
    created, h := t.New(DomainUnknown);
    ipv6 := t.IsSocketIPv6(h);
    ipv4 := t.IsSocketIPv4(h);
    deleted := t.Delete(h);
  }

  /** Enabling address reuse on a socket from `GetSocket` succeeds, and the socket deletes cleanly. */
  method SetReuseAddressOnLiveSocket(platform: Platform, domain: Domain) returns (h: Handle, reused: Result, deleted: Result)
    requires SocketDomain(domain)
    ensures h != NoSocket && reused == ResultOk && deleted == ResultOk
  {
    var t := new SocketTable(platform);
    h := GetSocket(t, domain);
    reused := t.SetOption(h, ReuseAddress(true));
    deleted := t.Delete(h);
  }

  /** Deleting `NoSocket` gets the platform's bad-descriptor code. */
  method DeleteInvalid(platform: Platform) returns (deleted: Result)
    ensures deleted == BadDescriptor(platform)
    ensures platform == Posix ==> deleted == ResultBadF
    ensures platform == Windows ==> deleted == ResultNotSock
  {
    var t := new SocketTable(platform);
    deleted := t.Delete(NoSocket);
  }

  /**
   * The steps the server tests share: the only socket of the table, unbound
   * and unconnected, binds `address` of its own family on port 9003 and listens.
   */
  method BindAndListen(t: SocketTable, h: Handle, address: Address) returns (bound: Result, listened: Result)
    requires t.Valid()
    requires t.sockets.Keys == {h} && t.sockets[h].local.None? && t.sockets[h].peer.None?
    requires address.family == t.sockets[h].domain
    modifies t
    ensures t.Valid()
    ensures bound == ResultOk && listened == ResultOk
    ensures t.sockets.Keys == {h}
    ensures t.sockets[h] == old(t.sockets)[h].(local := Some(Endpoint(address, 9003)), listening := true)
  {
    FreeWhenOthersUnbound(t.sockets, h, Endpoint(address, 9003));
    bound := t.Bind(h, address, 9003);
    listened := t.Listen(h, 1000);
  }

  /** Blocking mode switched on and then off on a socket from `GetSocket`: both succeed, and the socket deletes cleanly. */
  method SetBlockingBothWays(platform: Platform, domain: Domain) returns (h: Handle, on: Result, off: Result, deleted: Result)
    requires SocketDomain(domain)
    ensures h != NoSocket && on == ResultOk && off == ResultOk && deleted == ResultOk
  {
    var t := new SocketTable(platform);
    h := GetSocket(t, domain);
    on := t.SetBlocking(h, true);
    off := t.SetBlocking(h, false);
    deleted := t.Delete(h);
  }

  /** No-delay switched on and then off on a socket from `GetSocket`: both succeed, and the socket deletes cleanly. */
  method SetNoDelayBothWays(platform: Platform, domain: Domain) returns (h: Handle, on: Result, off: Result, deleted: Result)
    requires SocketDomain(domain)
    ensures h != NoSocket && on == ResultOk && off == ResultOk && deleted == ResultOk
  {
    var t := new SocketTable(platform);
    h := GetSocket(t, domain);
    on := t.SetOption(h, NoDelay(true));
    off := t.SetOption(h, NoDelay(false));
    deleted := t.Delete(h);
  }

  /**
   * Send and receive timeouts of 2000 set on a socket straight from `New`:
   * creation and both setters succeed, and the socket deletes cleanly.
   */
  method SetTimeouts(platform: Platform, domain: Domain) returns (created: Result, send: Result, receive: Result, deleted: Result)
    requires SocketDomain(domain)
    ensures created == ResultOk && send == ResultOk && receive == ResultOk && deleted == ResultOk
  {
    var t := new SocketTable(platform);
    var h;
    created, h := t.New(domain);
    send := t.SetOption(h, SendTimeout(2000));
    receive := t.SetOption(h, ReceiveTimeout(2000));
    deleted := t.Delete(h);
  }

  /**
   * A blocking client connecting to the loopback address and port of a
   * socket that is bound but never listens is refused, whether or not that
   * socket has already been deleted; the client then deletes cleanly. The
   * bound socket's own deletion, made by another thread, is not checked.
   * `port` stands for the port the system assigns to the bound socket, which
   * `GetName` reports.
   */
  method ConnectionRefused(platform: Platform, domain: Domain, service: string -> seq<Address>, port: nat, serverDeletedFirst: bool, route: Endpoint)
    returns (blocked: Result, resolved: Result, bound: Result, named: Result, connected: Result, deleted: Result)
    requires SocketDomain(domain)
    ensures blocked == ResultOk && resolved == ResultOk && bound == ResultOk && named == ResultOk
    ensures connected == ResultConnRefused && deleted == ResultOk
  {
    var t := new SocketTable(platform);
    var lookup := LoopbackAddress(domain, service);
    resolved := lookup.result;
    var server, client;
    server, client, blocked, bound := BindWithoutListening(t, domain, lookup.address.value, port);
    var name;
    named, name := t.GetName(server);
    var r;
    if serverDeletedFirst {
      r := t.Delete(server);
    }
    ConnectWithoutListener(t.sockets, platform, client, name.value);
    connected := t.Connect(client, name.value.address, name.value.port, route);
    deleted := t.Delete(client);
  }

  /**
   * The set-up of the refused connection: two sockets from `GetSocket`, the
   * client set blocking, the server bound to `address` and `port` without
   * listening.
   */
  method BindWithoutListening(t: SocketTable, domain: Domain, address: Address, port: nat)
    returns (server: Handle, client: Handle, blocked: Result, bound: Result)
    requires t.Valid() && SocketDomain(domain) && address.family == domain && t.sockets == map[]
    modifies t
    ensures t.Valid()
    ensures blocked == ResultOk && bound == ResultOk
    ensures t.sockets.Keys == {server, client} && server != client
    ensures t.sockets[client] == Created(domain)
    ensures t.sockets[server].local == Some(Endpoint(address, port))
    ensures forall k :: k in t.sockets ==> !t.sockets[k].listening
  {
    server := GetSocket(t, domain);
    client := GetSocket(t, domain);
    blocked := t.SetBlocking(client, true);
    FreeWhenOthersUnbound(t.sockets, server, Endpoint(address, port));
    bound := t.Bind(server, address, port);
  }

  /** A socket bound to the wildcard address of its family on port 9003 listens, then deletes cleanly. */
  method ServerSocket(platform: Platform, domain: Domain, service: string -> seq<Address>)
    returns (created: Result, resolved: Result, bound: Result, listened: Result, deleted: Result)
    requires SocketDomain(domain)
    ensures created == ResultOk && resolved == ResultOk && bound == ResultOk
    ensures listened == ResultOk && deleted == ResultOk
  {
    var t := new SocketTable(platform);
    var h;
    created, h := t.New(domain);
    var lookup := UniversalBindAddress(domain, service);
    resolved := lookup.result;
    bound, listened := BindAndListen(t, h, lookup.address.value);
    deleted := t.Delete(h);
  }

  /**
   * Two sockets of one family bound to the same wildcard address and port:
   * both are created and both resolutions succeed, the first bind succeeds,
   * the second fails with address-in-use, and both sockets delete cleanly.
   */
  method MultipleBind(platform: Platform, domain: Domain, service: string -> seq<Address>)
    returns (created1: Result, created2: Result, resolved1: Result, resolved2: Result,
             first: Result, second: Result, deleted1: Result, deleted2: Result)
    requires SocketDomain(domain)
    ensures created1 == ResultOk && created2 == ResultOk && resolved1 == ResultOk && resolved2 == ResultOk
    ensures first == ResultOk && second == ResultAddrInUse
    ensures deleted1 == ResultOk && deleted2 == ResultOk
  {
    var t := new SocketTable(platform);
    var socket1, socket2;
    created1, socket1 := t.New(domain);
    created2, socket2 := t.New(domain);
    var lookup1 := UniversalBindAddress(domain, service);
    resolved1 := lookup1.result;
    var lookup2 := UniversalBindAddress(domain, service);
    resolved2 := lookup2.result;
    var address1, address2 := lookup1.address.value, lookup2.address.value;
    FreeWhenOthersUnbound(t.sockets, socket1, Endpoint(address1, 9003));
    first := t.Bind(socket1, address1, 9003);
    SecondBindInUse(t.sockets, platform, socket1, socket2, Endpoint(address1, 9003), Endpoint(address2, 9003));
    second := t.Bind(socket2, address2, 9003);
    deleted1 := t.Delete(socket1);
    deleted2 := t.Delete(socket2);
  }

  /**
   * A new socket set non-blocking, bound to the wildcard address and
   * listening, with no connection pending, makes `Accept` return
   * would-block; it then deletes cleanly.
   */
  method AcceptWouldBlock(platform: Platform, domain: Domain, service: string -> seq<Address>)
    returns (created: Result, nonBlocking: Result, resolved: Result, bound: Result, listened: Result,
             accepted: Result, client: Handle, deleted: Result)
    requires SocketDomain(domain)
    ensures created == ResultOk && nonBlocking == ResultOk && resolved == ResultOk
    ensures bound == ResultOk && listened == ResultOk
    ensures accepted == ResultWouldBlock && client == NoSocket
    ensures deleted == ResultOk
  {
    var t := new SocketTable(platform);
    var h;
    created, h := t.New(domain);
    nonBlocking := t.SetBlocking(h, false);
    var lookup := UniversalBindAddress(domain, service);
    resolved := lookup.result;
    bound, listened := BindAndListen(t, h, lookup.address.value);
    var peer;
    accepted, client, peer := t.Accept(h);
    deleted := t.Delete(h);
  }

  /**
   * The server half of the suite's client and server: a new socket with
   * address reuse enabled resolves the loopback address of its family, binds
   * it on port 8008 and listens.
   */
  method StartServer(t: SocketTable, domain: Domain, service: string -> seq<Address>)
    returns (server: Handle, created: Result, reused: Result, resolved: Result, bound: Result, listened: Result)
    requires t.Valid() && SocketDomain(domain) && t.sockets == map[]
    modifies t
    ensures t.Valid()
    ensures created == ResultOk && reused == ResultOk && resolved == ResultOk
    ensures bound == ResultOk && listened == ResultOk
    ensures t.sockets.Keys == {server}
    ensures t.sockets[server] ==
      Created(domain).(local := Some(Endpoint(LoopbackAddress(domain, service).address.value, 8008)), listening := true)
  {
    created, server := t.New(domain);
    reused := t.SetOption(server, ReuseAddress(true));
    var lookup := LoopbackAddress(domain, service);
    resolved := lookup.result;
    var address := lookup.address.value;
    FreeWhenOthersUnbound(t.sockets, server, Endpoint(address, 8008));
    bound := t.Bind(server, address, 8008);
    listened := t.Listen(server, 1000);
  }

  /**
   * The client half of the suite's client and server: a socket from
   * `GetSocket` resolves the loopback address of its family and connects to
   * it on port 8008, where `server` listens, and the connection waits in the
   * server's queue.
   */
  method ConnectClient(t: SocketTable, server: Handle, domain: Domain, service: string -> seq<Address>, route: Endpoint)
    returns (socket: Handle, resolved: Result, connected: Result)
    requires t.Valid() && SocketDomain(domain) && t.sockets.Keys == {server}
    requires t.sockets[server].listening
    requires t.sockets[server].local == Some(Endpoint(LoopbackAddress(domain, service).address.value, 8008))
    requires t.sockets[server].pending == []
    modifies t
    ensures t.Valid()
    ensures resolved == ResultOk && connected == ResultOk
    ensures t.sockets.Keys == {server, socket} && socket != server
    ensures t.sockets[server].listening && |t.sockets[server].pending| == 1
  {
    socket := GetSocket(t, domain);
    var lookup := LoopbackAddress(domain, service);
    resolved := lookup.result;
    var address := lookup.address.value;
    ConnectToListener(t.sockets, t.platform, socket, server, Endpoint(address, 8008));
    connected := t.Connect(socket, address, 8008, route);
  }

  /**
   * The suite's client and server, one call at a time: the server is created
   * with address reuse, resolves the loopback address of its family, binds it
   * on port 8008 and listens; a client from `GetSocket` resolves the same
   * address and connects there; the server accepts a fresh connected socket;
   * all three sockets delete cleanly.
   */
  method ConnectAndAccept(platform: Platform, domain: Domain, service: string -> seq<Address>, route: Endpoint)
    returns (server: seq<Result>, resolved: Result, connected: Result, accepted: Result, client: Handle, deleted: seq<Result>)
    requires SocketDomain(domain)
    ensures server == [ResultOk, ResultOk, ResultOk, ResultOk, ResultOk]
    ensures resolved == ResultOk && connected == ResultOk && accepted == ResultOk && client != NoSocket
    ensures deleted == [ResultOk, ResultOk, ResultOk]
  {
    var t := new SocketTable(platform);
    var listener, created, reused, serverResolved, bound, listened := StartServer(t, domain, service);
    server := [created, reused, serverResolved, bound, listened];

    var socket;
    socket, resolved, connected := ConnectClient(t, listener, domain, service, route);

    var peer;
    accepted, client, peer := t.Accept(listener);
    var d1 := t.Delete(client);
    var d2 := t.Delete(listener);
    var d3 := t.Delete(socket);
    deleted := [d1, d2, d3];
  }

}
