/**
 * The socket-handle lifecycle of the socket layer: a table of live
 * descriptors, each created for one address family by `New`, optionally
 * bound to a local endpoint, listening with a queue of pending connections,
 * or connected, and destroyed by `Delete`. Every call returns one `Result`.
 * Which code an invalid descriptor gets is decided once, by the platform the
 * table was created for.
 */
module Sockets {

  import opened Optional
  import opened Addresses
  import opened Results

  /** A socket descriptor: a signed integer. */
  type Handle = int

  /** The sentinel for "no socket", written to the handle when `New` fails. */
  const NoSocket: Handle := -1

  /** An address with a port: what a socket binds to or connects to. */
  datatype Endpoint = Endpoint(address: Address, port: nat)

  /**
   * The state of one live stream socket: the domain it was created for, its
   * blocking mode, the local endpoint it is bound to, whether it listens,
   * the connections waiting to be accepted (each given by the endpoint of
   * the connecting side), and the endpoint of the other side once connected.
   */
  datatype Socket = Socket(
    domain: Domain,
    blocking: bool,
    local: Option<Endpoint>,
    listening: bool,
    pending: seq<Endpoint>,
    peer: Option<Endpoint>)

  /** The settings applied by the option setters, none of which the model records. */
  datatype SocketOption =
    | ReuseAddress(enabled: bool)   // SetReuseAddress
    | NoDelay(enabled: bool)        // SetNoDelay
    | SendTimeout(micros: nat)      // SetSendTimeout
    | ReceiveTimeout(micros: nat)   // SetReceiveTimeout

  /** A socket as `New` creates it: blocking, unbound, not listening, not connected. */
  function Created(domain: Domain): (s: Socket)
    ensures s.domain == domain && s.blocking
    ensures s.local.None? && !s.listening && s.pending == [] && s.peer.None?
  {
    Socket(domain, true, None, false, [], None)
  }

  /** The wildcard address: every byte zero, as `0.0.0.0` and `::` resolve. */
  predicate IsAny(a: Address) {
    a.bytes == Zeros16
  }

  /**
   * Two local endpoints that cannot both be bound: the same family and port,
   * and the same address or a wildcard on either side.
   */
  predicate Overlaps(e: Endpoint, f: Endpoint) {
    e.port == f.port && e.address.family == f.address.family
    && (e.address.bytes == f.address.bytes || IsAny(e.address) || IsAny(f.address))
  }

  /** Socket `s` is bound to an endpoint that overlaps `e`. */
  predicate Claims(s: Socket, e: Endpoint) {
    s.local.Some? && Overlaps(s.local.value, e)
  }

  /** Socket `s` listens on an endpoint that a connection to `e` arrives at. */
  predicate Listens(s: Socket, e: Endpoint) {
    s.listening && s.local.Some? && s.local.value.port == e.port
    && s.local.value.address.family == e.address.family
    && (s.local.value.address.bytes == e.address.bytes || IsAny(s.local.value.address))
  }

  /** A live socket other than `h` is bound to an endpoint overlapping `e`. */
  predicate InUse(sockets: map<Handle, Socket>, h: Handle, e: Endpoint) {
    exists k :: k in sockets && k != h && Claims(sockets[k], e)
  }

  /** Some live socket listens where a connection to `e` arrives. */
  predicate Reachable(sockets: map<Handle, Socket>, e: Endpoint) {
    exists k :: k in sockets && Listens(sockets[k], e)
  }

  /** The domains a stream socket can be created for: IPv4 and IPv6. */
  predicate SocketDomain(domain: Domain) {
    domain == DomainIPv4 || domain == DomainIPv6
  }

  /**
   * The states a socket can be in: created for IPv4 or IPv6, bound only
   * within its own family, listening only once bound and never while
   * connected, and holding pending connections only while listening.
   */
  predicate WellFormed(s: Socket) {
    SocketDomain(s.domain)
    && (s.local.Some? ==> s.local.value.address.family == s.domain)
    && (s.listening ==> s.local.Some? && s.peer.None?)
    && (|s.pending| > 0 ==> s.listening)
  }

  /** No two live sockets hold overlapping local endpoints. */
  predicate Exclusive(sockets: map<Handle, Socket>) {
    forall h, k :: h in sockets && k in sockets && h != k && sockets[h].local.Some? ==> !Claims(sockets[k], sockets[h].local.value)
  }

  /** Every live handle is below `next` and well-formed, and bound endpoints do not overlap. */
  predicate Consistent(sockets: map<Handle, Socket>, next: Handle) {
    0 <= next
    && (forall h :: h in sockets ==> 0 <= h < next && WellFormed(sockets[h]))
    && Exclusive(sockets)
  }

  /** Changes that keep every live socket's local endpoint keep the endpoints exclusive. */
  lemma ExclusiveKeptByLocals(before: map<Handle, Socket>, after: map<Handle, Socket>)
    requires Exclusive(before)
    requires after.Keys <= before.Keys
    requires forall h :: h in after ==> after[h].local == before[h].local
    ensures Exclusive(after)
  {
    forall j, k | j in after && k in after && j != k && after[j].local.Some?
      ensures !Claims(after[k], after[j].local.value)
    {
      assert !Claims(before[k], before[j].local.value);
    }
  }

  /** Adding an unbound socket under a new handle keeps the endpoints exclusive. */
  lemma ExclusiveKeptByUnbound(sockets: map<Handle, Socket>, h: Handle, s: Socket)
    requires Exclusive(sockets) && s.local.None?
    ensures Exclusive(sockets[h := s])
  {
    var after := sockets[h := s];
    forall j, k | j in after && k in after && j != k && after[j].local.Some?
      ensures !Claims(after[k], after[j].local.value)
    {
      if j != h && k != h {
        assert !Claims(sockets[k], sockets[j].local.value);
      }
    }
  }

  /** The outcome of `Bind(h, e)`, checked in this order: live handle, unbound, same family, endpoint free. */
  function BindResult(sockets: map<Handle, Socket>, platform: Platform, h: Handle, e: Endpoint): (r: Result)
    ensures r in {ResultOk, ResultInval, ResultAfNoSupport, ResultAddrInUse, BadDescriptor(platform)}
    ensures r == BadDescriptor(platform) <==> h !in sockets
    ensures r == ResultAddrInUse ==> exists k :: k in sockets && k != h && Claims(sockets[k], e)
    ensures r == ResultOk <==>
      h in sockets && sockets[h].local.None? && e.address.family == sockets[h].domain
      && forall k :: k in sockets && k != h ==> !Claims(sockets[k], e)
  {
    if h !in sockets then BadDescriptor(platform)
    else if sockets[h].local.Some? then ResultInval
    else if e.address.family != sockets[h].domain then ResultAfNoSupport
    else if InUse(sockets, h, e) then ResultAddrInUse
    else ResultOk
  }

  /** The outcome of `Listen(h)`: the socket must be live, bound and not connected. */
  function ListenResult(sockets: map<Handle, Socket>, platform: Platform, h: Handle): (r: Result)
    ensures r in {ResultOk, ResultInval, BadDescriptor(platform)}
    ensures r == BadDescriptor(platform) <==> h !in sockets
    ensures r == ResultOk <==> h in sockets && sockets[h].local.Some? && sockets[h].peer.None?
  {
    if h !in sockets then BadDescriptor(platform)
    else if sockets[h].local.None? || sockets[h].peer.Some? then ResultInval
    else ResultOk
  }

  /**
   * The outcome of `Connect(h, e)`: a live socket of `e`'s family that is
   * neither listening nor connected reaches `e` only if something listens there.
   */
  function ConnectResult(sockets: map<Handle, Socket>, platform: Platform, h: Handle, e: Endpoint): (r: Result)
    ensures r in {ResultOk, ResultAfNoSupport, ResultIsConn, ResultConnRefused, BadDescriptor(platform)}
    ensures r == BadDescriptor(platform) <==> h !in sockets
    ensures r == ResultOk ==> exists k :: k in sockets && Listens(sockets[k], e)
    ensures h in sockets && e.address.family == sockets[h].domain && !sockets[h].listening && sockets[h].peer.None? ==>
      (r == ResultOk <==> Reachable(sockets, e)) && (r == ResultConnRefused <==> !Reachable(sockets, e))
  {
    if h !in sockets then BadDescriptor(platform)
    else if e.address.family != sockets[h].domain then ResultAfNoSupport
    else if sockets[h].listening || sockets[h].peer.Some? then ResultIsConn
    else if Reachable(sockets, e) then ResultOk
    else ResultConnRefused
  }

  /**
   * The outcome of `Accept(h)`: a live listening socket gives its oldest
   * pending connection, or would-block when it is non-blocking and has none.
   */
  function AcceptResult(sockets: map<Handle, Socket>, platform: Platform, h: Handle): (r: Result)
    ensures r in {ResultOk, ResultInval, ResultWouldBlock, BadDescriptor(platform)}
    ensures r == BadDescriptor(platform) <==> h !in sockets
    ensures r == ResultWouldBlock <==> h in sockets && sockets[h].listening && sockets[h].pending == []
    ensures r == ResultOk <==> h in sockets && sockets[h].listening && |sockets[h].pending| > 0
  {
    if h !in sockets then BadDescriptor(platform)
    else if !sockets[h].listening then ResultInval
    else if |sockets[h].pending| == 0 then ResultWouldBlock
    else ResultOk
  }

  /** Operations that need a live socket report the platform's bad-descriptor code for anything else, and succeed otherwise. */
  function LiveResult(sockets: map<Handle, Socket>, platform: Platform, h: Handle): (r: Result)
    ensures r == ResultOk <==> h in sockets
    ensures r != ResultOk ==> r == BadDescriptor(platform)
  {
    if h in sockets then ResultOk else BadDescriptor(platform)
  }

  /** A successful bind keeps the table consistent: the new endpoint overlaps no other socket's. */
  lemma BindKeepsConsistent(before: map<Handle, Socket>, next: Handle, platform: Platform, h: Handle, e: Endpoint)
    requires Consistent(before, next)
    requires BindResult(before, platform, h, e) == ResultOk
    ensures Consistent(before[h := before[h].(local := Some(e))], next)
  {
    var after := before[h := before[h].(local := Some(e))];
    forall j, k | j in after && k in after && j != k && after[j].local.Some?
      ensures !Claims(after[k], after[j].local.value)
    {
      if j == h {
        assert !Claims(before[k], e);
      } else if k == h {
        assert !Claims(before[j], e);
      } else {
        assert !Claims(before[k], before[j].local.value);
      }
    }
    assert WellFormed(before[h]);
  }

  /** A successful listen keeps the table consistent: only a bound, unconnected socket starts listening. */
  lemma ListenKeepsConsistent(before: map<Handle, Socket>, next: Handle, platform: Platform, h: Handle)
    requires Consistent(before, next)
    requires ListenResult(before, platform, h) == ResultOk
    ensures Consistent(before[h := before[h].(listening := true)], next)
  {
    ExclusiveKeptByLocals(before, before[h := before[h].(listening := true)]);
    assert WellFormed(before[h]);
  }

  /** The table after listener `k` queues a connection from `source` and client `h` becomes connected to `e`. */
  function Enqueued(before: map<Handle, Socket>, h: Handle, k: Handle, e: Endpoint, source: Endpoint): (after: map<Handle, Socket>)
    requires h in before && k in before
    ensures after.Keys == before.Keys
  {
    before[k := before[k].(pending := before[k].pending + [source])][h := before[h].(peer := Some(e))]
  }

  /** The state after `Connect` succeeds: some listener `k` at `e` queues `source`, the client `h` is connected to `e`. */
  predicate Delivered(before: map<Handle, Socket>, after: map<Handle, Socket>, h: Handle, k: Handle, e: Endpoint, source: Endpoint) {
    h in before && k in before && Listens(before[k], e) && after == Enqueued(before, h, k, e, source)
  }

  /** A successful connection keeps the table consistent: no endpoint changes, and only a listener gains pending connections. */
  lemma ConnectKeepsConsistent(before: map<Handle, Socket>, next: Handle, h: Handle, k: Handle, e: Endpoint, source: Endpoint)
    requires Consistent(before, next)
    requires h in before && k in before && h != k
    requires Listens(before[k], e) && !before[h].listening
    ensures Consistent(Enqueued(before, h, k, e, source), next)
  {
    var after := Enqueued(before, h, k, e, source);
    ExclusiveKeptByLocals(before, after);
    forall j | j in after
      ensures 0 <= j < next && WellFormed(after[j])
    {
      assert WellFormed(before[j]);
    }
  }

  /**
   * The socket `Accept` creates for the oldest connection pending on
   * `listener`: unbound, connected to that peer, blocking on POSIX and of
   * the listener's mode on Windows.
   */
  function AcceptedSocket(listener: Socket, platform: Platform): (s: Socket)
    requires |listener.pending| > 0
    ensures s.domain == listener.domain && s.peer == Some(listener.pending[0])
    ensures s.blocking <==> platform == Posix || listener.blocking
    ensures s.local.None? && !s.listening && s.pending == []
  {
    Socket(listener.domain, platform == Posix || listener.blocking, None, false, [], Some(listener.pending[0]))
  }

  /** The table after listener `h` hands its oldest pending connection to the new socket `client`. */
  function Dequeued(before: map<Handle, Socket>, platform: Platform, h: Handle, client: Handle): (after: map<Handle, Socket>)
    requires h in before && |before[h].pending| > 0
    ensures after.Keys == before.Keys + {client}
  {
    before[h := before[h].(pending := before[h].pending[1..])][client := AcceptedSocket(before[h], platform)]
  }

  /** Accepting under the next unused handle keeps the table consistent. */
  lemma AcceptKeepsConsistent(before: map<Handle, Socket>, next: Handle, platform: Platform, h: Handle)
    requires Consistent(before, next)
    requires h in before && |before[h].pending| > 0
    ensures Consistent(Dequeued(before, platform, h, next), next + 1)
  {
    var popped := before[h := before[h].(pending := before[h].pending[1..])];
    ExclusiveKeptByLocals(before, popped);
    ExclusiveKeptByUnbound(popped, next, AcceptedSocket(before[h], platform));
    assert WellFormed(before[h]);
  }

  /**
   * The descriptor table of one process. `next` is the lowest number never
   * handed out; handles are not reused.
   */
  class SocketTable {

    const platform: Platform
    var sockets: map<Handle, Socket>
    var next: Handle

    /** Every live handle is below `next` and well-formed, and bound endpoints do not overlap. */
    ghost predicate Valid()
      reads this
    {
      Consistent(sockets, next)
    }

    /** An empty table for `platform`. */
    constructor (platform: Platform)
      ensures Valid() && this.platform == platform && sockets == map[]
    {
      this.platform := platform;
      sockets := map[];
      next := 0;
    }

    /** `IsSocketIPv4(h)`: `h` is a live socket created for IPv4; never true for `NoSocket`. */
    function IsSocketIPv4(h: Handle): (r: bool)
      reads this
      requires Valid()
      ensures r ==> h != NoSocket && h in sockets && !IsSocketIPv6(h)
      ensures h in sockets ==> (r <==> sockets[h].domain == DomainIPv4)
    {
      h in sockets && sockets[h].domain == DomainIPv4
    }

    /** `IsSocketIPv6(h)`: `h` is a live socket created for IPv6; never true for `NoSocket`. */
    function IsSocketIPv6(h: Handle): (r: bool)
      reads this
      requires Valid()
      ensures r ==> h != NoSocket && h in sockets
      ensures h in sockets ==> (r <==> sockets[h].domain == DomainIPv6)
    {
      h in sockets && sockets[h].domain == DomainIPv6
    }

    /**
     * `New(domain, TYPE_STREAM, PROTOCOL_TCP, &h)`: a fresh blocking socket
     * for IPv4 or IPv6; any other domain fails with address-family-not-supported
     * and leaves `NoSocket` in the handle.
     */
    method New(domain: Domain) returns (r: Result, h: Handle)
      requires Valid()
      modifies this
      ensures Valid()
      ensures r == ResultOk <==> SocketDomain(domain)
      ensures r == ResultOk ==> h != NoSocket && h !in old(sockets) && sockets == old(sockets)[h := Created(domain)]
      ensures r != ResultOk ==> r == ResultAfNoSupport && h == NoSocket && sockets == old(sockets)
    {
      if SocketDomain(domain) {
        h := next;
        sockets := sockets[h := Created(domain)];
        next := next + 1;
        r := ResultOk;
      } else {
        h := NoSocket;
        r := ResultAfNoSupport;
      }
    }

    /** `Delete(h)`: closes a live socket; anything else gets the platform's bad-descriptor code. */
    method Delete(h: Handle) returns (r: Result)
      requires Valid()
      modifies this
      ensures Valid()
      ensures r == LiveResult(old(sockets), platform, h)
      ensures sockets == old(sockets) - {h}
    {
      r := LiveResult(sockets, platform, h);
      sockets := sockets - {h};
    }

    /** `Bind(h, address, port)`: the socket takes the endpoint if no other live socket holds an overlapping one. */
    method Bind(h: Handle, address: Address, port: nat) returns (r: Result)
      requires Valid()
      modifies this
      ensures Valid()
      ensures r == BindResult(old(sockets), platform, h, Endpoint(address, port))
      ensures sockets == if r == ResultOk then old(sockets)[h := old(sockets)[h].(local := Some(Endpoint(address, port)))] else old(sockets)
    {
      var e := Endpoint(address, port);
      r := BindResult(sockets, platform, h, e);
      if r == ResultOk {
        BindKeepsConsistent(sockets, next, platform, h, e);
        sockets := sockets[h := sockets[h].(local := Some(e))];
      }
    }

    /** `Listen(h, backlog)`: a bound socket starts accepting connections; the backlog is not modelled. */
    method Listen(h: Handle, backlog: nat) returns (r: Result)
      requires Valid()
      modifies this
      ensures Valid()
      ensures r == ListenResult(old(sockets), platform, h)
      ensures sockets == if r == ResultOk then old(sockets)[h := old(sockets)[h].(listening := true)] else old(sockets)
    {
      r := ListenResult(sockets, platform, h);
      if r == ResultOk {
        ListenKeepsConsistent(sockets, next, platform, h);
        sockets := sockets[h := sockets[h].(listening := true)];
      }
    }

    /**
     * `Connect(h, address, port)`: when some socket listens there, the
     * connection joins its queue and `h` becomes connected. The connecting
     * side is seen as the socket's own endpoint if it is bound, and otherwise
     * as `route`, the endpoint the system picks for it.
     */
    method Connect(h: Handle, address: Address, port: nat, route: Endpoint) returns (r: Result)
      requires Valid()
      modifies this
      ensures Valid()
      ensures r == ConnectResult(old(sockets), platform, h, Endpoint(address, port))
      ensures r != ResultOk ==> sockets == old(sockets)
      ensures r == ResultOk ==>
        var source := if old(sockets)[h].local.Some? then old(sockets)[h].local.value else route;
        exists k :: Delivered(old(sockets), sockets, h, k, Endpoint(address, port), source)
    {
      var e := Endpoint(address, port);
      r := ConnectResult(sockets, platform, h, e);
      if r == ResultOk {
        var source := if sockets[h].local.Some? then sockets[h].local.value else route;
        var k :| k in sockets && Listens(sockets[k], e);
        ghost var before := sockets;
        ConnectKeepsConsistent(sockets, next, h, k, e, source);
        sockets := Enqueued(sockets, h, k, e, source);
        assert Delivered(before, sockets, h, k, e, source);
      }
    }

    /**
     * `Accept(h, &address, &client)`: takes the oldest pending connection of a
     * listening socket and returns a fresh connected socket with the peer's
     * address. A non-blocking socket with nothing pending returns would-block.
     * The accepted socket is blocking on POSIX and inherits the listener's
     * mode on Windows.
     */
    method Accept(h: Handle) returns (r: Result, client: Handle, peer: Option<Address>)
      requires Valid()
      requires h in sockets && sockets[h].listening && sockets[h].blocking ==> |sockets[h].pending| > 0
      modifies this
      ensures Valid()
      ensures r == AcceptResult(old(sockets), platform, h)
      ensures r != ResultOk ==> client == NoSocket && peer.None? && sockets == old(sockets)
      ensures r == ResultOk ==>
        client != NoSocket && client !in old(sockets) && peer == Some(old(sockets)[h].pending[0].address)
        && sockets == Dequeued(old(sockets), platform, h, client)
    {
      r := AcceptResult(sockets, platform, h);
      if r == ResultOk {
        client := next;
        peer := Some(sockets[h].pending[0].address);
        AcceptKeepsConsistent(sockets, next, platform, h);
        sockets := Dequeued(sockets, platform, h, client);
        next := next + 1;
      } else {
        client := NoSocket;
        peer := None;
      }
    }

    /** `SetBlocking(h, blocking)`: sets the mode of a live socket. */
    method SetBlocking(h: Handle, blocking: bool) returns (r: Result)
      requires Valid()
      modifies this
      ensures Valid()
      ensures r == LiveResult(old(sockets), platform, h)
      ensures sockets == if r == ResultOk then old(sockets)[h := old(sockets)[h].(blocking := blocking)] else old(sockets)
    {
      r := LiveResult(sockets, platform, h);
      if r == ResultOk {
        sockets := sockets[h := sockets[h].(blocking := blocking)];
      }
    }

    /**
     * `GetName(h, &address, &port)`: the local endpoint of a live socket, as
     * recorded by `Bind`; the platform's bad-descriptor code for anything else.
     */
    method GetName(h: Handle) returns (r: Result, name: Option<Endpoint>)
      requires Valid()
      ensures r == ResultOk <==> h in sockets
      ensures r != ResultOk ==> r == BadDescriptor(platform) && name.None?
      ensures r == ResultOk ==> name == sockets[h].local
    {
      r := LiveResult(sockets, platform, h);
      name := if r == ResultOk then sockets[h].local else None;
    }

    /** The option setters: success on a live socket, the bad-descriptor code otherwise; no modelled state changes. */
    method SetOption(h: Handle, option: SocketOption) returns (r: Result)
      requires Valid()
      ensures r == ResultOk <==> h in sockets
      ensures r != ResultOk ==> r == BadDescriptor(platform)
    {
      r := LiveResult(sockets, platform, h);
    }
  }

  /** Neither family probe holds for the sentinel, whatever the table holds. */
  lemma NoSocketIsNeitherFamily(t: SocketTable)
    requires t.Valid()
    ensures !t.IsSocketIPv4(NoSocket) && !t.IsSocketIPv6(NoSocket)
  {
  }

  /**
   * Once a socket holds `e`, binding any other live unbound socket of the same
   * family to an overlapping endpoint — in particular the same address and
   * port — fails with address-in-use.
   */
  lemma SecondBindInUse(sockets: map<Handle, Socket>, platform: Platform, first: Handle, second: Handle, e: Endpoint, f: Endpoint)
    requires first in sockets && second in sockets && first != second
    requires sockets[first].local == Some(e) && sockets[second].local.None?
    requires f.address.family == sockets[second].domain
    requires Overlaps(e, f)
    ensures BindResult(sockets, platform, second, f) == ResultAddrInUse
  {
    assert Claims(sockets[first], f);
  }

  /** When no socket other than `h` is bound, no endpoint is in use by another socket. */
  lemma FreeWhenOthersUnbound(sockets: map<Handle, Socket>, h: Handle, e: Endpoint)
    requires forall k :: k in sockets && k != h ==> sockets[k].local.None?
    ensures !InUse(sockets, h, e)
  {
  }

  /** A connection to the endpoint a socket listens on, from a fresh socket of the same family, is accepted into its queue. */
  lemma ConnectToListener(sockets: map<Handle, Socket>, platform: Platform, client: Handle, server: Handle, e: Endpoint)
    requires client in sockets && server in sockets
    requires sockets[server].listening && sockets[server].local == Some(e)
    requires sockets[client] == Created(e.address.family)
    ensures ConnectResult(sockets, platform, client, e) == ResultOk
  {
    assert Listens(sockets[server], e);
  }

  /** Connecting where nothing listens is refused, even when a socket is bound there without listening. */
  lemma ConnectWithoutListener(sockets: map<Handle, Socket>, platform: Platform, client: Handle, e: Endpoint)
    requires client in sockets && sockets[client] == Created(e.address.family)
    requires forall k :: k in sockets ==> !sockets[k].listening
    ensures ConnectResult(sockets, platform, client, e) == ResultConnRefused
  {
  }

}
