# dmSocket address and socket-handle model

A Dafny model of the deterministic core of Defold's `dmSocket` layer, as its
test suite `engine/dlib/src/test/test_socket.cpp` pins it down. The socket
implementation itself is not part of this model, so every operation is
written against the behaviour those tests assert.

The model has two parts.

- **Addresses.** An `Address` is a family tag plus sixteen bytes of storage,
  kept in memory order, which is network order. The C struct reads those
  bytes as four 32-bit words, `m_address[0..3]`, and the model uses that
  reading too.
  - A word is what a little-endian host reads from four bytes. For example,
    the tests write `0x0100007f` for 127.0.0.1.
  - The `IPv4` view is word 3 and the `IPv6` view starts at word 0. Neither
    view looks at the family.
  - `BitDifference` is the sum over the four words of the population count
    of their exclusive or. It is proved equal to the Hamming distance of
    the sixteen bytes.
  - `AddressToIPString` renders:
    - IPv4 as a dotted quad of the bytes of word 3;
    - IPv6 in the recommended text form of section 4 of RFC 5952.
  - Each text form has a parser that reads the formatted text back. For
    dotted quads the two are proved to be inverse bijections, because only
    canonical quads are read. The IPv6 parser also reads text the formatter
    never writes (uppercase digits, leading zeros, uncompressed zero runs), so
    there it is proved to be a left inverse only.
  - `GetHostByName` reads address literals with those parsers and filters
    them by the two family flags. Any other name goes to a name service,
    which is a parameter of the model.
- **Socket handles.** `SocketTable` is a class. It holds a map from
  descriptor to socket state, plus the next unused descriptor number.
  - `New`, `Delete`, `Bind`, `Listen`, `Connect`, `Accept`, `SetBlocking` and
    the option setters are methods. Each returns the `Result` code that a
    pure function of the old table gives.
  - Each method keeps the table's invariant: every live socket is
    well-formed, and no two bound endpoints overlap.
  - Whether an invalid descriptor gets `RESULT_BADF` or `RESULT_NOTSOCK`
    depends on the platform. That choice is made once, in `BadDescriptor`.
  - The `Scenarios` module replays the tests' call sequences against a fresh
    table. Each replay returns the result code of every call the test
    checks and proves that it is the code the test asserts. Send, Receive and
    the thread handshakes are not replayed (see "## Left out").

Files, from the bottom up:

| File | What it holds |
|---|---|
| `optional.dfy` | option type |
| `bits.dfy` | xor, population count, differing bits |
| `address.dfy` | the address, its word views and `BitDifference` |
| `numerals.dfy`, `fields.dfy` | decimal and hexadecimal numerals, joining and splitting fields |
| `ipv4_text.dfy`, `ipv6_text.dfy` | the two text forms and their parsers |
| `address_text.dfy` | `AddressToIPString` and its test vectors |
| `results.dfy` | result codes and the platform |
| `resolve.dfy` | `GetHostByName` |
| `sockets.dfy` | the descriptor table |
| `scenarios.dfy` | the test replays |

## Model

| member | source | states |
|---|---|---|
| Addresses.WordRoundTrip | engine/dlib/src/test/test_socket.cpp:163-174 | a host word and its four bytes convert into each other without loss, so reading `m_address[3]` recovers the network-order bytes |
| Addresses.WordAt | engine/dlib/src/test/test_socket.cpp:176-188 | word `i` is the little-endian reading of bytes `4i..4i+4` |
| Addresses.SetWord | engine/dlib/src/test/test_socket.cpp:143-147 | assigning `m_address[i]` writes exactly that word's four bytes and keeps the family and every other byte |
| Addresses.WordAtSetWord | engine/dlib/src/test/test_socket.cpp:143-147 | after writing word `i`, word `i` reads back the value written and every other word is unchanged |
| Addresses.IPv4 | engine/dlib/src/test/test_socket.cpp:176-181 | the IPv4 view is the word stored in bytes 12 to 15, which is slot 3 |
| Addresses.IPv6 | engine/dlib/src/test/test_socket.cpp:183-188 | the IPv6 view is the four words in slot order, starting at slot 0 |
| Addresses.ViewsAliasSlots | engine/dlib/src/test/test_socket.cpp:176-188 | neither view depends on the family tag; the IPv4 view is slot 3 of the IPv6 view; writing slot 3 (or slot 0) is seen through the IPv4 view (or the first IPv6 word) |
| Addresses.IPv6ViewDeterminesBytes | engine/dlib/src/test/test_socket.cpp:183-188 | the four words of the IPv6 view determine all sixteen bytes |
| Addresses.FromWords | engine/dlib/src/test/test_socket.cpp:779-785 | the address built from four words reads back exactly those words |
| Addresses.DefaultWordsZero | engine/dlib/src/test/test_socket.cpp:143-147 | the four words of a default address are zero |
| Addresses.OnlySlotThree | engine/dlib/src/test/test_socket.cpp:765-767 | a default address with only slot 3 set has the IPv6 words `0, 0, 0, w` |
| Addresses.BitDifference | engine/dlib/src/test/test_socket.cpp:141-161 | the difference of two addresses is at most 128 |
| Addresses.HammingDistance | engine/dlib/src/test/test_socket.cpp:141-161 | the reference count of differing bits over the sixteen bytes is at most 128 and zero for equal bytes |
| Addresses.BitDifferenceIsHammingDistance | engine/dlib/src/test/test_socket.cpp:141-161 | the word-wise popcount of the xor equals the number of differing bit positions over all sixteen bytes |
| Addresses.BitDifferenceZero | engine/dlib/src/test/test_socket.cpp:152-161 | the difference is 0 exactly when the bytes are equal |
| Addresses.BitDifferenceSymmetric | engine/dlib/src/test/test_socket.cpp:141-161 | the difference is symmetric |
| Addresses.BitDifferenceTriangle | engine/dlib/src/test/test_socket.cpp:141-161 | the difference satisfies the triangle inequality, so it is a metric on the bytes |
| Addresses.BitDifferenceIgnoresFamily | engine/dlib/src/test/test_socket.cpp:141-161 | the family tags play no part in the difference |
| Addresses.XorExample | engine/dlib/src/test/test_socket.cpp:141-161 | the popcount of `0 xor 0` is 0 and that of `0x4e xor 0xe6` is 3 |
| Addresses.DifferingBitsOfVector | engine/dlib/src/test/test_socket.cpp:141-150 | `0x4e` and `0xe6` differ in exactly 3 bit positions |
| Addresses.BitDifferenceExample | engine/dlib/src/test/test_socket.cpp:141-161 | default addresses with slot 3 set to `0x4e` and `0xe6` differ by 3; with both set to `0xe6` they differ by 0 |
| Bits.PopCountXorCountsDifferences | engine/dlib/src/test/test_socket.cpp:141-150 | the popcount of the xor of the low `k` bits is the number of positions where they differ |
| Bits.DifferingBitsZero | engine/dlib/src/test/test_socket.cpp:152-161 | two values of `k` bits differ in no position exactly when they are equal |
| Bits.DifferingBitsSymmetric | engine/dlib/src/test/test_socket.cpp:141-161 | differing positions are symmetric |
| Bits.DifferingBitsTriangle | engine/dlib/src/test/test_socket.cpp:141-161 | differing positions satisfy the triangle inequality |
| Bits.Xor | engine/dlib/src/test/test_socket.cpp:141-161 | the xor of two words is zero exactly when they are equal, and its popcount is the number of bit positions where they differ |
| Bits.PopCount | engine/dlib/src/test/test_socket.cpp:141-161 | a word's popcount is at most 32 and is zero exactly for the zero word |
| Numerals.NumeralRoundTrip | engine/dlib/src/test/test_socket.cpp:763-828 | reading back the numeral of `n` in any base from 2 to 16 gives `n` |
| Numerals.Numeral | engine/dlib/src/test/test_socket.cpp:812-828 | a numeral is non-empty, uses digit characters only, and has no leading zero |
| Numerals.HexLength | engine/dlib/src/test/test_socket.cpp:812-828 | the hexadecimal text of a 16-bit group has 1 to 4 digits |
| Numerals.DecimalLength | engine/dlib/src/test/test_socket.cpp:763-775 | the decimal text of a byte has 1 to 3 digits |
| Numerals.ParsedDecimalIsNumeral | engine/dlib/src/test/test_socket.cpp:763-775 | decimal text without a superfluous leading zero is exactly the numeral of the number it denotes |
| Fields.SplitJoin | engine/dlib/src/test/test_socket.cpp:763-828 | splitting the join of separator-free fields gives the fields back |
| Fields.JoinSplit | engine/dlib/src/test/test_socket.cpp:763-775 | rejoining the fields of any text with its separator gives the text back |
| IPv4Text.FormatIPv4 | engine/dlib/src/test/test_socket.cpp:763-775 | a dotted quad is 7 to 15 characters of decimal digits and dots |
| IPv4Text.ParseIPv4 | engine/dlib/src/test/test_socket.cpp:830-841 | a successful read yields exactly four bytes |
| IPv4Text.IPv4RoundTrip | engine/dlib/src/test/test_socket.cpp:763-775 | the dotted quad of four bytes reads back as those bytes |
| IPv4Text.IPv4Canonical | engine/dlib/src/test/test_socket.cpp:763-775 | text that reads as four bytes is exactly the dotted quad written for them, so formatting and reading are inverse bijections |
| IPv4Text.FormatIPv4Injective | engine/dlib/src/test/test_socket.cpp:763-775 | different bytes give different dotted quads |
| IPv4Text.ParseOctet | engine/dlib/src/test/test_socket.cpp:763-775 | an accepted octet has 1 to 3 digits and no leading zero |
| IPv6Text.Groups | engine/dlib/src/test/test_socket.cpp:812-828 | the eight big-endian 16-bit groups of the bytes give the bytes back |
| IPv6Text.GroupsRoundTrip | engine/dlib/src/test/test_socket.cpp:812-828 | the groups of the bytes of eight groups are those groups |
| IPv6Text.LongestZeroRun | engine/dlib/src/test/test_socket.cpp:777-828 | no run is chosen exactly when no two consecutive groups are zero; a chosen run is all zero, at least two long, as long as any run, and the first of equally long runs |
| IPv6Text.ChosenRunIsMaximal | engine/dlib/src/test/test_socket.cpp:777-828 | the chosen run cannot be extended to the left |
| IPv6Text.HexFields | engine/dlib/src/test/test_socket.cpp:812-828 | every group is written as its own hexadecimal numeral |
| IPv6Text.FormatIPv6 | engine/dlib/src/test/test_socket.cpp:777-828 | IPv6 text holds only colons and lowercase hexadecimal digits, and holds `::` exactly when two adjacent groups are zero |
| IPv6Text.ParseIPv6 | engine/dlib/src/test/test_socket.cpp:842-855 | a successful read yields exactly eight groups |
| IPv6Text.IPv6RoundTrip | engine/dlib/src/test/test_socket.cpp:777-828 | the text of any eight groups, with or without `::`, reads back as those groups |
| IPv6Text.CompressedRoundTrip | engine/dlib/src/test/test_socket.cpp:777-828 | replacing any stretch of one or more consecutive zero groups by `::`, whether or not it is a whole run, still reads back as the same groups |
| AddressText.AddressToIPString | engine/dlib/src/test/test_socket.cpp:763-828 | there is text exactly for the IPv4 and IPv6 families |
| AddressText.IPv4TextIsWordThree | engine/dlib/src/test/test_socket.cpp:763-775 | IPv4 text reads back as the bytes of word 3 |
| AddressText.IPv4TextIgnoresOtherWords | engine/dlib/src/test/test_socket.cpp:763-775 | words 0 to 2 play no part in IPv4 text |
| AddressText.IPv6TextIsAllBytes | engine/dlib/src/test/test_socket.cpp:777-828 | IPv6 text reads back as the groups of all sixteen bytes |
| AddressText.AddressTextDeterminesValue | engine/dlib/src/test/test_socket.cpp:763-828 | within a family, equal text means an equal IPv4 view or equal bytes |
| AddressText.IPv4LoopbackText | engine/dlib/src/test/test_socket.cpp:763-775 | word 3 `0x0100007f` renders as the nine characters `127.0.0.1` |
| AddressText.IPv6AnyAddressText | engine/dlib/src/test/test_socket.cpp:777-792 | the all-zero IPv6 address renders as `::` |
| AddressText.IPv6LoopbackText | engine/dlib/src/test/test_socket.cpp:794-810 | the words `0, 0, 0, 0x01000000` render as `::1` |
| AddressText.IPv6FullAddressText | engine/dlib/src/test/test_socket.cpp:812-828 | the words `0xd0410120, 0xade80800, 0, 0x01000000` render as `2001:41d0:8:e8ad::1` |
| AddressText.FullAddressRun | engine/dlib/src/test/test_socket.cpp:812-828 | in that vector, the zero run that gets compressed is groups 4 to 6 |
| Resolution.IPv4Address | engine/dlib/src/test/test_socket.cpp:163-174 | a resolved IPv4 address has the IPv4 family, its bytes in word 3, and words 0 to 2 zero |
| Resolution.IPv6Address | engine/dlib/src/test/test_socket.cpp:842-855 | a resolved IPv6 address has the IPv6 family and exactly the parsed groups |
| Resolution.ParseLiteral | engine/dlib/src/test/test_socket.cpp:830-855 | a literal denotes an IPv4 or an IPv6 address |
| Resolution.FirstAccepted | engine/dlib/src/test/test_socket.cpp:857-882 | nothing is taken exactly when no candidate has an accepted family; otherwise the first accepted candidate is taken |
| Resolution.GetHostByName | engine/dlib/src/test/test_socket.cpp:830-912 | success exactly when an address is written; the only outcomes are OK and host-not-found; with both flags false the lookup fails; the written address is of an accepted family |
| Resolution.UnknownNameNotFound | engine/dlib/src/test/test_socket.cpp:884-902 | a name that is no literal fails with host-not-found exactly when the name service knows no address of an accepted family |
| Resolution.LiteralsSkipNameService | engine/dlib/src/test/test_socket.cpp:830-855 | the result for a literal does not depend on the name service |
| Resolution.LiteralResolves | engine/dlib/src/test/test_socket.cpp:830-855 | a literal resolves to the address it denotes when its family is accepted, and to host-not-found otherwise |
| Resolution.IPv6TextIsNotDottedQuad | engine/dlib/src/test/test_socket.cpp:842-855 | IPv6 text is never read as a dotted quad |
| Resolution.ResolveIPv4Text | engine/dlib/src/test/test_socket.cpp:763-775 | the text of an IPv4 address with words 0 to 2 zero resolves back to that address |
| Resolution.ResolveIPv6Text | engine/dlib/src/test/test_socket.cpp:777-828 | the text of any IPv6 address resolves back to that address |
| Resolution.LoopbackIPv4Resolves | engine/dlib/src/test/test_socket.cpp:163-174 | `127.0.0.1` with the IPv4 flag resolves to an IPv4 address whose word 3 is `0x0100007f`; with only the IPv6 flag it fails |
| Resolution.LoopbackIPv6Resolves | engine/dlib/src/test/test_socket.cpp:842-855 | `::1` with the IPv6 flag resolves to an IPv6 address with words `0, 0, 0, 0x01000000`; with only the IPv4 flag it fails |
| Resolution.AnyIPv4Resolves | engine/dlib/src/test/test_socket.cpp:914-934 | `0.0.0.0` resolves to the IPv4 address whose words are all zero |
| Resolution.AnyIPv6Resolves | engine/dlib/src/test/test_socket.cpp:936-956 | `::` resolves to the IPv6 address whose words are all zero |
| Results.BadDescriptor | engine/dlib/src/test/test_socket.cpp:388-399 | an invalid descriptor gets `RESULT_BADF` exactly on POSIX and `RESULT_NOTSOCK` exactly on Windows |
| Sockets.Created | engine/dlib/src/test/test_socket.cpp:190-220 | a new socket has its creation domain and is blocking, unbound, not listening, without pending connections and unconnected |
| Sockets.ExclusiveKeptByLocals | engine/dlib/src/test/test_socket.cpp:958-1021 | changes that keep every local endpoint keep bound endpoints pairwise non-overlapping |
| Sockets.ExclusiveKeptByUnbound | engine/dlib/src/test/test_socket.cpp:190-220 | adding an unbound socket keeps bound endpoints non-overlapping |
| Sockets.BindResult | engine/dlib/src/test/test_socket.cpp:914-1021 | the bind outcome is one of OK, invalid, address-family-not-supported, address-in-use and the bad-descriptor code; bad descriptor exactly for a dead handle; address-in-use only when another live socket holds an overlapping endpoint; OK exactly for a live, unbound socket of the endpoint's family that no other socket overlaps |
| Sockets.ListenResult | engine/dlib/src/test/test_socket.cpp:914-956 | the listen outcome is OK, invalid or the bad-descriptor code; OK exactly for a live, bound, unconnected socket |
| Sockets.ConnectResult | engine/dlib/src/test/test_socket.cpp:405-554 | the connect outcome is one of five codes; bad descriptor exactly for a dead handle; OK only when some socket listens at the endpoint; for a live, idle socket of the endpoint's family, OK exactly when something listens there and connection-refused exactly when nothing does |
| Sockets.AcceptResult | engine/dlib/src/test/test_socket.cpp:1023-1081 | the accept outcome is OK, invalid, would-block or the bad-descriptor code; would-block exactly for a live listener with nothing pending; OK exactly for a live listener with a pending connection |
| Sockets.LiveResult | engine/dlib/src/test/test_socket.cpp:368-399 | OK exactly for a live handle; the platform's bad-descriptor code otherwise |
| Sockets.BindKeepsConsistent | engine/dlib/src/test/test_socket.cpp:958-1021 | a successful bind keeps the table consistent: the new endpoint overlaps no other bound endpoint |
| Sockets.ListenKeepsConsistent | engine/dlib/src/test/test_socket.cpp:914-956 | a successful listen keeps the table consistent |
| Sockets.ConnectKeepsConsistent | engine/dlib/src/test/test_socket.cpp:405-483 | queueing a connection at a listener and connecting the client keeps the table consistent |
| Sockets.AcceptedSocket | engine/dlib/src/test/test_socket.cpp:71-118 | the accepted socket has the listener's domain, is unbound, and is connected to the oldest pending peer; it is blocking on POSIX and inherits the listener's mode on Windows |
| Sockets.AcceptKeepsConsistent | engine/dlib/src/test/test_socket.cpp:71-118 | accepting under the next unused handle keeps the table consistent |
| Sockets.SocketTable.constructor | engine/dlib/src/test/test_socket.cpp:190-220 | the table starts empty and consistent |
| Sockets.SocketTable.IsSocketIPv4 | engine/dlib/src/test/test_socket.cpp:190-240 | true exactly for live sockets created for IPv4; never for -1; never together with the IPv6 probe |
| Sockets.SocketTable.IsSocketIPv6 | engine/dlib/src/test/test_socket.cpp:190-240 | true exactly for live sockets created for IPv6; never for -1 |
| Sockets.SocketTable.New | engine/dlib/src/test/test_socket.cpp:190-240 | OK exactly for IPv4 and IPv6, with a fresh handle other than -1 holding a newly created socket; any other domain gives `RESULT_AFNOSUPPORT`, handle -1 and an unchanged table |
| Sockets.SocketTable.Delete | engine/dlib/src/test/test_socket.cpp:368-399 | OK on a live socket, which is removed; the platform's bad-descriptor code otherwise |
| Sockets.SocketTable.Bind | engine/dlib/src/test/test_socket.cpp:914-1021 | the result is the bind outcome (bad descriptor, already bound, wrong family, address in use, OK, checked in that order); only success records the endpoint; the table stays consistent |
| Sockets.SocketTable.Listen | engine/dlib/src/test/test_socket.cpp:914-956 | OK on a live, bound, unconnected socket, which then listens; otherwise the table is unchanged |
| Sockets.SocketTable.Connect | engine/dlib/src/test/test_socket.cpp:405-554 | refused when nothing listens at the endpoint; on success exactly one listener there queues the connecting endpoint and the socket becomes connected; nothing else changes |
| Sockets.SocketTable.Accept | engine/dlib/src/test/test_socket.cpp:1023-1081 | a listener hands its oldest pending connection to a fresh handle and reports the peer's address; would-block when nothing is pending; otherwise nothing changes and the handle is -1 |
| Sockets.SocketTable.SetBlocking | engine/dlib/src/test/test_socket.cpp:655-687 | OK on a live socket, which takes the new mode; the bad-descriptor code otherwise |
| Sockets.SocketTable.SetOption | engine/dlib/src/test/test_socket.cpp:242-268 | an option setter succeeds exactly on a live socket and gives the platform's bad-descriptor code otherwise |
| Sockets.SocketTable.GetName | engine/dlib/src/test/test_socket.cpp:507-511 | OK exactly on a live socket, reporting the endpoint it is bound to; the bad-descriptor code and no endpoint otherwise |
| Sockets.NoSocketIsNeitherFamily | engine/dlib/src/test/test_socket.cpp:222-240 | neither family probe holds for -1 |
| Sockets.SecondBindInUse | engine/dlib/src/test/test_socket.cpp:958-1021 | once a socket holds an endpoint, binding another unbound socket of that family to an overlapping endpoint gives `RESULT_ADDRINUSE` |
| Sockets.FreeWhenOthersUnbound | engine/dlib/src/test/test_socket.cpp:914-956 | when no other socket is bound, no endpoint is in use |
| Sockets.ConnectToListener | engine/dlib/src/test/test_socket.cpp:405-483 | a fresh socket of the endpoint's family connects to a socket listening there |
| Sockets.ConnectWithoutListener | engine/dlib/src/test/test_socket.cpp:485-554 | a fresh socket is refused when nothing listens |
| Scenarios.UniversalBindAddress | engine/dlib/src/test/test_socket.cpp:914-956 | the universal bind address of a socket domain resolves to a wildcard address of that family |
| Scenarios.LoopbackAddress | engine/dlib/src/test/test_socket.cpp:87-89 | the loopback literal of a socket domain resolves to an address of that family |
| Scenarios.GetSocket | engine/dlib/src/test/test_socket.cpp:120-139 | the helper gives -1 exactly when the domain has no stream socket, and then leaves the table unchanged; otherwise a fresh handle holding a newly created socket |
| Scenarios.NewAndDelete | engine/dlib/src/test/test_socket.cpp:190-220 | `New` succeeds with a handle other than -1 whose probes match the domain exactly, and `Delete` succeeds |
| Scenarios.NewInvalidDomain | engine/dlib/src/test/test_socket.cpp:222-240 | `New(DOMAIN_UNKNOWN)` gives `RESULT_AFNOSUPPORT` and -1, both probes are false, and deleting -1 gives `RESULT_BADF` on POSIX and `RESULT_NOTSOCK` on Windows |
| Scenarios.SetReuseAddressOnLiveSocket | engine/dlib/src/test/test_socket.cpp:242-268 | setting reuse-address on a new socket and deleting it both succeed |
| Scenarios.DeleteInvalid | engine/dlib/src/test/test_socket.cpp:388-399 | deleting -1 gives `RESULT_BADF` on POSIX and `RESULT_NOTSOCK` on Windows |
| Scenarios.SetBlockingBothWays | engine/dlib/src/test/test_socket.cpp:655-687 | on a socket from the helper, blocking on, blocking off and the delete all succeed |
| Scenarios.SetNoDelayBothWays | engine/dlib/src/test/test_socket.cpp:689-721 | on a socket from the helper, no-delay on, no-delay off and the delete all succeed |
| Scenarios.SetTimeouts | engine/dlib/src/test/test_socket.cpp:723-761 | on a socket straight from `New`, creation, the send and receive timeouts of 2000 and the delete all succeed |
| Scenarios.ConnectionRefused | engine/dlib/src/test/test_socket.cpp:492-554 | setting the client blocking, resolving the loopback address, binding the server and reading its name all succeed; connecting to that name gives `RESULT_CONNREFUSED` whether or not the server is already deleted; the client's delete succeeds |
| Scenarios.BindAndListen | engine/dlib/src/test/test_socket.cpp:914-1081 | binding the only socket to port 9003 and listening both succeed |
| Scenarios.ServerSocket | engine/dlib/src/test/test_socket.cpp:914-956 | new, resolution of the universal address, bind, listen and delete all succeed |
| Scenarios.MultipleBind | engine/dlib/src/test/test_socket.cpp:958-1021 | both `New` calls and both resolutions succeed, the first bind succeeds, the second bind of the same address and port gives `RESULT_ADDRINUSE`, and both deletes succeed |
| Scenarios.AcceptWouldBlock | engine/dlib/src/test/test_socket.cpp:1023-1081 | `New`, `SetBlocking(false)`, the resolution, bind and listen succeed; `Accept` gives `RESULT_WOULDBLOCK` (and -1, a model choice); the delete succeeds |
| Scenarios.StartServer | engine/dlib/src/test/test_socket.cpp:71-95 | `New`, `SetReuseAddress`, the loopback resolution, bind on port 8008 and listen all succeed, leaving the only socket listening there |
| Scenarios.ConnectClient | engine/dlib/src/test/test_socket.cpp:405-426 | the client from `GetSocket` resolves the loopback address and connects to that listener, which then holds one pending connection |
| Scenarios.ConnectAndAccept | engine/dlib/src/test/test_socket.cpp:71-118 | the server's five set-up calls succeed, the client resolves and connects, the server accepts a handle other than -1, and all three deletes succeed |

## Left out

- `Send` and `Receive`, their payloads, and the `Timeout` test (engine/dlib/src/test/test_socket.cpp:1121-1190). They depend on wall-clock time and on kernel buffers.
- Threads and their timing (`WaitForBool`, `ServerThread`, `RefusingServerThread`). The scenarios replay the calls of both threads in one order that the threads allow.
- The name service. The external-lookup tests (engine/dlib/src/test/test_socket.cpp:857-902) are covered only through `service`, a parameter that maps a name to candidate addresses. The real lookup and its order of candidates are not modelled.
- `GetName` on connected sockets (engine/dlib/src/test/test_socket.cpp:560-653). The connecting side's own endpoint is the `route` parameter of `Connect`, and a connected client's local endpoint stays unrecorded, so `GetName` reports an endpoint only for a bound socket.
- Sockets.SocketTable.Accept: on failure the client handle is set to -1. The tests never read it after a failed accept, so this is a model choice.
- Sockets.Overlaps: only endpoints of the same family conflict. A dual-stack IPv6 socket bound to `::` with `IPV6_V6ONLY` off also holds the IPv4 port on Linux; that conflict is not modelled, and no test exercises it.
- `GetIfAddresses`, `SetMulticastIf` and `AddMembership` (engine/dlib/src/test/test_socket.cpp:270-366, 1092-1119). These enumerate or configure OS interfaces.
- `Initialize` and `Finalize`. They set up an OS subsystem and hold no state the tests observe.
- The socket type and protocol arguments of `New`. Only stream sockets over TCP are modelled.
- The listen backlog. It is accepted and ignored.
- Sockets.SocketTable.SetOption: the values of reuse-address, no-delay and the two timeouts are not recorded. Reuse-address therefore does not relax bind conflicts.
- Port 0, where the system picks an ephemeral port, is not distinguished. A port is a number given by the caller.
- Sockets.SocketTable.Accept: a blocking accept with nothing pending would suspend the caller. Its precondition excludes that case.
- Sockets.SocketTable.New: descriptor numbers are never reused. The system may reuse the number of a deleted descriptor.
- IPv6Text.FormatIPv6: the mixed notation of section 5 of RFC 5952 (a dotted quad in the last 32 bits) is not produced. The tie between equally long zero runs is resolved as section 4.2.3 of RFC 5952 says (the first run wins); no test asserts it.
- Sockets.BindResult: binding to an address of a different family than the socket's gives `RESULT_AFNOSUPPORT`. Binding an already bound socket gives `RESULT_INVAL`. Both are model choices, because the implementation is not part of this model.
- Sockets.ListenResult: listening on an unbound socket gives `RESULT_INVAL`. A POSIX system would bind it to an ephemeral port instead.
- Sockets.ConnectResult: connecting a listening or connected socket gives `RESULT_ISCONN`. Connecting to an address of another family gives `RESULT_AFNOSUPPORT`.
- Sockets.AcceptedSocket: the accepted socket's blocking mode is a model choice that follows Linux: blocking on POSIX, and the listener's mode on Windows. BSD and macOS let the accepted socket inherit the listener's non-blocking flag, which this model does not capture.
- Sockets.ConnectResult: the client's blocking mode plays no part. A non-blocking connect that would report the connection as in progress (would-block) is not modelled; every connect the tests make is on a blocking client.
- Resolution.ParseLiteral: only strict dotted quads and IPv6 text in the first two forms of section 2.2 of RFC 4291 (no embedded dotted quad) are literals. Forms the system resolver also reads numerically, such as `127.1`, leading-zero quads or `::ffff:1.2.3.4`, go to the name service instead.
- AddressText.AddressToIPString: there is no text for the missing and unknown families. The implementation's behaviour there is not part of this model.
- Word width: words are integers below 2^32 and bytes integers below 2^8, so no C overflow arises in the modelled operations.
- share/waf_dynamo.py, engine/texc/src/texc.h, dlib/src/dlib/hash.h, engine/dlib/src/dlib/crypt.h and engine/gui/src/gui_script.h are not part of this model. They hold build scripting or declarations without bodies.
