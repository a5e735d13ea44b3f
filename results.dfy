/**
 * The outcome codes of the socket layer (`dmSocket::Result`) that the
 * modelled operations produce, and the one place where the platform decides
 * which code an invalid descriptor gets.
 */
module Results {

  /** The `RESULT_*` codes the modelled operations return; every fallible operation returns exactly one. */
  datatype Result =
    | ResultOk             // RESULT_OK
    | ResultAfNoSupport    // RESULT_AFNOSUPPORT: the domain has no socket family
    | ResultAddrInUse      // RESULT_ADDRINUSE: another socket holds the address and port
    | ResultConnRefused    // RESULT_CONNREFUSED: nothing listens at the address and port
    | ResultWouldBlock     // RESULT_WOULDBLOCK: a non-blocking call could not complete now
    | ResultHostNotFound   // RESULT_HOST_NOT_FOUND: the name gives no address of an accepted family
    | ResultBadF           // RESULT_BADF: not a descriptor (POSIX)
    | ResultNotSock        // RESULT_NOTSOCK: not a socket (Windows)
    | ResultInval          // RESULT_INVAL: the socket is in the wrong state for the call
    | ResultIsConn         // RESULT_ISCONN: the socket is already connected or listening

  /** The platform family the socket layer was built for. */
  datatype Platform = Posix | Windows

  /**
   * The code for an operation on something that is not a live socket:
   * `RESULT_NOTSOCK` on Windows, `RESULT_BADF` elsewhere.
   */
  function BadDescriptor(platform: Platform): (r: Result)
    ensures r == ResultBadF <==> platform == Posix
    ensures r == ResultNotSock <==> platform == Windows
  {
    match platform
    case Posix => ResultBadF
    case Windows => ResultNotSock
  }

}
