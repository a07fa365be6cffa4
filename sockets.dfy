/**
 * The TCP socket calls the rendezvous listeners make, recorded as events, and
 * the scripted outcomes of their connection attempts.
 */
module Sockets {
  import opened Consts

  /** A peer's IP address as the network stack reports it. */
  type IpAddress = seq<byte>

  /** The socket calls made, in order, plus the cancel signal sent to the beacon. */
  datatype TcpEvent =
    | SetTimeout(secs: nat)
    | Accept(port: nat)
    | ReadExact(len: nat)
    | RemoteEndpoint
    | Flush | Abort | Close
    | SendCancel(signal: bool)
    | Log(msg: string)

  /** How one pass of an accept loop goes: accept fails, the read fails, or a claim of type `C` arrives from `peer`. */
  datatype Attempt<C> = AcceptFailed | ReadFailed | Claim(payload: C, peer: IpAddress)

  /** The idle timeout of the listening socket. */
  const SOCKET_TIMEOUT_SECS: nat := 10

  /** The teardown of a rejected connection. */
  const DROP: seq<TcpEvent> := [Flush, Abort, Close]

  /** How often `e` occurs in `events`. */
  function Count(events: seq<TcpEvent>, e: TcpEvent): nat
  {
    multiset(events)[e]
  }
}
