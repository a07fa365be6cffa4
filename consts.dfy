/**
 * The shared protocol parameters of the node firmware (src/consts.rs), with
 * the arithmetic facts about them that the rest of the firmware relies on.
 */
module Consts {

  /** An unsigned 8-bit value, the Rust `u8`. */
  type byte = x: int | 0 <= x < 256

  /** Placeholder Wi-Fi credentials, rewritten by the build script. */
  const WIFI_NETWORK: string := "ssid"
  const WIFI_PASSWORD: string := "password"

  /** The pre-shared 256-bit key of the keyed hash; the committed value is all zero. */
  const SECRET_HASH_KEY: seq<byte> := seq(32, _ => 0)

  const CHALLENGE_LENGTH: nat := 32

  /** The multicast group of the discovery beacon, as a big-endian `u32`. */
  const MULTICAST_IP: nat := 3758096511
  const MULTICAST_PORT: nat := 4265

  /** The node's own TCP and UDP port. */
  const NODE_PORT: nat := 5325

  /** The server's TCP port that the node connects to. */
  const SERVER_PORT: nat := 7325

  /** Faults tolerated from a server before the session is dropped. */
  const FAULT_TOLERANCE: nat := 10

  /** Size of each socket buffer. */
  const STACK_BUFFER_SIZE: nat := 512

  /** The most any action needs, according to the comment beside STACK_BUFFER_SIZE. */
  const ACTION_BUDGET: nat := 150

  const U32_LIMIT: nat := 0x1_0000_0000

  /** The four octets of an IPv4 address held in a `u32`, most significant first (`Ipv4Addr::from_bits`). */
  function Octets(ip: nat): (o: seq<byte>)
    requires ip < U32_LIMIT
    ensures |o| == 4
  {
    [ip / 0x100_0000, ip / 0x1_0000 % 0x100, ip / 0x100 % 0x100, ip % 0x100]
  }

  /** The `u32` of four octets, most significant first (`Ipv4Addr::new`). */
  function FromOctets(o: seq<byte>): (ip: nat)
    requires |o| == 4
    ensures ip < U32_LIMIT
  {
    ((o[0] as int * 0x100 + o[1]) * 0x100 + o[2]) * 0x100 + o[3]
  }

  /** Reading a `u32` as octets and back gives the same address. */
  lemma OctetsRoundTrip(ip: nat)
    requires ip < U32_LIMIT
    ensures FromOctets(Octets(ip)) == ip
  {
    var a, b, c, d := ip / 0x100_0000, ip / 0x1_0000 % 0x100, ip / 0x100 % 0x100, ip % 0x100;
    assert ip / 0x100 == (ip / 0x1_0000) * 0x100 + c;
    assert ip / 0x1_0000 == a * 0x100 + b;
    assert ip == (ip / 0x100) * 0x100 + d;
  }

  /** Four octets packed into a `u32` unpack to the same octets. */
  lemma FromOctetsRoundTrip(o: seq<byte>)
    requires |o| == 4
    ensures Octets(FromOctets(o)) == o
  {
    var ip := FromOctets(o);
    var hi: int := (o[0] as int * 0x100 + o[1]) * 0x100 + o[2];
    assert ip / 0x100 == hi && ip % 0x100 == o[3];
    assert hi / 0x100 == o[0] as int * 0x100 + o[1] && hi % 0x100 == o[2];
    assert ip / 0x1_0000 == hi / 0x100;
    assert (o[0] as int * 0x100 + o[1]) / 0x100 == o[0] && (o[0] as int * 0x100 + o[1]) % 0x100 == o[1];
    assert ip / 0x100_0000 == (o[0] as int * 0x100 + o[1]) / 0x100;
  }

  /** MULTICAST_IP is 224.0.0.127. */
  lemma MulticastAddressIs224_0_0_127()
    ensures MULTICAST_IP == 224 * 0x100_0000 + 127
    ensures Octets(MULTICAST_IP) == [224, 0, 0, 127]
    ensures FromOctets([224, 0, 0, 127]) == MULTICAST_IP
  {
    FromOctetsRoundTrip([224, 0, 0, 127]);
  }

  /**
   * MULTICAST_IP lies in the Local Network Control Block 224.0.0.0/24
   * (section 4 of RFC 5771): its upper 24 bits are those of 224.0.0.0.
   */
  lemma MulticastInLocalNetworkControlBlock()
    ensures MULTICAST_IP / 0x100 == FromOctets([224, 0, 0, 0]) / 0x100
    ensures Octets(MULTICAST_IP)[..3] == [224, 0, 0]
  {
  }

  /** The committed key is 32 zero bytes. */
  lemma SecretKeyIsZeroPlaceholder()
    ensures |SECRET_HASH_KEY| == 32
    ensures forall i | 0 <= i < |SECRET_HASH_KEY| :: SECRET_HASH_KEY[i] == 0
  {
  }

  /** The stated action budget fits in a socket buffer, so anything within the budget does too. */
  lemma BudgetFitsStackBuffer(n: nat)
    requires n <= ACTION_BUDGET
    ensures n <= STACK_BUFFER_SIZE
  {
  }
}
