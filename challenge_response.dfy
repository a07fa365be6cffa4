/**
 * The challenge/response primitive shared by the beacon, the listeners and
 * the command session: a 32-byte random challenge and its 32-byte keyed
 * digest under the pre-shared key. The digest is BLAKE3 in keyed-hash mode;
 * it is not implemented here but passed in as a function value, so the model
 * assumes nothing about it beyond its output length.
 */
module ChallengeResponse {
  import opened Consts

  /** Length of a digest (`blake3::Hash` is 32 bytes). */
  const ANSWER_LENGTH: nat := 32

  type Key = s: seq<byte> | |s| == 32 witness seq(32, _ => 0)

  type Challenge = s: seq<byte> | |s| == CHALLENGE_LENGTH witness seq(32, _ => 0)

  type Digest = s: seq<byte> | |s| == ANSWER_LENGTH witness seq(32, _ => 0)

  /** `blake3::keyed_hash(key, bytes)`, left uninterpreted. */
  type KeyedHash = (seq<byte>, seq<byte>) -> Digest
}
