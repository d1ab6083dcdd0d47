/** The primitives the ledger takes from its libraries: fixed-width unsigned
    integers, UUIDs, UTC timestamps and the SHA-256 based digests. The digests
    are uninterpreted: they are function values handed to every operation that
    hashes, so each proof in this project holds for every choice of them. */
module Crypto {

  /** 2^64: the modulus of Rust's `u64` arithmetic. */
  const TwoTo64: int := 0x1_0000_0000_0000_0000

  type U64 = x: int | 0 <= x < TwoTo64

  /** Wrap-around `u64` arithmetic: the value a release build keeps after an
      addition or subtraction leaves the range. */
  function Wrap(x: int): (r: U64)
    ensures 0 <= x < TwoTo64 ==> r == x
    ensures x < 0 && -TwoTo64 <= x ==> r == x + TwoTo64
    ensures TwoTo64 <= x < 2 * TwoTo64 ==> r == x - TwoTo64
  {
    x % TwoTo64
  }

  /** A version 4 UUID (16 random bytes). */
  type Uuid = bv128

  /** A `DateTime<Utc>`: whole seconds since the epoch and the sub-second part. */
  datatype Timestamp = Timestamp(seconds: int, nanos: nat)

  /** The hashing the core performs, as opaque functions of exactly the data
      each one feeds to SHA-256 (lower-case hex of the result):
      - `signature`: id, sender, receiver, amount, whole seconds of the timestamp;
      - `transaction`: the JSON serialisation of every field of a transaction;
      - `block`: id, previous hash, whole seconds, nonce, the transaction digests. */
  datatype Digests = Digests(
    signature: (Uuid, string, string, U64, int) -> string,
    transaction: (Uuid, string, string, U64, Timestamp, string) -> string,
    block: (Uuid, string, int, U64, seq<string>) -> string)
}
