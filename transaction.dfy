/** A value transfer: its constructor, its self-computed signature and its
    validation (src/transaction.rs). */
module Transactions {
  import opened Crypto
  import opened Errors

  datatype Transaction = Transaction(
    id: Uuid,
    from: string,
    to: string,
    amount: U64,
    timestamp: Timestamp,
    signature: string)

  /** The signature over id, endpoints, amount and the WHOLE seconds of the
      timestamp: the sub-second part is not signed. */
  function CalculateSignature(d: Digests, id: Uuid, from: string, to: string, amount: U64, timestamp: Timestamp): (sig: string)
    ensures sig == d.signature(id, from, to, amount, timestamp.seconds)
  {
    d.signature(id, from, to, amount, timestamp.seconds)
  }

  /** The digest of the whole record (SHA-256 of its JSON form): unlike the
      signature, it covers the signature itself and the full timestamp. */
  function Hash(d: Digests, t: Transaction): (h: string)
    ensures h == d.transaction(t.id, t.from, t.to, t.amount, t.timestamp, t.signature)
  {
    d.transaction(t.id, t.from, t.to, t.amount, t.timestamp, t.signature)
  }

  /** Everything `Validate` demands, stated at once rather than as ordered checks. */
  predicate WellFormed(d: Digests, t: Transaction)
  {
    && t.amount > 0
    && t.from != t.to
    && t.from != ""
    && t.to != ""
    && t.signature == CalculateSignature(d, t.id, t.from, t.to, t.amount, t.timestamp)
  }

  /** `Transaction::new`: the fresh id and the current time are parameters. The
      record it builds validates exactly when its amount and endpoints do. */
  function New(d: Digests, id: Uuid, now: Timestamp, from: string, to: string, amount: U64): (t: Transaction)
    ensures t.id == id && t.timestamp == now
    ensures t.from == from && t.to == to && t.amount == amount
    ensures Validate(d, t).Ok? <==> amount > 0 && from != to && from != "" && to != ""
    ensures Validate(d, t) != Err(InvalidTransaction(BadSignature))
  {
    Transaction(id, from, to, amount, now, CalculateSignature(d, id, from, to, amount, now))
  }

  /** `Transaction::validate`: the checks run in the order amount, same
      endpoints, empty endpoint, signature, and the first failing one decides. */
  function Validate(d: Digests, t: Transaction): (r: Result)
    ensures r.Ok? <==> WellFormed(d, t)
    ensures r.Err? ==> r.error.InvalidTransaction?
    ensures t.amount == 0 ==> r == Err(InvalidTransaction(ZeroAmount))
    ensures t.amount != 0 && t.from == t.to ==> r == Err(InvalidTransaction(SameParties))
    ensures t.amount != 0 && t.from != t.to && (t.from == "" || t.to == "") ==>
              r == Err(InvalidTransaction(EmptyAddress))
    ensures r == Err(InvalidTransaction(BadSignature)) <==>
              t.amount != 0 && t.from != t.to && t.from != "" && t.to != "" &&
              t.signature != CalculateSignature(d, t.id, t.from, t.to, t.amount, t.timestamp)
  {
    if t.amount == 0 then
      Err(InvalidTransaction(ZeroAmount))
    else if t.from == t.to then
      Err(InvalidTransaction(SameParties))
    else if t.from == "" || t.to == "" then
      Err(InvalidTransaction(EmptyAddress))
    else if t.signature != CalculateSignature(d, t.id, t.from, t.to, t.amount, t.timestamp) then
      Err(InvalidTransaction(BadSignature))
    else
      Ok
  }

  /** A sender-less credit (the "genesis" transactions the demos build) never
      validates, whatever its amount and signature. */
  lemma SenderlessNeverValidates(d: Digests, t: Transaction)
    requires t.from == ""
    ensures Validate(d, t).Err?
    ensures t.amount > 0 && t.to != "" ==> Validate(d, t) == Err(InvalidTransaction(EmptyAddress))
    ensures t.to == "" && t.amount > 0 ==> Validate(d, t) == Err(InvalidTransaction(SameParties))
  {
  }

  /** Only the whole seconds are signed: two records that differ only in the
      sub-second part of their timestamp validate alike. */
  lemma SubsecondTimeUnsigned(d: Digests, t: Transaction, nanos: nat)
    ensures Validate(d, t.(timestamp := Timestamp(t.timestamp.seconds, nanos))) == Validate(d, t)
  {
  }
}
