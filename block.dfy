/** A block: its cached hash, the proof-of-work search and its check against
    its predecessor (src/block.rs). */
module Blocks {
  import opened Crypto
  import opened Errors
  import opened Transactions

  /** `"0".repeat(difficulty)`: difficulty counts hex digits, not bits. */
  function Target(difficulty: nat): (s: string)
    ensures |s| == difficulty
    ensures forall i :: 0 <= i < |s| ==> s[i] == '0'
  {
    seq(difficulty, _ => '0')
  }

  /** `hash.starts_with(&target)`. */
  predicate MeetsTarget(hash: string, difficulty: nat)
  {
    Target(difficulty) <= hash
  }

  /** The target read digit by digit: the first `difficulty` characters are '0'. */
  lemma MeetsTargetByDigits(hash: string, difficulty: nat)
    ensures MeetsTarget(hash, difficulty) <==>
              difficulty <= |hash| && forall i :: 0 <= i < difficulty ==> hash[i] == '0'
  {
    if difficulty <= |hash| && forall i :: 0 <= i < difficulty ==> hash[i] == '0' {
      assert hash[..difficulty] == Target(difficulty);
    }
  }

  /** The nonce `k` increments after `start`, with `u64` wrap-around. */
  function NonceAfter(start: U64, k: nat): U64
  {
    Wrap(start + k)
  }

  /** The digests of the transactions, in block order. */
  function TxHashes(d: Digests, txs: seq<Transaction>): (hs: seq<string>)
    ensures |hs| == |txs|
    ensures forall i :: 0 <= i < |txs| ==> hs[i] == Hash(d, txs[i])
  {
    if txs == [] then [] else [Hash(d, txs[0])] + TxHashes(d, txs[1..])
  }

  /** The transaction part of `Block::validate`: the error of the first
      transaction that fails, or success when all pass. */
  function ValidateAll(d: Digests, txs: seq<Transaction>): (r: Result)
    ensures r.Ok? <==> forall i :: 0 <= i < |txs| ==> Validate(d, txs[i]).Ok?
    ensures r.Err? ==> r.error.InvalidTransaction?
  {
    if txs == [] then Ok
    else
      var first := Validate(d, txs[0]);
      if first.Err? then first else ValidateAll(d, txs[1..])
  }

  /** The error `ValidateAll` reports is that of the first failing transaction. */
  lemma {:induction false} ValidateAllReportsFirst(d: Digests, txs: seq<Transaction>)
    requires ValidateAll(d, txs).Err?
    ensures exists i :: 0 <= i < |txs| && ValidateAll(d, txs) == Validate(d, txs[i]) &&
                        forall j :: 0 <= j < i ==> Validate(d, txs[j]).Ok?
  {
    if Validate(d, txs[0]).Err? {
      assert ValidateAll(d, txs) == Validate(d, txs[0]);
    } else {
      var rest := txs[1..];
      ValidateAllReportsFirst(d, rest);
      var i :| 0 <= i < |rest| && ValidateAll(d, rest) == Validate(d, rest[i]) &&
               forall j :: 0 <= j < i ==> Validate(d, rest[j]).Ok?;
      assert rest[i] == txs[i + 1];
      forall j | 0 <= j < i + 1 ensures Validate(d, txs[j]).Ok? {
        if j > 0 { assert txs[j] == rest[j - 1]; }
      }
    }
  }

  class Block {
    const id: Uuid
    const previousHash: string
    const transactions: seq<Transaction>
    const timestamp: Timestamp
    var nonce: U64
    var hash: string

    /** The hash the block would have with nonce `n`. */
    function HashAt(d: Digests, n: U64): string
    {
      d.block(id, previousHash, timestamp.seconds, n, TxHashes(d, transactions))
    }

    /** `Block::calculate_hash`: the hash of the current contents. It covers the
        id, the link, the whole seconds of the timestamp, the current nonce and
        the digest of each transaction in block order. */
    function CalculateHash(d: Digests): (h: string)
      reads this
      ensures h == d.block(id, previousHash, timestamp.seconds, nonce, TxHashes(d, transactions))
    {
      HashAt(d, nonce)
    }

    /** `Block::new`: the fresh id and the current time are parameters; the
        nonce starts at 0 and the hash is cached. */
    constructor (d: Digests, id: Uuid, now: Timestamp, previousHash: string, transactions: seq<Transaction>)
      ensures this.id == id && this.timestamp == now
      ensures this.previousHash == previousHash && this.transactions == transactions
      ensures nonce == 0 && hash == CalculateHash(d)
    {
      this.id := id;
      this.previousHash := previousHash;
      this.transactions := transactions;
      this.timestamp := now;
      nonce := 0;
      new;
      hash := CalculateHash(d);
    }

    /** `Block::mine`: raises the nonce one step at a time until the hash
        starts with `difficulty` zeros. The hash is opaque, so the search is cut
        off after `fuel` attempts; `found` tells whether it succeeded and
        `attempts` how many increments it made. Only nonce and hash change. */
    method Mine(d: Digests, difficulty: nat, fuel: nat) returns (found: bool, attempts: nat)
      modifies this
      ensures found <==> MeetsTarget(hash, difficulty)
      ensures attempts <= fuel && (!found ==> attempts == fuel)
      ensures nonce == NonceAfter(old(nonce), attempts)
      ensures MeetsTarget(old(hash), difficulty) ==> attempts == 0
      ensures attempts == 0 ==> hash == old(hash) && nonce == old(nonce)
      ensures difficulty == 0 ==> hash == old(hash) && nonce == old(nonce)
      ensures attempts > 0 ==> hash == CalculateHash(d)
      ensures forall k :: 0 < k < attempts ==> !MeetsTarget(HashAt(d, NonceAfter(old(nonce), k)), difficulty)
      ensures old(hash) == old(CalculateHash(d)) ==> hash == CalculateHash(d)
    {
      var target := Target(difficulty);
      attempts := 0;
      while !(target <= hash) && attempts < fuel
        invariant attempts <= fuel
        invariant nonce == NonceAfter(old(nonce), attempts)
        invariant attempts == 0 ==> hash == old(hash)
        invariant attempts > 0 ==> hash == CalculateHash(d)
        invariant forall k :: 0 < k < attempts ==> !MeetsTarget(HashAt(d, NonceAfter(old(nonce), k)), difficulty)
        invariant attempts > 0 ==> !MeetsTarget(old(hash), difficulty)
        decreases fuel - attempts
      {
        nonce := Wrap(nonce + 1);
        hash := CalculateHash(d);
        attempts := attempts + 1;
      }
      found := target <= hash;
    }

    /** The link `Block::validate` demands: the predecessor's hash, or the
        empty string for a genesis block. */
    predicate LinksTo(prev: Block?)
      reads prev
    {
      if prev == null then previousHash == "" else previousHash == prev.hash
    }

    /** `Block::validate`: cached hash, then link, then every transaction.
        The proof-of-work target is not re-checked. */
    function Validate(d: Digests, prev: Block?): (r: Result)
      reads this, prev
      ensures r == Err(BlockValidationFailed(InvalidHash)) <==> hash != CalculateHash(d)
      ensures hash == CalculateHash(d) && prev != null ==>
                (r == Err(BlockValidationFailed(InvalidPreviousHash)) <==> previousHash != prev.hash)
      ensures hash == CalculateHash(d) && prev == null ==>
                (r == Err(BlockValidationFailed(NonEmptyGenesisLink)) <==> previousHash != "")
      ensures r.Ok? <==> hash == CalculateHash(d) && LinksTo(prev) &&
                         forall i :: 0 <= i < |transactions| ==> Transactions.Validate(d, transactions[i]).Ok?
      ensures hash == CalculateHash(d) && LinksTo(prev) ==> r == ValidateAll(d, transactions)
    {
      if hash != CalculateHash(d) then
        Err(BlockValidationFailed(InvalidHash))
      else if prev != null && previousHash != prev.hash then
        Err(BlockValidationFailed(InvalidPreviousHash))
      else if prev == null && previousHash != "" then
        Err(BlockValidationFailed(NonEmptyGenesisLink))
      else
        ValidateAll(d, transactions)
    }
  }
}
