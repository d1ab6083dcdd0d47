/** The ledger state machine (src/ledger.rs): a chain starting from genesis,
    a balance table, a pool of admitted transaction ids and a bounded FIFO
    queue, driven sequentially. */
module Ledger {
  import opened Crypto
  import opened Errors
  import opened Transactions
  import opened Blocks
  import opened Balances

  /** The bound of the processing channel. */
  const QueueCapacity: nat := 100_000

  /** The proof-of-work target `process_transactions` mines to. */
  const MiningDifficulty: nat := 2

  function Min(a: nat, b: nat): nat
  {
    if a <= b then a else b
  }

  /** The number of transactions in a sequence of blocks (a left fold, as the
      iterator sum is). */
  function CountTransactions(bs: seq<Block>): nat
  {
    if bs == [] then 0 else |bs[0].transactions| + CountTransactions(bs[1..])
  }

  lemma {:induction false} CountTransactionsAppend(bs: seq<Block>, b: Block)
    ensures CountTransactions(bs + [b]) == CountTransactions(bs) + |b.transactions|
  {
    if bs != [] {
      assert (bs + [b])[1..] == bs[1..] + [b];
      CountTransactionsAppend(bs[1..], b);
    }
  }

  /** The transactions of a sequence of blocks, in chain order and, within a
      block, in inclusion order. */
  function ChainTransactions(bs: seq<Block>): (txs: seq<Transaction>)
    ensures |txs| == CountTransactions(bs)
  {
    if bs == [] then [] else bs[0].transactions + ChainTransactions(bs[1..])
  }

  lemma {:induction false} ChainTransactionsAppend(bs: seq<Block>, b: Block)
    ensures ChainTransactions(bs + [b]) == ChainTransactions(bs) + b.transactions
  {
    if bs != [] {
      assert (bs + [b])[1..] == bs[1..] + [b];
      ChainTransactionsAppend(bs[1..], b);
    }
  }

  /** Every transaction of `s` has its id in the pool, and no id occurs twice. */
  predicate PooledOnce(s: seq<Transaction>, pool: map<Uuid, Transaction>)
  {
    && (forall i :: 0 <= i < |s| ==> s[i].id in pool)
    && forall i, j :: 0 <= i < j < |s| ==> s[i].id != s[j].id
  }

  /** Splitting a sequence whose ids are pooled once: each part has its ids
      pooled once, and no id occurs in both parts. Applied to the chain and the
      queue, no transaction is included twice, in the chain or in the queue. */
  lemma PooledOnceSplit(a: seq<Transaction>, b: seq<Transaction>, pool: map<Uuid, Transaction>)
    requires PooledOnce(a + b, pool)
    ensures PooledOnce(a, pool) && PooledOnce(b, pool)
    ensures forall i, j :: 0 <= i < |a| && 0 <= j < |b| ==> a[i].id != b[j].id
  {
    var s := a + b;
    forall i, j | 0 <= i < |a| && 0 <= j < |b| ensures a[i].id != b[j].id {
      assert s[i] == a[i] && s[|a| + j] == b[j];
    }
    forall i | 0 <= i < |b| ensures b[i].id in pool {
      assert s[|a| + i] == b[i];
    }
    forall i, j | 0 <= i < j < |b| ensures b[i].id != b[j].id {
      assert s[|a| + i] == b[i] && s[|a| + j] == b[j];
    }
    forall i | 0 <= i < |a| ensures a[i].id in pool {
      assert s[i] == a[i];
    }
    forall i, j | 0 <= i < j < |a| ensures a[i].id != a[j].id {
      assert s[i] == a[i] && s[j] == a[j];
    }
  }

  /** Leaving out a middle part keeps the ids pooled once. */
  lemma PooledOnceDropMiddle(a: seq<Transaction>, b: seq<Transaction>, c: seq<Transaction>, pool: map<Uuid, Transaction>)
    requires PooledOnce(a + b + c, pool)
    ensures PooledOnce(a + c, pool)
  {
    var s, t := a + b + c, a + c;
    forall i | 0 <= i < |t| ensures t[i] == s[if i < |a| then i else i + |b|] {
    }
  }

  /** Appending a transaction whose id is not yet pooled, and pooling it,
      keeps the ids pooled once. */
  lemma PooledOnceExtend(s: seq<Transaction>, t: Transaction, pool: map<Uuid, Transaction>)
    requires PooledOnce(s, pool) && t.id !in pool
    ensures PooledOnce(s + [t], pool[t.id := t])
  {
    var u := s + [t];
    forall i | 0 <= i < |s| ensures u[i] == s[i] && u[i].id != t.id {
    }
  }

  /** Appending a block that holds the batch moves the batch from between the
      chain and the queue into the chain, so the ids stay pooled once. */
  lemma CommitKeepsPooledOnce(bs: seq<Block>, b: Block, queue: seq<Transaction>, pool: map<Uuid, Transaction>)
    requires PooledOnce(ChainTransactions(bs) + b.transactions + queue, pool)
    ensures PooledOnce(ChainTransactions(bs + [b]) + queue, pool)
  {
    ChainTransactionsAppend(bs, b);
  }

  /** What a chain owned by the ledger satisfies: a genesis block with an empty
      link and no transactions, and every later block valid against its
      predecessor and meeting the mining target. */
  ghost predicate ChainValid(d: Digests, bs: seq<Block>)
    reads bs
  {
    && |bs| >= 1
    && bs[0].transactions == []
    && bs[0].Validate(d, null).Ok?
    && forall i :: 0 < i < |bs| ==> bs[i].Validate(d, bs[i - 1]).Ok? && MeetsTarget(bs[i].hash, MiningDifficulty)
  }

  /** Chain linkage: every block after genesis names its predecessor's hash,
      and every cached hash is current. */
  lemma ChainLinked(d: Digests, bs: seq<Block>)
    requires ChainValid(d, bs)
    ensures bs[0].previousHash == ""
    ensures forall i :: 0 < i < |bs| ==> bs[i].previousHash == bs[i - 1].hash
    ensures forall i :: 0 <= i < |bs| ==> bs[i].hash == bs[i].CalculateHash(d)
  {
    forall i | 0 <= i < |bs| ensures bs[i].hash == bs[i].CalculateHash(d) {
      if i > 0 { assert bs[i].Validate(d, bs[i - 1]).Ok?; }
    }
  }

  /** Appending a block that validates against the tip and meets the target
      keeps the chain valid. */
  lemma ChainExtend(d: Digests, bs: seq<Block>, b: Block)
    requires ChainValid(d, bs)
    requires b.Validate(d, bs[|bs| - 1]).Ok? && MeetsTarget(b.hash, MiningDifficulty)
    ensures ChainValid(d, bs + [b])
  {
    var cs := bs + [b];
    forall i | 0 < i < |cs|
      ensures cs[i].Validate(d, cs[i - 1]).Ok? && MeetsTarget(cs[i].hash, MiningDifficulty)
    {
      if i < |bs| {
        assert cs[i] == bs[i] && cs[i - 1] == bs[i - 1];
      }
    }
  }

  /** The admission gate of `add_transaction`: validation, then the duplicate
      check, then the sender's balance (missing reads as 0), then room in the
      queue. */
  function Admission(d: Digests, pool: map<Uuid, Transaction>, balances: Accounts, queued: nat, t: Transaction): (r: Result)
    ensures Validate(d, t).Err? ==> r == Validate(d, t)
    ensures Validate(d, t).Ok? && t.id in pool ==> r == Err(DuplicateTransaction)
    ensures Validate(d, t).Ok? && t.id !in pool && Balance(balances, t.from) < t.amount ==>
              r == Err(InsufficientBalance)
    ensures Validate(d, t).Ok? && t.id !in pool && Balance(balances, t.from) >= t.amount && queued >= QueueCapacity ==>
              r == Err(PerformanceLimitExceeded(QueueFull))
    ensures r.Ok? <==> WellFormed(d, t) && t.id !in pool && Balance(balances, t.from) >= t.amount && queued < QueueCapacity
  {
    var v := Validate(d, t);
    if v.Err? then v
    else if t.id in pool then Err(DuplicateTransaction)
    else if t.from != "" && Balance(balances, t.from) < t.amount then Err(InsufficientBalance)
    else if queued >= QueueCapacity then Err(PerformanceLimitExceeded(QueueFull))
    else Ok
  }

  /** The id is pooled before the queue is tried, so a transaction refused for
      a full queue is refused as a duplicate afterwards. */
  lemma FullQueueThenDuplicate(d: Digests, pool: map<Uuid, Transaction>, balances: Accounts, queued: nat,
                                laterBalances: Accounts, later: nat, t: Transaction)
    requires Admission(d, pool, balances, queued, t) == Err(PerformanceLimitExceeded(QueueFull))
    ensures Admission(d, pool[t.id := t], laterBalances, later, t) == Err(DuplicateTransaction)
  {
  }

  /** An admitted transaction's sender already has an account holding at least
      its positive amount, so processing it never takes the `or_insert(0)`
      branch for the sender. */
  lemma AdmittedSenderHasAccount(d: Digests, pool: map<Uuid, Transaction>, balances: Accounts, queued: nat, t: Transaction)
    requires Admission(d, pool, balances, queued, t).Ok?
    ensures t.from in balances && balances[t.from] >= t.amount > 0
  {
  }

  /** While every balance is 0 nothing is admitted: the balance check needs a
      positive balance, and the sender-less credits that skip it never
      validate. `DistributedLedger.AddTransaction` and `ProcessTransactions`
      use this to keep a ledger built by `new` unfunded forever. */
  lemma UnfundedAdmitsNothing(d: Digests, pool: map<Uuid, Transaction>, balances: Accounts, queued: nat, t: Transaction)
    requires forall a :: a in balances ==> balances[a] == 0
    ensures Admission(d, pool, balances, queued, t).Err?
  {
  }

  /** Two transfers of 5 from an account holding 5 are both admitted against
      the same balances, and processing them together wraps the sender. */
  lemma JointOverdraftAdmitted(d: Digests, id1: Uuid, id2: Uuid, now: Timestamp)
    requires id1 != id2
    ensures var t1 := New(d, id1, now, "alice", "bob", 5);
            var t2 := New(d, id2, now, "alice", "bob", 5);
            var m: Accounts := map["alice" := 5];
            && Admission(d, map[], m, 0, t1) == Ok
            && Admission(d, map[id1 := t1], m, 1, t2) == Ok
            && ApplyBatch(m, [t1, t2])["alice"] == TwoTo64 - 5
  {
    var t1 := New(d, id1, now, "alice", "bob", 5);
    var t2 := New(d, id2, now, "alice", "bob", 5);
    JointOverdraftWraps(t1, t2);
  }

  /** `after` is `before` with one block appended: it holds `batch` in
      order, links to `tipHash`, carries the given id and time, meets the
      mining target, and adds |batch| to the transaction count. */
  ghost predicate Appended(before: seq<Block>, after: seq<Block>, tipHash: string, batch: seq<Transaction>, id: Uuid, now: Timestamp)
    reads after
  {
    && |after| == |before| + 1
    && after[..|before|] == before
    && after[|before|].transactions == batch
    && after[|before|].previousHash == tipHash
    && after[|before|].id == id
    && after[|before|].timestamp == now
    && MeetsTarget(after[|before|].hash, MiningDifficulty)
    && CountTransactions(after) == CountTransactions(before) + |batch|
  }

  /** The end of one `process_transactions` call. `StillMining` stands for a
      call whose nonce search did not succeed within its fuel: the real call
      keeps searching and never returns, and what others can observe is the
      drained queue and the updated balances without a new block. */
  datatype ProcessOutcome = Returned(result: Result) | StillMining

  class DistributedLedger {
    const digests: Digests
    var blocks: seq<Block>
    var balances: Accounts
    var pool: map<Uuid, Transaction>
    var queue: seq<Transaction>

    ghost predicate Valid()
      reads this, blocks
    {
      && ChainValid(digests, blocks)
      && |queue| <= QueueCapacity
      && (forall i :: 0 <= i < |queue| ==> Validate(digests, queue[i]).Ok? && queue[i].from in balances)
      && PooledOnce(ChainTransactions(blocks) + queue, pool)
    }

    /** No account holds anything and nothing waits to be processed: the state
        `new` leaves, and (by the contracts of `AddTransaction` and
        `ProcessTransactions`) the only state reachable from it. */
    ghost predicate Unfunded()
      reads this
    {
      queue == [] && forall a :: a in balances ==> balances[a] == 0
    }

    /** `DistributedLedger::new`: the genesis block's id and time are parameters. */
    constructor (d: Digests, genesisId: Uuid, now: Timestamp)
      ensures Valid() && digests == d
      ensures |blocks| == 1 && fresh(blocks[0])
      ensures blocks[0].previousHash == "" && blocks[0].transactions == [] && blocks[0].nonce == 0
      ensures balances == map[] && pool == map[] && queue == []
      ensures Unfunded()
    {
      digests := d;
      blocks := [];
      balances := map[];
      pool := map[];
      queue := [];
      new;
      InitializeGenesisBlock(genesisId, now);
    }

    /** `initialize_genesis_block`: pushes an unmined block with an empty link
        and no transactions. */
    method InitializeGenesisBlock(id: Uuid, now: Timestamp)
      modifies this
      ensures |blocks| == |old(blocks)| + 1 && blocks[..|old(blocks)|] == old(blocks)
      ensures var g := blocks[|blocks| - 1];
              fresh(g) && g.id == id && g.timestamp == now &&
              g.previousHash == "" && g.transactions == [] && g.nonce == 0 &&
              g.hash == g.CalculateHash(digests)
      ensures balances == old(balances) && pool == old(pool) && queue == old(queue)
    {
      var genesis := new Block(digests, id, now, "", []);
      blocks := blocks + [genesis];
    }

    /** `add_transaction`: the result is the admission gate's; the id is pooled
        once the balance check passes, even if the queue then refuses it; on
        success the transaction joins the back of the queue. */
    method AddTransaction(t: Transaction) returns (r: Result)
      requires Valid()
      modifies this
      ensures Valid()
      ensures r == Admission(digests, old(pool), old(balances), |old(queue)|, t)
      ensures pool == if r.Ok? || r == Err(PerformanceLimitExceeded(QueueFull))
                      then old(pool)[t.id := t] else old(pool)
      ensures queue == if r.Ok? then old(queue) + [t] else old(queue)
      ensures blocks == old(blocks) && balances == old(balances)
      ensures old(Unfunded()) ==> r.Err? && Unfunded()
    {
      if Unfunded() {
        UnfundedAdmitsNothing(digests, pool, balances, |queue|, t);
      }
      if Admission(digests, pool, balances, |queue|, t).Ok? {
        AdmittedSenderHasAccount(digests, pool, balances, |queue|, t);
      }
      ghost var committed := ChainTransactions(blocks);
      r := Validate(digests, t);
      if r.Err? {
        return;
      }
      if t.id in pool {
        return Err(DuplicateTransaction);
      }
      if t.from != "" {
        var current := Balance(balances, t.from);
        if current < t.amount {
          return Err(InsufficientBalance);
        }
      }
      PooledOnceExtend(committed + queue, t, pool);
      PooledOnceSplit(committed + queue, [t], pool[t.id := t]);
      pool := pool[t.id := t];
      if |queue| >= QueueCapacity {
        return Err(PerformanceLimitExceeded(QueueFull));
      }
      assert committed + (queue + [t]) == committed + queue + [t];
      queue := queue + [t];
      r := Ok;
    }

    /** `process_transactions`: drains up to `batchSize` transactions in FIFO
        order; with none, changes nothing. Otherwise it applies them to the
        balances in order, then builds a block on the tip (id and time are
        parameters), mines it to `MiningDifficulty` with at most `fuel` nonce
        increments, validates it and appends it. The validation never fails. */
    method ProcessTransactions(batchSize: nat, blockId: Uuid, now: Timestamp, fuel: nat) returns (outcome: ProcessOutcome)
      requires Valid()
      modifies this
      ensures Valid()
      ensures pool == old(pool)
      ensures queue == old(queue)[Min(batchSize, |old(queue)|)..]
      ensures balances == ApplyBatch(old(balances), old(queue)[..Min(batchSize, |old(queue)|)])
      ensures outcome == Returned(Ok) || outcome == StillMining
      ensures Min(batchSize, |old(queue)|) == 0 ==> outcome == Returned(Ok) && blocks == old(blocks)
      ensures outcome == StillMining ==> blocks == old(blocks)
      ensures Min(batchSize, |old(queue)|) > 0 && outcome == Returned(Ok) ==>
                Appended(old(blocks), blocks, old(blocks[|blocks| - 1].hash), old(queue)[..Min(batchSize, |old(queue)|)], blockId, now) &&
                fresh(blocks[|blocks| - 1])
      ensures old(Unfunded()) ==> Unfunded() && blocks == old(blocks) && balances == old(balances)
    {
      ghost var tipHash := blocks[|blocks| - 1].hash;
      ghost var chain, waiting := blocks, queue;
      ghost var k := Min(batchSize, |queue|);
      var batch := CollectBatch(batchSize);
      assert batch == waiting[..k];
      if batch == [] {
        return Returned(Ok);
      }
      ApplyBalances(batch);
      assert blocks == chain && blocks[|blocks| - 1].hash == tipHash;
      var appended := CommitBlock(batch, blockId, now, fuel);
      outcome := if appended then Returned(Ok) else StillMining;
    }

    /** Lines 83-92: pops up to `batchSize` transactions from the front of the queue. */
    method CollectBatch(batchSize: nat) returns (batch: seq<Transaction>)
      requires Valid()
      modifies this
      ensures Valid()
      ensures var k := Min(batchSize, |old(queue)|);
              batch == old(queue)[..k] && queue == old(queue)[k..]
      ensures forall i :: 0 <= i < |batch| ==> Validate(digests, batch[i]).Ok? && batch[i].from in balances
      ensures PooledOnce(ChainTransactions(blocks) + batch + queue, pool)
      ensures balances == old(balances) && blocks == old(blocks) && pool == old(pool)
    {
      batch := [];
      for i := 0 to batchSize
        invariant |batch| == i
        invariant batch + queue == old(queue)
        invariant balances == old(balances) && blocks == old(blocks) && pool == old(pool)
      {
        if queue == [] {
          break;
        }
        batch := batch + [queue[0]];
        queue := queue[1..];
      }
      assert |batch| == Min(batchSize, |old(queue)|);
      forall i | 0 <= i < |batch| ensures Validate(digests, batch[i]).Ok? && batch[i].from in balances {
        assert batch[i] == old(queue)[i];
      }
      forall i | 0 <= i < |queue| ensures Validate(digests, queue[i]).Ok? && queue[i].from in balances {
        assert queue[i] == old(queue)[|batch| + i];
      }
      var committed := ChainTransactions(blocks);
      assert committed + batch + queue == committed + old(queue);
      PooledOnceDropMiddle(committed, batch, queue, pool);
    }

    /** Lines 102-112: debits each non-empty sender and credits each receiver, in order. */
    method ApplyBalances(batch: seq<Transaction>)
      requires Valid()
      modifies this
      ensures Valid()
      ensures balances == ApplyBatch(old(balances), batch)
      ensures queue == old(queue) && blocks == old(blocks) && pool == old(pool)
    {
      for j := 0 to |batch|
        invariant balances == ApplyBatch(old(balances), batch[..j])
        invariant queue == old(queue) && blocks == old(blocks) && pool == old(pool)
      {
        var t := batch[j];
        assert batch[..j + 1][..j] == batch[..j];
        if t.from != "" {
          balances := Debit(balances, t.from, t.amount);
        }
        balances := Credit(balances, t.to, t.amount);
      }
      assert batch[..|batch|] == batch;
      ApplyBatchKeepsAccounts(old(balances), batch);
    }

    /** Lines 114-129: builds a block on the tip, mines it, validates it against
        the tip and appends it. `appended` is false when mining ran out of fuel. */
    method CommitBlock(batch: seq<Transaction>, blockId: Uuid, now: Timestamp, fuel: nat) returns (appended: bool)
      requires Valid()
      requires forall i :: 0 <= i < |batch| ==> Validate(digests, batch[i]).Ok?
      requires PooledOnce(ChainTransactions(blocks) + batch + queue, pool)
      modifies this
      ensures Valid()
      ensures balances == old(balances) && queue == old(queue) && pool == old(pool)
      ensures !appended ==> blocks == old(blocks)
      ensures appended ==> Appended(old(blocks), blocks, old(blocks[|blocks| - 1].hash), batch, blockId, now) &&
                           fresh(blocks[|blocks| - 1])
    {
      var previousHash := blocks[|blocks| - 1].hash;
      var block, found := SealBlock(previousHash, batch, blockId, now, fuel);
      if !found {
        return false;
      }
      var tip := LatestBlock();
      var check := block.Validate(digests, tip);
      assert check.Ok?;
      CountTransactionsAppend(blocks, block);
      AppendBlock(block);
      appended := true;
    }

    /** Line 128: pushes a block that validates against the tip and meets the
        mining target; the ledger invariant is kept. */
    method AppendBlock(block: Block)
      requires Valid()
      requires block.Validate(digests, blocks[|blocks| - 1]).Ok? && MeetsTarget(block.hash, MiningDifficulty)
      requires PooledOnce(ChainTransactions(blocks) + block.transactions + queue, pool)
      modifies this
      ensures Valid()
      ensures blocks == old(blocks) + [block]
      ensures balances == old(balances) && queue == old(queue) && pool == old(pool)
    {
      ChainExtend(digests, blocks, block);
      CommitKeepsPooledOnce(blocks, block, queue, pool);
      blocks := blocks + [block];
    }

    /** Lines 120-121: `Block::new` followed by `mine(2)`. Only the new block changes. */
    method SealBlock(previousHash: string, batch: seq<Transaction>, blockId: Uuid, now: Timestamp, fuel: nat)
      returns (block: Block, found: bool)
      ensures fresh(block)
      ensures block.previousHash == previousHash && block.transactions == batch
      ensures block.id == blockId && block.timestamp == now
      ensures block.hash == block.CalculateHash(digests)
      ensures found <==> MeetsTarget(block.hash, MiningDifficulty)
    {
      block := new Block(digests, blockId, now, previousHash, batch);
      var attempts;
      found, attempts := block.Mine(digests, MiningDifficulty, fuel);
    }

    /** `get_latest_block`: the tip, which always exists. */
    function LatestBlock(): (b: Block)
      reads this, blocks
      requires Valid()
      ensures b in blocks && b == blocks[|blocks| - 1]
    {
      blocks[|blocks| - 1]
    }

    /** `get_balance`: a missing account reads as 0. */
    function GetBalance(address: string): (r: U64)
      reads this
      ensures address !in balances ==> r == 0
      ensures address in balances ==> r == balances[address]
    {
      Balance(balances, address)
    }

    /** `get_transaction_count`: the transactions of all blocks; genesis holds none. */
    function GetTransactionCount(): (r: nat)
      reads this, blocks
      requires Valid()
      ensures r == CountTransactions(blocks[1..])
    {
      CountTransactions(blocks)
    }
  }
}
