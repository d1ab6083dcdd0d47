/** The balance table of the ledger and the per-transaction update that
    `process_transactions` applies to it (src/ledger.rs, lines 102-112 and 144-148).
    Keys are created lazily and never removed; `u64` arithmetic wraps. */
module Balances {
  import opened Crypto
  import opened Transactions

  type Accounts = map<string, U64>

  /** `get_balance`: a missing account reads as 0. */
  function Balance(m: Accounts, a: string): (r: U64)
    ensures a !in m ==> r == 0
    ensures a in m ==> r == m[a]
  {
    if a in m then m[a] else 0
  }

  /** `entry(a).and_modify(|b| *b -= amount).or_insert(0)`. */
  function Debit(m: Accounts, a: string, amount: U64): (r: Accounts)
    ensures r.Keys == m.Keys + {a}
    ensures forall b :: b in m && b != a ==> r[b] == m[b]
    ensures r[a] == if a in m then Wrap(m[a] - amount) else 0
  {
    if a in m then m[a := Wrap(m[a] - amount)] else m[a := 0]
  }

  /** `entry(a).and_modify(|b| *b += amount).or_insert(amount)`. */
  function Credit(m: Accounts, a: string, amount: U64): (r: Accounts)
    ensures r.Keys == m.Keys + {a}
    ensures forall b :: b in m && b != a ==> r[b] == m[b]
    ensures r[a] == Wrap(Balance(m, a) + amount)
  {
    if a in m then m[a := Wrap(m[a] + amount)] else m[a := amount]
  }

  /** The update one processed transaction makes: debit a non-empty sender,
      then credit the receiver. */
  function Transfer(m: Accounts, t: Transaction): (r: Accounts)
    ensures r.Keys == m.Keys + {t.to} + (if t.from != "" then {t.from} else {})
    ensures forall b :: b in m && b != t.from && b != t.to ==> r[b] == m[b]
    ensures t.from != "" && t.from != t.to ==>
              r[t.from] == if t.from in m then Wrap(m[t.from] - t.amount) else 0
    ensures t.from != t.to ==> r[t.to] == Wrap(Balance(m, t.to) + t.amount)
  {
    var debited := if t.from != "" then Debit(m, t.from, t.amount) else m;
    Credit(debited, t.to, t.amount)
  }

  /** The balances after applying a batch one transaction after another, in order. */
  function ApplyBatch(m: Accounts, txs: seq<Transaction>): Accounts
  {
    if txs == [] then m else Transfer(ApplyBatch(m, txs[..|txs| - 1]), txs[|txs| - 1])
  }

  /** Applying a batch never removes an account. */
  lemma {:induction false} ApplyBatchKeepsAccounts(m: Accounts, txs: seq<Transaction>)
    ensures m.Keys <= ApplyBatch(m, txs).Keys
    ensures forall i :: 0 <= i < |txs| ==> txs[i].to in ApplyBatch(m, txs)
  {
    if txs != [] {
      var init := txs[..|txs| - 1];
      ApplyBatchKeepsAccounts(m, init);
      forall i | 0 <= i < |txs| - 1 ensures txs[i].to in ApplyBatch(m, txs) {
        assert txs[i] == init[i];
      }
    }
  }

  /** The sum of all balances. */
  ghost function Total(m: Accounts): int
    decreases m.Keys
  {
    if m == map[] then 0
    else
      var a :| a in m;
      m[a] + Total(m - {a})
  }

  lemma {:induction false} TotalRemove(m: Accounts, a: string)
    requires a in m
    ensures Total(m) == m[a] + Total(m - {a})
    decreases m.Keys
  {
    var b :| b in m && Total(m) == m[b] + Total(m - {b});
    if b != a {
      TotalRemove(m - {b}, a);
      TotalRemove(m - {a}, b);
      assert m - {b} - {a} == m - {a} - {b};
    }
  }

  /** Setting one balance changes the sum by the difference (or by the new
      value, for a new account). */
  lemma TotalUpdate(m: Accounts, a: string, v: U64)
    ensures Total(m[a := v]) == Total(m) - Balance(m, a) + v
  {
    TotalRemove(m[a := v], a);
    assert m[a := v] - {a} == m - {a};
    if a in m {
      TotalRemove(m, a);
    } else {
      assert m - {a} == m;
    }
  }

  /** A transfer is covered when its sender holds at least the amount and the
      receiver's balance does not overflow: then nothing wraps. */
  predicate Covered(m: Accounts, t: Transaction)
  {
    t.from != "" && t.from in m && m[t.from] >= t.amount &&
    Balance(m, t.to) + t.amount < TwoTo64
  }

  /** Conservation: a covered transfer between distinct accounts leaves the
      sum of balances unchanged. */
  lemma TransferConserves(m: Accounts, t: Transaction)
    requires Covered(m, t) && t.from != t.to
    ensures Total(Transfer(m, t)) == Total(m)
  {
    var debited := Debit(m, t.from, t.amount);
    TotalUpdate(m, t.from, m[t.from] - t.amount);
    assert Balance(debited, t.to) == Balance(m, t.to);
    TotalUpdate(debited, t.to, Balance(m, t.to) + t.amount);
  }

  /** An unknown sender is created with 0 and the receiver is still credited:
      the transfer then adds its amount to the sum. */
  lemma AbsentSenderMints(m: Accounts, t: Transaction)
    requires t.from != "" && t.from !in m && t.from != t.to
    requires Balance(m, t.to) + t.amount < TwoTo64
    ensures Total(Transfer(m, t)) == Total(m) + t.amount
  {
    var debited := Debit(m, t.from, t.amount);
    TotalUpdate(m, t.from, 0);
    assert Balance(debited, t.to) == Balance(m, t.to);
    TotalUpdate(debited, t.to, Balance(m, t.to) + t.amount);
  }

  /** Every transfer of the batch is covered by the balances it meets. */
  ghost predicate BatchCovered(m: Accounts, txs: seq<Transaction>)
  {
    forall i :: 0 <= i < |txs| ==> Covered(ApplyBatch(m, txs[..i]), txs[i]) && txs[i].from != txs[i].to
  }

  /** Conservation over a batch whose every transfer is covered. */
  lemma {:induction false} ApplyBatchConserves(m: Accounts, txs: seq<Transaction>)
    requires BatchCovered(m, txs)
    ensures Total(ApplyBatch(m, txs)) == Total(m)
  {
    if txs != [] {
      var n := |txs| - 1;
      BatchCoveredPrefix(m, txs);
      ApplyBatchConserves(m, txs[..n]);
      assert Covered(ApplyBatch(m, txs[..n]), txs[n]) && txs[n].from != txs[n].to;
      TransferConserves(ApplyBatch(m, txs[..n]), txs[n]);
    }
  }

  lemma BatchCoveredPrefix(m: Accounts, txs: seq<Transaction>)
    requires txs != [] && BatchCovered(m, txs)
    ensures BatchCovered(m, txs[..|txs| - 1])
  {
    var init := txs[..|txs| - 1];
    forall i | 0 <= i < |init|
      ensures Covered(ApplyBatch(m, init[..i]), init[i]) && init[i].from != init[i].to
    {
      assert init[..i] == txs[..i] && init[i] == txs[i];
      assert Covered(ApplyBatch(m, txs[..i]), txs[i]) && txs[i].from != txs[i].to;
    }
  }

  /** Admission checks each transfer against the balances before the batch, so
      two transfers that each fit can jointly overdraw. Processing both then
      wraps the sender's balance to 2^64 - 5. */
  lemma JointOverdraftWraps(t1: Transaction, t2: Transaction)
    requires t1.from == "alice" && t2.from == "alice"
    requires t1.to == "bob" && t2.to == "bob"
    requires t1.amount == 5 && t2.amount == 5
    ensures Covered(map["alice" := 5], t1) && Covered(map["alice" := 5], t2)
    ensures ApplyBatch(map["alice" := 5], [t1, t2]) == map["alice" := TwoTo64 - 5, "bob" := 10]
  {
    var m: Accounts := map["alice" := 5];
    assert [t1, t2][..1] == [t1];
    assert [t1][..0] == [];
    assert ApplyBatch(m, [t1]) == map["alice" := 0, "bob" := 5];
  }
}
