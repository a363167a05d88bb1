/**
 * The row-building loop of `process_ofx`: the transactions of an already
 * parsed OFX document, flattened across accounts into the transaction table.
 */
module OfxImport {
  import opened Wrappers
  import opened Transactions

  /** The description given to a transaction whose memo is missing or empty. */
  const NoDescription := "Sem descrição"

  /** What the OFX parser yields per transaction: date, optional memo, amount. */
  datatype Transaction = Transaction(date: Date, memo: Option<string>, amount: int)
  datatype Statement = Statement(transactions: seq<Transaction>)
  datatype Account = Account(statement: Statement)

  /** A memo that is missing or empty is falsy in Python and gives way to the placeholder. */
  function Description(memo: Option<string>): (d: string)
    ensures d != ""
    ensures memo.Some? && memo.value != "" <==> d == memo.GetOr("")
    ensures memo == None || memo == Some("") ==> d == NoDescription
  {
    if memo.Some? && memo.value != "" then memo.value else NoDescription
  }

  /** The table row built for one transaction. */
  function RowOf(t: Transaction): Row {
    Row(FormatIsoDate(t.date), Description(t.memo), t.amount)
  }

  /**
   * The row keeps the amount, takes the memo or the placeholder as its
   * description, and carries the date as `YYYY-MM-DD` text that reads back
   * as the transaction's date.
   */
  lemma RowOfFields(t: Transaction)
    ensures RowOf(t).amount == t.amount
    ensures RowOf(t).description == Description(t.memo)
    ensures IsIsoDate(RowOf(t).date) && ParseIsoDate(RowOf(t).date) == Some(t.date)
  {
    IsoDateRoundTrip(t.date);
  }

  function RowsOf(ts: seq<Transaction>): (rs: seq<Row>)
    ensures |rs| == |ts|
  {
    seq(|ts|, k requires 0 <= k < |ts| => RowOf(ts[k]))
  }

  lemma RowsOfAppend(ts: seq<Transaction>, t: Transaction)
    ensures RowsOf(ts + [t]) == RowsOf(ts) + [RowOf(t)]
  {
    var left, right := RowsOf(ts + [t]), RowsOf(ts) + [RowOf(t)];
    forall k | 0 <= k < |left|
      ensures left[k] == right[k]
    {
      if k < |ts| {
        assert (ts + [t])[k] == ts[k];
      }
    }
  }

  /** The transactions of every account, accounts in document order. */
  function AllTransactions(accounts: seq<Account>): seq<Transaction>
    decreases |accounts|
  {
    if accounts == [] then []
    else
      var n := |accounts| - 1;
      AllTransactions(accounts[..n]) + accounts[n].statement.transactions
  }

  /** The table for a document: one row per transaction, in that order. */
  function Normalise(accounts: seq<Account>): seq<Row> {
    RowsOf(AllTransactions(accounts))
  }

  /** The number of transactions over all accounts. */
  function TransactionCount(accounts: seq<Account>): nat
    decreases |accounts|
  {
    if accounts == [] then 0
    else
      var n := |accounts| - 1;
      TransactionCount(accounts[..n]) + |accounts[n].statement.transactions|
  }

  /** One transaction per transaction: the flattened list has the per-account counts' sum as length. */
  lemma {:induction false} TransactionsCount(accounts: seq<Account>)
    ensures |AllTransactions(accounts)| == TransactionCount(accounts)
    decreases |accounts|
  {
    if accounts != [] {
      TransactionsCount(accounts[..|accounts| - 1]);
    }
  }

  /** One row per transaction: the table's length is the sum of the per-account counts. */
  lemma NormaliseCount(accounts: seq<Account>)
    ensures |Normalise(accounts)| == TransactionCount(accounts)
  {
    TransactionsCount(accounts);
  }

  /** The transactions of a prefix of the accounts are a prefix of all of them. */
  lemma {:induction false} TransactionsPrefix(accounts: seq<Account>, a: nat)
    requires a <= |accounts|
    ensures AllTransactions(accounts[..a]) <= AllTransactions(accounts)
    decreases |accounts|
  {
    if a < |accounts| {
      var n := |accounts| - 1;
      assert accounts[..n][..a] == accounts[..a];
      TransactionsPrefix(accounts[..n], a);
    } else {
      assert accounts[..a] == accounts;
    }
  }

  /**
   * Transaction `t` of account `a` comes after every transaction of the
   * accounts before `a` and the transactions before `t`.
   */
  lemma AllTransactionsAt(accounts: seq<Account>, a: nat, t: nat)
    requires a < |accounts| && t < |accounts[a].statement.transactions|
    ensures TransactionCount(accounts[..a]) + t < |AllTransactions(accounts)|
    ensures AllTransactions(accounts)[TransactionCount(accounts[..a]) + t] == accounts[a].statement.transactions[t]
  {
    var before, own := AllTransactions(accounts[..a]), accounts[a].statement.transactions;
    AllTransactionsStep(accounts, a);
    TransactionsCount(accounts[..a]);
    assert (before + own)[|before| + t] == own[t];
    TransactionsPrefix(accounts, a + 1);
  }

  /**
   * Transaction `t` of account `a` lands at the position that follows every
   * transaction of the accounts before `a` and the transactions before `t`.
   */
  lemma NormaliseAt(accounts: seq<Account>, a: nat, t: nat)
    requires a < |accounts| && t < |accounts[a].statement.transactions|
    ensures TransactionCount(accounts[..a]) + t < |Normalise(accounts)|
    ensures Normalise(accounts)[TransactionCount(accounts[..a]) + t]
         == RowOf(accounts[a].statement.transactions[t])
  {
    AllTransactionsAt(accounts, a, t);
  }

  /** Every row of the table has a `YYYY-MM-DD` date and a non-empty description. */
  lemma NormaliseWellFormed(accounts: seq<Account>)
    ensures forall r | r in Normalise(accounts) :: IsIsoDate(r.date) && r.description != ""
  {
    var ts := AllTransactions(accounts);
    forall r | r in Normalise(accounts)
      ensures IsIsoDate(r.date) && r.description != ""
    {
      var k :| 0 <= k < |ts| && Normalise(accounts)[k] == r;
      FormatIsoDateShape(ts[k].date);
    }
  }

  lemma AllTransactionsStep(accounts: seq<Account>, a: nat)
    requires a < |accounts|
    ensures AllTransactions(accounts[..a + 1]) == AllTransactions(accounts[..a]) + accounts[a].statement.transactions
  {
    assert accounts[..a + 1][..a] == accounts[..a];
  }

  lemma TakeStep<T>(done: seq<T>, xs: seq<T>, t: nat)
    requires t < |xs|
    ensures (done + xs[..t]) + [xs[t]] == done + xs[..t + 1]
  {
    assert xs[..t + 1] == xs[..t] + [xs[t]];
  }

  /** The nested loops of `process_ofx`, appending one row per transaction. */
  method ProcessOfx(accounts: seq<Account>) returns (rows: seq<Row>)
    ensures rows == Normalise(accounts)
  {
    rows := [];
    ghost var seen: seq<Transaction> := [];
    var a := 0;
    while a < |accounts|
      invariant 0 <= a <= |accounts|
      invariant seen == AllTransactions(accounts[..a])
      invariant rows == RowsOf(seen)
    {
      var transactions := accounts[a].statement.transactions;
      ghost var done := seen;
      var t := 0;
      while t < |transactions|
        invariant 0 <= t <= |transactions|
        invariant seen == done + transactions[..t]
        invariant rows == RowsOf(seen)
      {
        var transaction := transactions[t];
        var description := if transaction.memo.Some? && transaction.memo.value != ""
                           then transaction.memo.value else NoDescription;
        var row := Row(FormatIsoDate(transaction.date), description, transaction.amount);
        assert row == RowOf(transaction);
        RowsOfAppend(seen, transaction);
        TakeStep(done, transactions, t);
        rows := rows + [row];
        seen := seen + [transaction];
        t := t + 1;
      }
      assert transactions[..t] == transactions;
      AllTransactionsStep(accounts, a);
      a := a + 1;
    }
    assert accounts[..a] == accounts;
  }
}
