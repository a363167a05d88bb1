/**
 * `compare_and_replace_vetor`: a left merge of the OFX table against the
 * spreadsheet's (`Valor`, `Descrição`) columns on the amount, followed by
 * `combine_first`, which lets a present spreadsheet description replace the
 * OFX one.
 */
module Reconciler {
  import opened Wrappers
  import opened Text
  import opened Transactions

  /** A spreadsheet row as the merge sees it; a missing description is pandas NaN. */
  datatype SheetRow = SheetRow(amount: int, description: Option<string>)

  function Amounts(sheet: seq<SheetRow>): (s: seq<int>)
    ensures |s| == |sheet|
  {
    seq(|sheet|, j requires 0 <= j < |sheet| => sheet[j].amount)
  }

  /** How many spreadsheet rows carry exactly this amount. */
  function MatchCount(amount: int, sheet: seq<SheetRow>): nat {
    multiset(Amounts(sheet))[amount]
  }

  /** The positions of the spreadsheet rows whose amount equals `amount`, in spreadsheet order. */
  function MatchIndices(amount: int, sheet: seq<SheetRow>): (idx: seq<nat>)
    ensures forall m | 0 <= m < |idx| :: idx[m] < |sheet|
    decreases |sheet|
  {
    if sheet == [] then []
    else
      var n := |sheet| - 1;
      MatchIndices(amount, sheet[..n]) + (if sheet[n].amount == amount then [n] else [])
  }

  /** The rows one base row turns into: itself, or one copy per matching spreadsheet row. */
  function MergeRow(b: Row, sheet: seq<SheetRow>): seq<Row> {
    var idx := MatchIndices(b.amount, sheet);
    if idx == [] then [b]
    else seq(|idx|, m requires 0 <= m < |idx| => b.(description := sheet[idx[m]].description.GetOr(b.description)))
  }

  /** The merged table, as the code computes it: every base row in order, fanned out per match. */
  function Reconcile(base: seq<Row>, sheet: seq<SheetRow>): (out: seq<Row>)
    ensures |base| <= |out|
    decreases |base|
  {
    if base == [] then []
    else
      var n := |base| - 1;
      Reconcile(base[..n], sheet) + MergeRow(base[n], sheet)
  }

  // ---------------------------------------------------------------------
  // Matching
  // ---------------------------------------------------------------------

  /**
   * The positions are exactly those of the rows carrying the amount, each
   * once, in increasing order.
   */
  lemma {:induction false} MatchIndicesSpec(amount: int, sheet: seq<SheetRow>)
    ensures forall m | 0 <= m < |MatchIndices(amount, sheet)| :: sheet[MatchIndices(amount, sheet)[m]].amount == amount
    ensures forall m, n | 0 <= m < n < |MatchIndices(amount, sheet)| :: MatchIndices(amount, sheet)[m] < MatchIndices(amount, sheet)[n]
    ensures forall j | 0 <= j < |sheet| && sheet[j].amount == amount :: j in MatchIndices(amount, sheet)
    decreases |sheet|
  {
    if sheet != [] {
      var n := |sheet| - 1;
      MatchIndicesSpec(amount, sheet[..n]);
      var idx := MatchIndices(amount, sheet);
      var front := MatchIndices(amount, sheet[..n]);
      assert idx == front + (if sheet[n].amount == amount then [n] else []);
      forall m | 0 <= m < |front| ensures sheet[front[m]].amount == amount {
        assert sheet[..n][front[m]] == sheet[front[m]];
      }
      forall j | 0 <= j < n && sheet[j].amount == amount ensures j in front {
        assert sheet[..n][j] == sheet[j];
      }
    }
  }

  lemma {:induction false} MatchIndicesCount(amount: int, sheet: seq<SheetRow>)
    ensures |MatchIndices(amount, sheet)| == MatchCount(amount, sheet)
    decreases |sheet|
  {
    if sheet != [] {
      var n := |sheet| - 1;
      assert Amounts(sheet) == Amounts(sheet[..n]) + [sheet[n].amount];
      MatchIndicesCount(amount, sheet[..n]);
    }
  }

  lemma {:induction false} MatchIndicesPrefix(amount: int, sheet: seq<SheetRow>, j: nat)
    requires j <= |sheet|
    ensures MatchIndices(amount, sheet[..j]) <= MatchIndices(amount, sheet)
    decreases |sheet|
  {
    if j < |sheet| {
      var n := |sheet| - 1;
      assert sheet[..n][..j] == sheet[..j];
      MatchIndicesPrefix(amount, sheet[..n], j);
    } else {
      assert sheet[..j] == sheet;
    }
  }

  /**
   * A matching row at position `j` is the k-th match, where k counts the
   * matching rows before it.
   */
  lemma KthMatch(amount: int, sheet: seq<SheetRow>, j: nat)
    requires j < |sheet| && sheet[j].amount == amount
    ensures MatchCount(amount, sheet[..j]) < |MatchIndices(amount, sheet)|
    ensures MatchIndices(amount, sheet)[MatchCount(amount, sheet[..j])] == j
  {
    var idx := MatchIndices(amount, sheet);
    var before := MatchIndices(amount, sheet[..j]);
    assert sheet[..j + 1][..j] == sheet[..j];
    assert MatchIndices(amount, sheet[..j + 1]) == before + [j];
    MatchIndicesPrefix(amount, sheet, j + 1);
    MatchIndicesCount(amount, sheet[..j]);
    assert idx[|before|] == j;
  }

  /** Zero matches means no spreadsheet row carries the amount. */
  lemma NoMatch(amount: int, sheet: seq<SheetRow>)
    ensures MatchCount(amount, sheet) == 0 <==> forall j | 0 <= j < |sheet| :: sheet[j].amount != amount
  {
    if MatchCount(amount, sheet) == 0 {
      forall j | 0 <= j < |sheet| ensures sheet[j].amount != amount {
        assert Amounts(sheet)[j] in multiset(Amounts(sheet));
      }
    } else {
      assert amount in Amounts(sheet);
    }
  }

  // ---------------------------------------------------------------------
  // One base row
  // ---------------------------------------------------------------------

  /**
   * A base row with no equal-amount spreadsheet row stays as it is; with k
   * such rows it becomes k rows.
   */
  lemma MergeRowSize(b: Row, sheet: seq<SheetRow>)
    ensures MatchCount(b.amount, sheet) == 0 ==> MergeRow(b, sheet) == [b]
    ensures |MergeRow(b, sheet)| == if MatchCount(b.amount, sheet) == 0 then 1 else MatchCount(b.amount, sheet)
  {
    MatchIndicesCount(b.amount, sheet);
  }

  /** Only the description of a fanned-out row can differ from its base row. */
  lemma MergeRowKeepsDateAndAmount(b: Row, sheet: seq<SheetRow>)
    ensures forall k | 0 <= k < |MergeRow(b, sheet)| ::
              MergeRow(b, sheet)[k] == b.(description := MergeRow(b, sheet)[k].description)
  {
  }

  /**
   * The output row for the k-th equal-amount spreadsheet row (k counting the
   * matches before it) takes that row's description, or keeps the base
   * row's own where the spreadsheet cell is missing.
   */
  lemma MergeRowDescriptions(b: Row, sheet: seq<SheetRow>)
    ensures forall j | 0 <= j < |sheet| && sheet[j].amount == b.amount ::
              MatchCount(b.amount, sheet[..j]) < |MergeRow(b, sheet)| &&
              MergeRow(b, sheet)[MatchCount(b.amount, sheet[..j])].description
                == sheet[j].description.GetOr(b.description)
  {
    forall j | 0 <= j < |sheet| && sheet[j].amount == b.amount
      ensures MatchCount(b.amount, sheet[..j]) < |MergeRow(b, sheet)|
      ensures MergeRow(b, sheet)[MatchCount(b.amount, sheet[..j])].description
                == sheet[j].description.GetOr(b.description)
    {
      KthMatch(b.amount, sheet, j);
    }
  }

  // ---------------------------------------------------------------------
  // The whole table
  // ---------------------------------------------------------------------

  /** The expected output size: each base row counts max(1, k) for its k matches. */
  function FanOutSize(base: seq<Row>, sheet: seq<SheetRow>): nat
    decreases |base|
  {
    if base == [] then 0
    else
      var n := |base| - 1;
      var k := MatchCount(base[n].amount, sheet);
      FanOutSize(base[..n], sheet) + (if k == 0 then 1 else k)
  }

  lemma {:induction false} ReconcileSize(base: seq<Row>, sheet: seq<SheetRow>)
    ensures |Reconcile(base, sheet)| == FanOutSize(base, sheet)
    decreases |base|
  {
    if base != [] {
      var n := |base| - 1;
      ReconcileSize(base[..n], sheet);
      MergeRowSize(base[n], sheet);
      assert |Reconcile(base, sheet)| == |Reconcile(base[..n], sheet)| + |MergeRow(base[n], sheet)|;
    }
  }

  /** Every base row contributes at least one output row. */
  lemma {:induction false} FanOutSizeAtLeastBase(base: seq<Row>, sheet: seq<SheetRow>)
    ensures |base| <= FanOutSize(base, sheet)
    decreases |base|
  {
    if base != [] {
      FanOutSizeAtLeastBase(base[..|base| - 1], sheet);
    }
  }

  /**
   * The merge keeps the row count exactly when no base row's amount appears
   * more than once in the spreadsheet.
   */
  lemma {:induction false} ReconcileSizeUnchanged(base: seq<Row>, sheet: seq<SheetRow>)
    ensures |Reconcile(base, sheet)| == |base| <==>
            forall i | 0 <= i < |base| :: MatchCount(base[i].amount, sheet) <= 1
    decreases |base|
  {
    ReconcileSize(base, sheet);
    FanOutSizeUnchanged(base, sheet);
  }

  lemma {:induction false} FanOutSizeUnchanged(base: seq<Row>, sheet: seq<SheetRow>)
    ensures FanOutSize(base, sheet) == |base| <==>
            forall i | 0 <= i < |base| :: MatchCount(base[i].amount, sheet) <= 1
    decreases |base|
  {
    if base != [] {
      var n := |base| - 1;
      var front := base[..n];
      FanOutSizeUnchanged(front, sheet);
      FanOutSizeAtLeastBase(front, sheet);
      if forall i | 0 <= i < |base| :: MatchCount(base[i].amount, sheet) <= 1 {
        forall i | 0 <= i < n ensures MatchCount(front[i].amount, sheet) <= 1 {
          assert front[i] == base[i];
        }
      }
    }
  }

  /** The merge works row by row: merging two tables one after the other is merging their concatenation. */
  lemma {:induction false} ReconcileAppend(front: seq<Row>, rest: seq<Row>, sheet: seq<SheetRow>)
    ensures Reconcile(front + rest, sheet) == Reconcile(front, sheet) + Reconcile(rest, sheet)
    decreases |rest|
  {
    if rest == [] {
      assert front + rest == front;
    } else {
      var n := |rest| - 1;
      var both := front + rest;
      assert both[..|both| - 1] == front + rest[..n];
      ReconcileAppend(front, rest[..n], sheet);
      ReconcileLast(both, sheet);
      ReconcileLast(rest, sheet);
      AppendAssociative(Reconcile(front, sheet), Reconcile(rest[..n], sheet), MergeRow(rest[n], sheet));
    }
  }

  lemma ReconcileLast(base: seq<Row>, sheet: seq<SheetRow>)
    requires base != []
    ensures Reconcile(base, sheet) == Reconcile(base[..|base| - 1], sheet) + MergeRow(base[|base| - 1], sheet)
  {
  }

  /** The output for a prefix of the base table is a prefix of the output. */
  lemma ReconcilePrefix(base: seq<Row>, sheet: seq<SheetRow>, i: nat)
    requires i <= |base|
    ensures Reconcile(base[..i], sheet) <= Reconcile(base, sheet)
  {
    assert base[..i] + base[i..] == base;
    ReconcileAppend(base[..i], base[i..], sheet);
  }

  /**
   * Base row i's output rows are consecutive and come right after the output
   * of the rows before it: base order is kept.
   */
  lemma ReconcileSegments(base: seq<Row>, sheet: seq<SheetRow>, i: nat)
    requires i < |base|
    ensures Reconcile(base[..i], sheet) + MergeRow(base[i], sheet) <= Reconcile(base, sheet)
  {
    assert base[..i + 1][..i] == base[..i];
    ReconcilePrefix(base, sheet, i + 1);
  }

  /** Every output row is some base row with, at most, another description. */
  lemma {:induction false} ReconcileOrigin(base: seq<Row>, sheet: seq<SheetRow>)
    ensures forall k | 0 <= k < |Reconcile(base, sheet)| :: exists i | 0 <= i < |base| ::
              Reconcile(base, sheet)[k] == base[i].(description := Reconcile(base, sheet)[k].description)
    decreases |base|
  {
    if base != [] {
      var n := |base| - 1;
      var front := Reconcile(base[..n], sheet);
      var last := MergeRow(base[n], sheet);
      ReconcileOrigin(base[..n], sheet);
      MergeRowKeepsDateAndAmount(base[n], sheet);
      var out := Reconcile(base, sheet);
      assert out == front + last;
      forall k | 0 <= k < |out|
        ensures exists i | 0 <= i < |base| :: out[k] == base[i].(description := out[k].description)
      {
        if k < |front| {
          var i :| 0 <= i < n && front[k] == base[..n][i].(description := front[k].description);
          assert out[k] == front[k];
          assert base[..n][i] == base[i];
        } else {
          assert out[k] == last[k - |front|];
          assert out[k] == base[n].(description := out[k].description);
        }
      }
    } else {
      assert Reconcile(base, sheet) == [];
    }
  }

  /** With an empty spreadsheet the output is the base table; an empty base gives an empty output. */
  lemma {:induction false} ReconcileEmpty(base: seq<Row>, sheet: seq<SheetRow>)
    ensures Reconcile(base, []) == base
    ensures Reconcile([], sheet) == []
    decreases |base|
  {
    if base != [] {
      var n := |base| - 1;
      ReconcileEmpty(base[..n], sheet);
      assert base[..n] + [base[n]] == base;
    }
  }

  // ---------------------------------------------------------------------
  // First-match merge: the row-count-preserving behaviour
  // ---------------------------------------------------------------------

  /** The base row with the description of its first match in spreadsheet order, if any. */
  function FirstMatchRow(b: Row, sheet: seq<SheetRow>): Row {
    var idx := MatchIndices(b.amount, sheet);
    if idx == [] then b else b.(description := sheet[idx[0]].description.GetOr(b.description))
  }

  /** The merge with the first equal-amount spreadsheet row only. */
  function ReconcileFirstMatch(base: seq<Row>, sheet: seq<SheetRow>): (out: seq<Row>)
    ensures |out| == |base|
  {
    seq(|base|, i requires 0 <= i < |base| => FirstMatchRow(base[i], sheet))
  }

  /**
   * The first-match merge keeps row count, order, dates and amounts; a row
   * without a match keeps its description; a row with a match takes the
   * first matching spreadsheet row's description, unless that cell is missing.
   */
  lemma ReconcileFirstMatchSpec(base: seq<Row>, sheet: seq<SheetRow>)
    ensures |ReconcileFirstMatch(base, sheet)| == |base|
    ensures forall i | 0 <= i < |base| ::
              ReconcileFirstMatch(base, sheet)[i] == base[i].(description := ReconcileFirstMatch(base, sheet)[i].description)
    ensures forall i | 0 <= i < |base| && MatchCount(base[i].amount, sheet) == 0 ::
              ReconcileFirstMatch(base, sheet)[i] == base[i]
    ensures forall i, j | 0 <= i < |base| && 0 <= j < |sheet| &&
                          sheet[j].amount == base[i].amount && MatchCount(base[i].amount, sheet[..j]) == 0 ::
              ReconcileFirstMatch(base, sheet)[i].description == sheet[j].description.GetOr(base[i].description)
  {
    forall i | 0 <= i < |base| && MatchCount(base[i].amount, sheet) == 0
      ensures ReconcileFirstMatch(base, sheet)[i] == base[i]
    {
      MatchIndicesCount(base[i].amount, sheet);
    }
    forall i, j | 0 <= i < |base| && 0 <= j < |sheet| &&
                  sheet[j].amount == base[i].amount && MatchCount(base[i].amount, sheet[..j]) == 0
      ensures ReconcileFirstMatch(base, sheet)[i].description == sheet[j].description.GetOr(base[i].description)
    {
      KthMatch(base[i].amount, sheet, j);
    }
  }

  predicate UniqueAmounts(sheet: seq<SheetRow>) {
    forall j, j' | 0 <= j < j' < |sheet| :: sheet[j].amount != sheet[j'].amount
  }

  lemma UniqueAmountsMatchOnce(amount: int, sheet: seq<SheetRow>)
    requires UniqueAmounts(sheet)
    ensures |MatchIndices(amount, sheet)| <= 1
  {
    var idx := MatchIndices(amount, sheet);
    if 1 < |idx| {
      var first, second := idx[0], idx[1];
      MatchIndicesSpec(amount, sheet);
      assert false;
    }
  }

  lemma ReconcileFirstMatchExtend(base: seq<Row>, sheet: seq<SheetRow>)
    requires base != []
    ensures ReconcileFirstMatch(base, sheet)
         == ReconcileFirstMatch(base[..|base| - 1], sheet) + [FirstMatchRow(base[|base| - 1], sheet)]
  {
  }

  /** When no two spreadsheet rows share an amount, the code's merge is the first-match merge. */
  lemma {:induction false} UniqueAmountsAgree(base: seq<Row>, sheet: seq<SheetRow>)
    requires UniqueAmounts(sheet)
    ensures Reconcile(base, sheet) == ReconcileFirstMatch(base, sheet)
    decreases |base|
  {
    if base != [] {
      var n := |base| - 1;
      UniqueAmountsAgree(base[..n], sheet);
      UniqueAmountsMatchOnce(base[n].amount, sheet);
      assert MergeRow(base[n], sheet) == [FirstMatchRow(base[n], sheet)];
      ReconcileFirstMatchExtend(base, sheet);
    }
  }

  /** Two spreadsheet rows with the base row's amount turn one base row into two. */
  lemma DuplicateAmountFansOut()
    ensures var base := [Row("2025-01-01", "x", -5000)];
            var sheet := [SheetRow(-5000, Some("Groceries")), SheetRow(-5000, Some("Market"))];
            && Reconcile(base, sheet) == [Row("2025-01-01", "Groceries", -5000), Row("2025-01-01", "Market", -5000)]
            && |Reconcile(base, sheet)| != |base|
            && ReconcileFirstMatch(base, sheet) == [Row("2025-01-01", "Groceries", -5000)]
  {
    var base := [Row("2025-01-01", "x", -5000)];
    var sheet := [SheetRow(-5000, Some("Groceries")), SheetRow(-5000, Some("Market"))];
    assert sheet[..1] == [sheet[0]];
    assert MatchIndices(-5000, sheet) == [0, 1];
    assert base[..0] == [];
  }
}
