/**
 * The path the application takes through the core: the OFX table is built,
 * reconciled against the spreadsheet, and written back as OFX text.
 */
module Pipeline {
  import opened Transactions
  import opened OfxImport
  import opened Reconciler
  import opened OfxExport

  /**
   * Every row of the reconciled table has a `YYYY-MM-DD` date, whichever
   * merge is used, so the exporter accepts it.
   */
  lemma ReconciledExportable(accounts: seq<Account>, sheet: seq<SheetRow>)
    ensures Exportable(Reconcile(Normalise(accounts), sheet))
    ensures Exportable(ReconcileFirstMatch(Normalise(accounts), sheet))
  {
    var base := Normalise(accounts);
    NormaliseWellFormed(accounts);
    ReconcileOrigin(base, sheet);
    ReconcileFirstMatchSpec(base, sheet);
    var out := Reconcile(base, sheet);
    forall k | 0 <= k < |out|
      ensures IsIsoDate(out[k].date)
    {
      var i :| 0 <= i < |base| && out[k] == base[i].(description := out[k].description);
      assert base[i] in base;
    }
    var first := ReconcileFirstMatch(base, sheet);
    forall k | 0 <= k < |first|
      ensures IsIsoDate(first[k].date)
    {
      assert base[k] in base;
    }
  }

  /** Import, reconcile and export, as the application chains the three steps. */
  method ExportReconciled(accounts: seq<Account>, sheet: seq<SheetRow>) returns (text: string)
    ensures Exportable(Reconcile(Normalise(accounts), sheet))
    ensures text == Header + Blocks(Reconcile(Normalise(accounts), sheet)) + Footer
  {
    var table := ProcessOfx(accounts);
    var updated := Reconcile(table, sheet);
    ReconciledExportable(accounts, sheet);
    text := GenerateOfxContent(updated);
  }
}
