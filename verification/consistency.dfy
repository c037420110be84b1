/** The bookkeeping invariant the incremental writes are meant to keep: every
    budget line's `spent` equals the sum of its transactions. */
module Consistency {
  import opened Schema
  import opened Ledger
  import opened TransactionHandlers
  import opened BudgetHandlers

  /** Every record's stored month is its date's prefix. */
  predicate WellFormed(s: State) {
    forall i :: 0 <= i < |s.txns| ==> s.txns[i].month == MonthOf(s.txns[i].date)
  }

  /** Every existing line's `spent` equals its bucket total. */
  ghost predicate Consistent(s: State) {
    forall m, c :: m in s.budgets && c in s.budgets[m] ==> s.budgets[m][c].spent == Total(s.txns, m, c)
  }

  /** Every record's bucket has a line. */
  predicate Complete(s: State) {
    forall i :: 0 <= i < |s.txns| ==> s.txns[i].month in s.budgets && s.txns[i].category in s.budgets[s.txns[i].month]
  }

  /** Under completeness, a bucket with no line has no transactions. */
  lemma NoLineNoTotal(s: State, m: string, c: string)
    requires Complete(s)
    requires EntryAt(s.budgets, m, c).None?
    ensures Total(s.txns, m, c) == 0
  {
    forall i | 0 <= i < |s.txns| ensures !InBucket(s.txns[i], m, c) {
      assert s.txns[i].month in s.budgets && s.txns[i].category in s.budgets[s.txns[i].month];
    }
    TotalEmptyBucket(s.txns, m, c);
  }

  /** One line of `CreatePreserves`: the new total is the old one plus this record's share. */
  lemma CreateKeepsLine(s: State, req: NewTransaction, m: string, c: string)
    requires Consistent(s) && Complete(s)
    requires CreateTransaction(s, req).out.Success?
    requires EntryAt(CreateTransaction(s, req).state.budgets, m, c).Some?
    ensures CreateTransaction(s, req).state.budgets[m][c].spent == Total(CreateTransaction(s, req).state.txns, m, c)
  {
    var r := CreateTransaction(s, req);
    TotalAppend(s.txns, r.out.value.0, m, c);
    if EntryAt(s.budgets, m, c).None? {
      NoLineNoTotal(s, m, c);
    }
  }

  /** One record of `CreatePreserves`: its bucket still has a line. */
  lemma CreateKeepsBucket(s: State, req: NewTransaction, i: nat)
    requires Complete(s)
    requires CreateTransaction(s, req).out.Success?
    requires i < |CreateTransaction(s, req).state.txns|
    ensures
      var u := CreateTransaction(s, req).state.txns[i];
      EntryAt(CreateTransaction(s, req).state.budgets, u.month, u.category).Some?
  {
  }

  /** The failed empty-date create of `CreateEmptyDatePartialWrite` keeps
      months matching dates and every line equal to its total, but the stored
      record's bucket has no line, so the store is no longer complete. */
  lemma CreateEmptyDateBreaksComplete(s: State, req: NewTransaction)
    requires WellFormed(s) && Consistent(s)
    requires req.amount.Some? && req.date == "" && "" !in s.budgets
    ensures CreateTransaction(s, req).out.Failure?
    ensures WellFormed(CreateTransaction(s, req).state)
    ensures Consistent(CreateTransaction(s, req).state)
    ensures !Complete(CreateTransaction(s, req).state)
  {
    var r := CreateTransaction(s, req);
    var t := r.state.txns[|s.txns|];
    assert t.month == "";
    forall m, c | m in r.state.budgets && c in r.state.budgets[m]
      ensures r.state.budgets[m][c].spent == Total(r.state.txns, m, c)
    {
      TotalAppend(s.txns, t, m, c);
    }
  }

  /** A successful create keeps the three invariants. */
  lemma CreatePreserves(s: State, req: NewTransaction)
    requires WellFormed(s) && Consistent(s) && Complete(s)
    requires CreateTransaction(s, req).out.Success?
    ensures WellFormed(CreateTransaction(s, req).state)
    ensures Consistent(CreateTransaction(s, req).state)
    ensures Complete(CreateTransaction(s, req).state)
  {
    var r := CreateTransaction(s, req);
    forall m, c | m in r.state.budgets && c in r.state.budgets[m]
      ensures r.state.budgets[m][c].spent == Total(r.state.txns, m, c)
    {
      CreateKeepsLine(s, req, m, c);
    }
    forall i | 0 <= i < |r.state.txns|
      ensures r.state.txns[i].month in r.state.budgets && r.state.txns[i].category in r.state.budgets[r.state.txns[i].month]
    {
      CreateKeepsBucket(s, req, i);
    }
  }

  /** One line of `DeletePreserves`: the new total is the old one minus the removed share. */
  lemma DeleteKeepsLine(s: State, id: nat, m: string, c: string)
    requires WellFormed(s) && Consistent(s)
    requires DeleteTransaction(s, id).out.Success?
    requires EntryAt(DeleteTransaction(s, id).state.budgets, m, c).Some?
    ensures DeleteTransaction(s, id).state.budgets[m][c].spent == Total(DeleteTransaction(s, id).state.txns, m, c)
  {
    var i := FindById(s.txns, id).value;
    TotalRemove(s.txns, i, m, c);
    assert EntryAt(s.budgets, m, c).Some?;
  }

  /** A delete keeps the three invariants. */
  lemma DeletePreserves(s: State, id: nat)
    requires WellFormed(s) && Consistent(s) && Complete(s)
    ensures WellFormed(DeleteTransaction(s, id).state)
    ensures Consistent(DeleteTransaction(s, id).state)
    ensures Complete(DeleteTransaction(s, id).state)
  {
    var r := DeleteTransaction(s, id);
    if r.out.Success? {
      var i := FindById(s.txns, id).value;
      var t := s.txns[i];
      var rest := r.state.txns;
      forall m, c | m in r.state.budgets && c in r.state.budgets[m]
        ensures r.state.budgets[m][c].spent == Total(rest, m, c)
      {
        DeleteKeepsLine(s, id, m, c);
      }
      forall j | 0 <= j < |rest|
        ensures rest[j].month in r.state.budgets && rest[j].category in r.state.budgets[rest[j].month]
      {
        var u := rest[j];
        assert EntryAt(s.budgets, u.month, u.category).Some?;
        if u.month != MonthOf(t.date) || u.category != t.category {
          assert EntryAt(r.state.budgets, u.month, u.category).Some?;
        }
      }
    }
  }

  /** An edit that keeps the date and month and sends a category keeps every
      existing line equal to its total. */
  lemma UpdatePreserves(s: State, id: nat, e: Edit)
    requires WellFormed(s) && Consistent(s)
    requires e.category.Some? && e.date.None? && e.month.None?
    ensures WellFormed(UpdateTransaction(s, id, e).state)
    ensures Consistent(UpdateTransaction(s, id, e).state)
  {
    var r := UpdateTransaction(s, id, e);
    if r.out.Success? {
      var i := FindById(s.txns, id).value;
      var orig := s.txns[i];
      var u := ApplyEdit(orig, e);
      var month := MonthOf(orig.date);
      assert r.state.txns == s.txns[i := u];
      forall m, c | m in r.state.budgets && c in r.state.budgets[m]
        ensures r.state.budgets[m][c].spent == Total(r.state.txns, m, c)
      {
        TotalReplace(s.txns, i, u, m, c);
        if m == month && Changes(orig, e) {
          UpdateMovesAmount(s, id, e, c);
        } else if m != month {
          UpdateTouchesOnlyOriginalMonth(s, id, e, m);
        }
      }
    }
  }

  /** An edit keeps every record's bucket covered exactly when the edited
      record lands in a bucket that already has a line: no edit creates one. */
  lemma UpdateKeepsComplete(s: State, id: nat, e: Edit)
    requires Complete(s) && e.month.None?
    requires FindById(s.txns, id).Some? ==>
      var orig := s.txns[FindById(s.txns, id).value];
      EntryAt(s.budgets, orig.month, e.category.GetOr(orig.category)).Some?
    ensures Complete(UpdateTransaction(s, id, e).state)
  {
  }

  /** An edit to a category with no line in the record's month breaks
      completeness, after which `CreatePreserves` no longer applies. */
  lemma UpdateToMissingLineBreaksComplete(s: State, id: nat, e: Edit)
    requires FindById(s.txns, id).Some?
    requires e.month.None? && e.category.Some?
    requires EntryAt(s.budgets, s.txns[FindById(s.txns, id).value].month, e.category.value).None?
    ensures UpdateTransaction(s, id, e).out.Success?
    ensures !Complete(UpdateTransaction(s, id, e).state)
  {
    var i := FindById(s.txns, id).value;
    var r := UpdateTransaction(s, id, e);
    assert r.state.txns[i] == ApplyEdit(s.txns[i], e);
  }

  /** An edit whose body omits the category still passes the guard (an absent
      category differs from the stored one), so the old amount comes off the
      record's line while the new amount is credited to no line. The record
      keeps its category, so that line ends short of its total by exactly the
      new amount. This is why `UpdatePreserves` asks for a sent category. */
  lemma UpdateWithoutCategoryDrifts(s: State, id: nat, e: Edit)
    requires WellFormed(s) && Consistent(s)
    requires FindById(s.txns, id).Some?
    requires e.category.None? && e.date.None? && e.month.None?
    requires var orig := s.txns[FindById(s.txns, id).value];
      EntryAt(s.budgets, orig.month, orig.category).Some?
    ensures
      var orig := s.txns[FindById(s.txns, id).value];
      var after := UpdateTransaction(s, id, e).state;
      && EntryAt(after.budgets, orig.month, orig.category).Some?
      && EntryAt(after.budgets, orig.month, orig.category).value.spent
           == Total(after.txns, orig.month, orig.category) - e.amount
    ensures e.amount != 0 ==> !Consistent(UpdateTransaction(s, id, e).state)
  {
    var i := FindById(s.txns, id).value;
    var orig := s.txns[i];
    var u := ApplyEdit(orig, e);
    var after := UpdateTransaction(s, id, e).state;
    assert orig.month == MonthOf(orig.date);
    assert Changes(orig, e);
    assert after.txns == s.txns[i := u];
    TotalReplace(s.txns, i, u, orig.month, orig.category);
    UpdateMovesAmount(s, id, e, orig.category);
  }

  /** Whatever drift the month carried, a reconcile leaves every line of it
      equal to its total and gives every bucket of the month a line. */
  lemma ReconcileHeals(s: State, month: string)
    requires month != ""
    ensures Reconcile(s, month).out.Success?
    ensures forall c :: c in Reconcile(s, month).state.budgets[month] ==>
      Reconcile(s, month).state.budgets[month][c].spent == Total(s.txns, month, c)
    ensures forall c :: HasBucket(s.txns, month, c) ==> c in Reconcile(s, month).state.budgets[month]
  {
  }

  /** Reconcile keeps every line of every month equal to its total. */
  lemma ReconcilePreserves(s: State, month: string)
    requires Consistent(s)
    ensures Consistent(Reconcile(s, month).state)
  {
  }
}
