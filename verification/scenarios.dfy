/** Worked request sequences on one record. */
module Scenarios {
  import opened Wrappers
  import opened Schema
  import opened Ledger
  import opened TransactionHandlers
  import opened Consistency

  /** Create 50 on Meal in 2025-03, move it to 80 on Travel, then delete it.
      Travel is not a declared category and no request of the sequence writes
      a line for it, so the edit takes 50 off Meal and credits the 80 nowhere;
      the delete then finds no Travel line either. */
  lemma MealToTravelScenario()
    ensures
      var s0 := State([], map[], 0);
      var r1 := CreateTransaction(s0, NewTransaction(Some(50), "lunch", "2025-03-05", "Meal"));
      var r2 := UpdateTransaction(r1.state, 0, Edit(80, Some("Travel"), None, None, None));
      var r3 := DeleteTransaction(r2.state, 0);
      && r1.out.Success?
      && EntryAt(r1.state.budgets, "2025-03", "Meal") == Some(Entry(0, 50))
      && r2.out.Success?
      && EntryAt(r2.state.budgets, "2025-03", "Meal") == Some(Entry(0, 0))
      && EntryAt(r2.state.budgets, "2025-03", "Travel") == None
      && r3.out.Success?
      && r3.state.txns == []
      && r3.state.budgets == map["2025-03" := map["Meal" := Entry(0, 0)]]
      && DeleteTransaction(r3.state, 0).out == Failure(NotFound)
  {
    var s0 := State([], map[], 0);
    assert MonthOf("2025-03-05") == "2025-03";
    var r1 := CreateTransaction(s0, NewTransaction(Some(50), "lunch", "2025-03-05", "Meal"));
    assert r1.state.txns == [Transaction(0, 50, "lunch", "2025-03-05", "Meal", "2025-03")];
    assert r1.state.budgets == map["2025-03" := map["Meal" := Entry(0, 50)]];
    var r2 := UpdateTransaction(r1.state, 0, Edit(80, Some("Travel"), None, None, None));
    assert FindById(r1.state.txns, 0) == Some(0);
    var orig := r1.state.txns[0];
    var e := Edit(80, Some("Travel"), None, None, None);
    assert "Travel" != "Meal" by {
      assert "Travel"[0] != "Meal"[0];
    }
    assert Changes(orig, e);
    assert MonthOf(orig.date) == "2025-03";
    var b1 := AddSpent(map["Meal" := Entry(0, 50)], "Meal", -50);
    assert b1 == map["Meal" := Entry(0, 0)];
    assert Rebalance(r1.state.budgets, orig, e) == map["2025-03" := b1];
    assert r2.state.budgets == map["2025-03" := map["Meal" := Entry(0, 0)]];
    assert r2.state.txns == [Transaction(0, 80, "lunch", "2025-03-05", "Travel", "2025-03")];
    var r3 := DeleteTransaction(r2.state, 0);
    assert FindById(r2.state.txns, 0) == Some(0);
  }

  /** One consistent record of 50 on Meal, edited to 80 by a body without a
      category: Meal's line drops to 0 while its bucket now totals 80. */
  lemma EditWithoutCategoryScenario()
    ensures
      var s := State([Transaction(0, 50, "lunch", "2025-03-05", "Meal", "2025-03")],
                     map["2025-03" := map["Meal" := Entry(0, 50)]], 1);
      var r := UpdateTransaction(s, 0, Edit(80, None, None, None, None));
      && WellFormed(s) && Consistent(s)
      && r.out.Success?
      && EntryAt(r.state.budgets, "2025-03", "Meal") == Some(Entry(0, 0))
      && Total(r.state.txns, "2025-03", "Meal") == 80
      && !Consistent(r.state)
  {
    var t := Transaction(0, 50, "lunch", "2025-03-05", "Meal", "2025-03");
    var s := State([t], map["2025-03" := map["Meal" := Entry(0, 50)]], 1);
    var e := Edit(80, None, None, None, None);
    assert MonthOf("2025-03-05") == "2025-03";
    assert Total(s.txns, "2025-03", "Meal") == 50;
    assert FindById(s.txns, 0) == Some(0);
    UpdateWithoutCategoryDrifts(s, 0, e);
    var r := UpdateTransaction(s, 0, e);
    assert r.state.txns == [ApplyEdit(t, e)];
    assert Total(r.state.txns, "2025-03", "Meal") == 80;
  }

  /** A consistent, complete store with 50 on Meal. Moving the record to
      Travel, which has no line, keeps every line equal to its total but leaves
      the record's bucket without a line; a later create of 10 on Travel then
      opens the line at 10 while the bucket totals 60. */
  lemma EditThenCreateScenario()
    ensures
      var s := State([Transaction(0, 50, "lunch", "2025-03-05", "Meal", "2025-03")],
                     map["2025-03" := map["Meal" := Entry(0, 50)]], 1);
      var r1 := UpdateTransaction(s, 0, Edit(50, Some("Travel"), None, None, None));
      var r2 := CreateTransaction(r1.state, NewTransaction(Some(10), "taxi", "2025-03-20", "Travel"));
      && WellFormed(s) && Consistent(s) && Complete(s)
      && r1.out.Success? && WellFormed(r1.state) && Consistent(r1.state) && !Complete(r1.state)
      && r2.out.Success?
      && EntryAt(r2.state.budgets, "2025-03", "Travel") == Some(Entry(0, 10))
      && Total(r2.state.txns, "2025-03", "Travel") == 60
      && !Consistent(r2.state)
  {
    var t := Transaction(0, 50, "lunch", "2025-03-05", "Meal", "2025-03");
    var s := State([t], map["2025-03" := map["Meal" := Entry(0, 50)]], 1);
    var e := Edit(50, Some("Travel"), None, None, None);
    EditToTravelStep();
    CreateOnTravelStep(UpdateTransaction(s, 0, e).state);
  }

  /** The edit of `EditThenCreateScenario`: the record moves to Travel and
      Meal's line drops to 0. */
  lemma EditToTravelStep()
    ensures
      var t := Transaction(0, 50, "lunch", "2025-03-05", "Meal", "2025-03");
      var s := State([t], map["2025-03" := map["Meal" := Entry(0, 50)]], 1);
      var r1 := UpdateTransaction(s, 0, Edit(50, Some("Travel"), None, None, None));
      && WellFormed(s) && Consistent(s) && Complete(s)
      && r1.out.Success? && WellFormed(r1.state) && Consistent(r1.state) && !Complete(r1.state)
      && r1.state == State([t.(category := "Travel")], map["2025-03" := map["Meal" := Entry(0, 0)]], 1)
  {
    var t := Transaction(0, 50, "lunch", "2025-03-05", "Meal", "2025-03");
    var s := State([t], map["2025-03" := map["Meal" := Entry(0, 50)]], 1);
    var e := Edit(50, Some("Travel"), None, None, None);
    assert MonthOf("2025-03-05") == "2025-03";
    assert Total(s.txns, "2025-03", "Meal") == 50;
    assert FindById(s.txns, 0) == Some(0);
    assert "Travel" != "Meal" by {
      assert "Travel"[0] != "Meal"[0];
    }
    UpdatePreserves(s, 0, e);
    UpdateToMissingLineBreaksComplete(s, 0, e);
    assert Changes(t, e);
    var b1 := AddSpent(map["Meal" := Entry(0, 50)], "Meal", -50);
    assert b1 == map["Meal" := Entry(0, 0)];
    assert Rebalance(s.budgets, t, e) == map["2025-03" := b1];
  }

  /** The create of `EditThenCreateScenario`: Travel's line opens at 10 while
      its bucket holds 50 + 10. */
  lemma CreateOnTravelStep(s1: State)
    requires s1 == State([Transaction(0, 50, "lunch", "2025-03-05", "Travel", "2025-03")],
                         map["2025-03" := map["Meal" := Entry(0, 0)]], 1)
    ensures
      var r2 := CreateTransaction(s1, NewTransaction(Some(10), "taxi", "2025-03-20", "Travel"));
      && r2.out.Success?
      && EntryAt(r2.state.budgets, "2025-03", "Travel") == Some(Entry(0, 10))
      && Total(r2.state.txns, "2025-03", "Travel") == 60
      && !Consistent(r2.state)
  {
    var u := s1.txns[0];
    assert MonthOf("2025-03-20") == "2025-03";
    var r2 := CreateTransaction(s1, NewTransaction(Some(10), "taxi", "2025-03-20", "Travel"));
    var n := Transaction(1, 10, "taxi", "2025-03-20", "Travel", "2025-03");
    assert r2.state.txns == [u, n];
    assert Total(r2.state.txns, "2025-03", "Travel") == 60 by {
      assert r2.state.txns[..1] == [u];
      assert Total([u], "2025-03", "Travel") == 50 by {
        assert [u][..0] == [];
      }
    }
  }
}
