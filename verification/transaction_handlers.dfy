/** The three transaction mutations with their compensating budget writes:
    create (controllers/transaction.js), edit and delete (app.js). */
module TransactionHandlers {
  import opened Wrappers
  import opened Schema
  import opened Ledger
  import opened DateOrder

  /** A creation request. `amount` is `None` when `Number(amount)` is NaN. */
  datatype NewTransaction = NewTransaction(amount: Option<int>, description: string, date: string, category: string)

  /** An edit request body. The amount is always sent; any other field left
      out (`None`) keeps its stored value. */
  datatype Edit = Edit(
    amount: int,
    category: Option<string>,
    description: Option<string>,
    date: Option<string>,
    month: Option<string>)

  /** The first record at or after `from` carrying `id`. */
  function FindFrom(txns: seq<Transaction>, id: nat, from: nat): (r: Option<nat>)
    requires from <= |txns|
    ensures r.Some? ==> from <= r.value < |txns| && txns[r.value].id == id
    ensures r.Some? ==> forall j :: from <= j < r.value ==> txns[j].id != id
    ensures r.None? ==> forall j :: from <= j < |txns| ==> txns[j].id != id
    decreases |txns| - from
  {
    if from == |txns| then None
    else if txns[from].id == id then Some(from)
    else FindFrom(txns, id, from + 1)
  }

  /** `findById`: the position of the first record with this id, if any. */
  function FindById(txns: seq<Transaction>, id: nat): (r: Option<nat>)
    ensures r.Some? ==> r.value < |txns| && txns[r.value].id == id
    ensures r.Some? ==> forall j :: 0 <= j < r.value ==> txns[j].id != id
    ensures r.None? <==> forall j :: 0 <= j < |txns| ==> txns[j].id != id
  {
    FindFrom(txns, id, 0)
  }

  /** Every record has its own id, and all are below the next one handed out. */
  predicate UniqueIds(s: State) {
    && (forall i :: 0 <= i < |s.txns| ==> s.txns[i].id < s.nextId)
    && (forall i, j :: 0 <= i < j < |s.txns| ==> s.txns[i].id != s.txns[j].id)
  }

  // ---------------------------------------------------------------- create

  /** POST a transaction: convert the amount, store the record with
      `month = date[0..7]`, then credit the amount to that month's category,
      creating the budget or the category line (limit 0) when missing. */
  function CreateTransaction(s: State, req: NewTransaction): (r: Step<(Transaction, Entry)>)
    ensures req.amount.None? ==> r == Step(s, Failure(Thrown))
    ensures req.amount.Some? ==>
      var t := Transaction(s.nextId, req.amount.value, req.description, req.date, req.category, MonthOf(req.date));
      r.state.txns == s.txns + [t] && r.state.nextId == s.nextId + 1
    ensures r.out.Failure? <==> req.amount.None? || (MonthOf(req.date) !in s.budgets && MonthOf(req.date) == "")
    ensures r.out.Failure? ==> r.state.budgets == s.budgets
    ensures r.out.Success? ==>
      var month := MonthOf(req.date);
      var before := EntryAt(s.budgets, month, req.category).GetOr(ZeroEntry);
      && r.out.value.0.month == month
      && r.out.value.1 == Entry(before.limit, before.spent + req.amount.value)
      && EntryAt(r.state.budgets, month, req.category) == Some(r.out.value.1)
      && r.state.budgets.Keys == s.budgets.Keys + {month}
      && (month !in s.budgets ==> r.state.budgets[month].Keys == {req.category})
    ensures r.out.Success? ==>
      forall m, c :: (m != MonthOf(req.date) || c != req.category) ==>
        EntryAt(r.state.budgets, m, c) == EntryAt(s.budgets, m, c)
  {
    match req.amount
    case None => Step(s, Failure(Thrown))
    case Some(amount) =>
      var month := MonthOf(req.date);
      var t := Transaction(s.nextId, amount, req.description, req.date, req.category, month);
      var stored := s.(txns := s.txns + [t], nextId := s.nextId + 1);
      if month !in s.budgets then
        var line := Entry(0, amount);
        match CreateBudget(s.budgets, month, map[req.category := line])
        case Failure(e) => Step(stored, Failure(e))
        case Success(budgets) => Step(stored.(budgets := budgets), Success((t, line)))
      else
        var b := s.budgets[month];
        var line := if req.category in b then b[req.category].(spent := b[req.category].spent + amount)
                    else Entry(0, amount);
        Step(stored.(budgets := s.budgets[month := b[req.category := line]]), Success((t, line)))
  }

  /** A date whose month is empty and has no budget: the record is stored, the
      budget insert fails schema validation, and the request reports an error. */
  lemma CreateEmptyDatePartialWrite(s: State, req: NewTransaction)
    requires req.amount.Some? && req.date == "" && "" !in s.budgets
    ensures CreateTransaction(s, req).out == Failure(Thrown)
    ensures |CreateTransaction(s, req).state.txns| == |s.txns| + 1
  {
  }

  /** Creation hands out a fresh id, so ids stay unique. */
  lemma CreateKeepsUniqueIds(s: State, req: NewTransaction)
    requires UniqueIds(s)
    ensures UniqueIds(CreateTransaction(s, req).state)
  {
  }

  // ------------------------------------------------------------------ edit

  /** The record after `findByIdAndUpdate` merged the body into it. */
  function ApplyEdit(t: Transaction, e: Edit): Transaction {
    t.(amount := e.amount,
       category := e.category.GetOr(t.category),
       description := e.description.GetOr(t.description),
       date := e.date.GetOr(t.date),
       month := e.month.GetOr(t.month))
  }

  /** The guard of the compensating write: the sent amount or category differs
      from the stored one (an absent category always differs). */
  predicate Changes(orig: Transaction, e: Edit) {
    orig.amount != e.amount || e.category != Some(orig.category)
  }

  /** The compensating write against the ORIGINAL date's month: take the old
      amount off the old category and put the new amount on the new category,
      each only where that line already exists. */
  function Rebalance(budgets: map<string, Budget>, orig: Transaction, e: Edit): (r: map<string, Budget>)
    ensures r.Keys == budgets.Keys
    ensures forall m :: m in budgets ==> r[m].Keys == budgets[m].Keys
    ensures forall m, c :: m in budgets && c in budgets[m] ==> r[m][c].limit == budgets[m][c].limit
    ensures forall m :: m in budgets && m != MonthOf(orig.date) ==> r[m] == budgets[m]
  {
    var month := MonthOf(orig.date);
    if month !in budgets then budgets
    else
      var b := budgets[month];
      var b1 := if orig.category in b then AddSpent(b, orig.category, -orig.amount) else b;
      var b2 := if e.category.Some? && e.category.value in b1 then AddSpent(b1, e.category.value, e.amount) else b1;
      budgets[month := b2]
  }

  /** PUT a transaction: 404 for an unknown id; otherwise merge the body,
      compensate the budget when amount or category changed, and answer with
      the whole list newest first. */
  function UpdateTransaction(s: State, id: nat, e: Edit): (r: Step<seq<Transaction>>)
    ensures FindById(s.txns, id).None? ==> r == Step(s, Failure(NotFound))
    ensures FindById(s.txns, id).Some? ==>
      var i := FindById(s.txns, id).value;
      && r.state.txns == s.txns[i := ApplyEdit(s.txns[i], e)]
      && r.out.Success?
      && multiset(r.out.value) == multiset(r.state.txns)
      && SortedDesc(r.out.value)
    ensures r.state.nextId == s.nextId
    ensures r.state.budgets.Keys == s.budgets.Keys
    ensures forall m :: m in s.budgets ==> r.state.budgets[m].Keys == s.budgets[m].Keys
    ensures forall m, c :: m in s.budgets && c in s.budgets[m] ==> r.state.budgets[m][c].limit == s.budgets[m][c].limit
  {
    match FindById(s.txns, id)
    case None => Step(s, Failure(NotFound))
    case Some(i) =>
      var orig := s.txns[i];
      var txns := s.txns[i := ApplyEdit(orig, e)];
      var budgets := if Changes(orig, e) then Rebalance(s.budgets, orig, e) else s.budgets;
      Step(State(txns, budgets, s.nextId), Success(SortByDateDesc(txns)))
  }

  /** Resending the stored amount and category leaves every budget alone. */
  lemma UpdateSameAmountAndCategory(s: State, id: nat, e: Edit)
    requires FindById(s.txns, id).Some?
    requires var orig := s.txns[FindById(s.txns, id).value]; e.amount == orig.amount && e.category == Some(orig.category)
    ensures UpdateTransaction(s, id, e).state.budgets == s.budgets
  {
  }

  /** Only the budget of the original date's month can change, even when the
      body moves the record to another date. */
  lemma UpdateTouchesOnlyOriginalMonth(s: State, id: nat, e: Edit, m: string)
    requires FindById(s.txns, id).Some?
    requires m != MonthOf(s.txns[FindById(s.txns, id).value].date)
    ensures m in UpdateTransaction(s, id, e).state.budgets <==> m in s.budgets
    ensures m in s.budgets ==> UpdateTransaction(s, id, e).state.budgets[m] == s.budgets[m]
  {
  }

  /** In the original month, each line loses the old amount if it is the old
      category and gains the new amount if it is the sent category; a sent
      category with no line is not created. */
  lemma UpdateMovesAmount(s: State, id: nat, e: Edit, c: string)
    requires FindById(s.txns, id).Some?
    requires var orig := s.txns[FindById(s.txns, id).value];
      Changes(orig, e) && MonthOf(orig.date) in s.budgets
    ensures
      var orig := s.txns[FindById(s.txns, id).value];
      var month := MonthOf(orig.date);
      var after := UpdateTransaction(s, id, e).state.budgets;
      && (c in after[month] <==> c in s.budgets[month])
      && (c in s.budgets[month] ==>
            after[month][c].spent == s.budgets[month][c].spent
              - (if c == orig.category then orig.amount else 0)
              + (if e.category == Some(c) then e.amount else 0))
  {
  }

  /** Same category, line present: `spent` moves by exactly new minus old
      amount; every other line and every limit stays. */
  lemma UpdateSameCategoryDelta(s: State, id: nat, e: Edit)
    requires FindById(s.txns, id).Some?
    requires var orig := s.txns[FindById(s.txns, id).value];
      && e.category == Some(orig.category)
      && MonthOf(orig.date) in s.budgets && orig.category in s.budgets[MonthOf(orig.date)]
    ensures
      var orig := s.txns[FindById(s.txns, id).value];
      var month := MonthOf(orig.date);
      var after := UpdateTransaction(s, id, e).state.budgets;
      && after[month][orig.category].spent == s.budgets[month][orig.category].spent + e.amount - orig.amount
      && forall m, c :: (m != month || c != orig.category) ==> EntryAt(after, m, c) == EntryAt(s.budgets, m, c)
  {
  }

  // ---------------------------------------------------------------- delete

  /** DELETE a transaction: 404 for an unknown id; otherwise take its amount
      off the line of its date's month and category when that line exists,
      then remove the record. */
  function DeleteTransaction(s: State, id: nat): (r: Step<()>)
    ensures FindById(s.txns, id).None? ==> r == Step(s, Failure(NotFound))
    ensures FindById(s.txns, id).Some? ==>
      var i := FindById(s.txns, id).value;
      var t := s.txns[i];
      && r.out.Success?
      && r.state.txns == RemoveAt(s.txns, i)
      && multiset(r.state.txns) + multiset{t} == multiset(s.txns)
      && r.state.budgets == Debit(s.budgets, MonthOf(t.date), t.category, t.amount)
    ensures r.state.nextId == s.nextId
  {
    match FindById(s.txns, id)
    case None => Step(s, Failure(NotFound))
    case Some(i) =>
      var t := s.txns[i];
      Step(State(RemoveAt(s.txns, i), Debit(s.budgets, MonthOf(t.date), t.category, t.amount), s.nextId), Success(()))
  }

  /** With unique ids, a second delete of the same id is a 404. */
  lemma DeleteTwiceNotFound(s: State, id: nat)
    requires UniqueIds(s)
    requires DeleteTransaction(s, id).out.Success?
    ensures UniqueIds(DeleteTransaction(s, id).state)
    ensures DeleteTransaction(DeleteTransaction(s, id).state, id).out == Failure(NotFound)
  {
    var i := FindById(s.txns, id).value;
    var rest := DeleteTransaction(s, id).state.txns;
    forall j | 0 <= j < |rest| ensures rest[j].id != id {
      if j < i {
        assert rest[j] == s.txns[j];
      } else {
        assert rest[j] == s.txns[j + 1];
      }
    }
  }
}
