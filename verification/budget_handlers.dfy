/** The budget endpoints: the read-only fetch and the limit setter registered in
    app.js, the limit setter and reconciling fetch of controllers/budget.js,
    and the resync run by the transaction list (controllers/getTransaction.js). */
module BudgetHandlers {
  import opened Wrappers
  import opened Schema
  import opened Ledger
  import opened DateOrder

  /** A limits object as sent: category to value, `None` where the value does
      not convert to a number. */
  type Limits = map<string, Option<int>>

  /** `Number(v) || 0`: a non-numeric value becomes 0. */
  function LimitValue(v: Option<int>): int {
    v.GetOr(0)
  }

  /** A month field that is absent or empty fails `!month`. */
  predicate MissingMonth(month: Option<string>) {
    month.None? || month.value == ""
  }

  /** A budget created from a limits object: exactly its categories, nothing spent. */
  function FreshBudget(limits: Limits): (b: Budget)
    ensures b.Keys == limits.Keys
    ensures forall c :: c in limits ==> b[c] == Entry(LimitValue(limits[c]), 0)
  {
    map c | c in limits :: Entry(LimitValue(limits[c]), 0)
  }

  // ----------------------------------------------- GET /api/budgets/:month (app.js)

  /** The read-only fetch: the stored budget, or the four declared categories
      at zero when the month has none. Nothing is written. */
  function FetchBudget(s: State, month: string): (r: Step<Budget>)
    ensures r.state == s && r.out.Success?
    ensures month in s.budgets ==> r.out.value == s.budgets[month]
    ensures month !in s.budgets ==> r.out.value.Keys == DeclaredCategories
    ensures month !in s.budgets ==> forall c :: c in r.out.value ==> r.out.value[c] == Entry(0, 0)
  {
    Step(s, Success(if month in s.budgets then s.budgets[month] else DefaultBudget()))
  }

  // ---------------------------------------------------- POST /api/budgets (app.js)

  /** Each sent category gets the sent limit and keeps its `spent` (0 when new);
      other lines are kept. */
  function OverwriteLimits(b: Budget, limits: Limits): Budget {
    b + map c | c in limits :: Entry(LimitValue(limits[c]), if c in b then b[c].spent else 0)
  }

  /** The limit setter registered in app.js: no negative check, and sent
      categories the budget lacks are added. */
  function PostBudgets(s: State, month: Option<string>, limits: Option<Limits>): (r: Step<()>)
    ensures MissingMonth(month) || limits.None? ==> r == Step(s, Failure(Invalid))
    ensures !MissingMonth(month) && limits.Some? ==> r.out.Success?
    ensures r.state.txns == s.txns && r.state.nextId == s.nextId
    ensures r.out.Success? ==> r.state.budgets.Keys == s.budgets.Keys + {month.value}
    ensures r.out.Success? ==> forall m :: m in s.budgets && m != month.value ==> r.state.budgets[m] == s.budgets[m]
    ensures r.out.Success? ==> forall c :: c in limits.value ==>
      EntryAt(r.state.budgets, month.value, c) == Some(Entry(LimitValue(limits.value[c]), SpentAt(s.budgets, month.value, c)))
    ensures r.out.Success? ==> forall c :: c !in limits.value ==>
      EntryAt(r.state.budgets, month.value, c) == EntryAt(s.budgets, month.value, c)
  {
    if MissingMonth(month) || limits.None? then Step(s, Failure(Invalid))
    else if month.value in s.budgets then
      var b := OverwriteLimits(s.budgets[month.value], limits.value);
      Step(s.(budgets := s.budgets[month.value := b]), Success(()))
    else
      match CreateBudget(s.budgets, month.value, FreshBudget(limits.value))
      case Failure(e) => Step(s, Failure(e))
      case Success(budgets) => Step(s.(budgets := budgets), Success(()))
  }

  /** Sending the same limits twice leaves the state of the first call. */
  lemma PostBudgetsIdempotent(s: State, month: Option<string>, limits: Option<Limits>)
    ensures PostBudgets(PostBudgets(s, month, limits).state, month, limits).state == PostBudgets(s, month, limits).state
  {
    var once := PostBudgets(s, month, limits).state;
    var twice := PostBudgets(once, month, limits).state;
    if !MissingMonth(month) && limits.Some? {
      var m := month.value;
      assert twice.budgets.Keys == once.budgets.Keys;
      assert twice.budgets[m] == once.budgets[m] by {
        forall c ensures EntryAt(twice.budgets, m, c) == EntryAt(once.budgets, m, c) {
        }
      }
    }
  }

  // ------------------------------------- setBudget (controllers/budget.js)

  /** Some sent limit is a number below zero. */
  predicate HasNegative(limits: Limits) {
    exists c :: c in limits && limits[c].Some? && limits[c].value < 0
  }

  /** Sent categories already in the budget get the sent limit; unknown ones are
      ignored; `spent` is never touched. */
  function SetLimitsIn(b: Budget, limits: Limits): Budget {
    map c | c in b :: if c in limits then b[c].(limit := LimitValue(limits[c])) else b[c]
  }

  /** The controller's limit setter. An absent limits object makes the negative
      scan throw; a negative limit or an absent month is rejected; none of these
      touches the state. */
  function SetBudget(s: State, month: Option<string>, limits: Option<Limits>): (r: Step<Budget>)
    ensures limits.None? ==> r == Step(s, Failure(Thrown))
    ensures limits.Some? && HasNegative(limits.value) ==> r == Step(s, Failure(Invalid))
    ensures r.out.Failure? <==> limits.None? || HasNegative(limits.value) || MissingMonth(month)
    ensures r.out.Failure? ==> r.state == s
    ensures r.out.Success? ==> r.state == s.(budgets := s.budgets[month.value := r.out.value])
    ensures r.out.Success? && month.value in s.budgets ==>
      var before := s.budgets[month.value];
      && r.out.value.Keys == before.Keys
      && forall c :: c in before ==>
           r.out.value[c].spent == before[c].spent
           && r.out.value[c].limit == (if c in limits.value then LimitValue(limits.value[c]) else before[c].limit)
    ensures r.out.Success? && month.value !in s.budgets ==>
      && r.out.value.Keys == limits.value.Keys
      && forall c :: c in limits.value ==> r.out.value[c] == Entry(LimitValue(limits.value[c]), 0)
  {
    match limits
    case None => Step(s, Failure(Thrown))
    case Some(sent) =>
      if HasNegative(sent) then Step(s, Failure(Invalid))
      else if MissingMonth(month) then Step(s, Failure(Invalid))
      else if month.value in s.budgets then
        var b := SetLimitsIn(s.budgets[month.value], sent);
        Step(s.(budgets := s.budgets[month.value := b]), Success(b))
      else
        var b := FreshBudget(sent);
        match CreateBudget(s.budgets, month.value, b)
        case Failure(e) => Step(s, Failure(e))
        case Success(budgets) => Step(s.(budgets := budgets), Success(b))
  }

  /** Sending the same limits twice leaves the state of the first call. */
  lemma SetBudgetIdempotent(s: State, month: Option<string>, limits: Option<Limits>)
    ensures SetBudget(SetBudget(s, month, limits).state, month, limits).state == SetBudget(s, month, limits).state
  {
    var first := SetBudget(s, month, limits);
    if first.out.Success? {
      var m := month.value;
      var again := SetBudget(first.state, month, limits);
      assert again.out.value == first.out.value;
    }
  }

  /** The two limit setters part ways: on an existing budget, a category it
      lacks is added by the app.js route and ignored by the controller; a
      negative limit is stored by the former and rejected by the latter. */
  lemma LimitSettersDiffer(s: State, month: string, c: string, v: int)
    requires month != "" && month in s.budgets && c !in s.budgets[month]
    ensures EntryAt(PostBudgets(s, Some(month), Some(map[c := Some(v)])).state.budgets, month, c) == Some(Entry(v, 0))
    ensures v >= 0 ==> EntryAt(SetBudget(s, Some(month), Some(map[c := Some(v)])).state.budgets, month, c) == None
    ensures v < 0 ==> SetBudget(s, Some(month), Some(map[c := Some(v)])).out == Failure(Invalid)
  {
  }

  // ------------------------------------- getBudget (controllers/budget.js)

  /** Existing lines keep their limit and take the month's total (0 if none);
      categories seen only in transactions are added with limit 0. */
  function Reconciled(b: Budget, totals: map<string, int>): Budget {
    var updated := map c | c in b :: Entry(b[c].limit, ValueOr0(totals, c));
    updated + map c | c in totals && c !in updated :: Entry(0, totals[c])
  }

  /** The reconciling fetch: recompute every `spent` of the month from the
      transactions stored under it and write the result back, creating the
      budget when the month has none. */
  function Reconcile(s: State, month: string): (r: Step<Budget>)
    ensures r.state.txns == s.txns && r.state.nextId == s.nextId
    ensures r.out.Failure? <==> month !in s.budgets && month == ""
    ensures r.out.Failure? ==> r.state == s
    ensures r.out.Success? ==> r.state.budgets == s.budgets[month := r.out.value]
    ensures r.out.Success? ==> forall c :: c in r.out.value <==>
      (month in s.budgets && c in s.budgets[month]) || HasBucket(s.txns, month, c)
    ensures r.out.Success? ==> forall c :: c in r.out.value ==> r.out.value[c].spent == Total(s.txns, month, c)
    ensures r.out.Success? ==> forall c :: c in r.out.value ==>
      r.out.value[c].limit == (if month in s.budgets && c in s.budgets[month] then s.budgets[month][c].limit else 0)
  {
    var totals := SpentAmounts(s.txns, month);
    SpentAmountsTotals(s.txns, month);
    if month in s.budgets then
      var b := Reconciled(s.budgets[month], totals);
      Step(s.(budgets := s.budgets[month := b]), Success(b))
    else
      var b := map c | c in totals :: Entry(0, totals[c]);
      match CreateBudget(s.budgets, month, b)
      case Failure(e) => Step(s, Failure(e))
      case Success(budgets) => Step(s.(budgets := budgets), Success(b))
  }

  /** A second reconcile of the same month changes nothing. */
  lemma ReconcileIdempotent(s: State, month: string)
    ensures Reconcile(Reconcile(s, month).state, month) == Reconcile(s, month)
  {
    var once := Reconcile(s, month);
    var twice := Reconcile(once.state, month);
    if once.out.Success? {
      assert twice.out.value == once.out.value;
    }
  }

  /** The result does not depend on the stored `spent` values: two states that
      agree on transactions, categories and limits reconcile alike. */
  lemma ReconcileIgnoresSpent(s: State, t: State, month: string)
    requires s.txns == t.txns
    requires month in s.budgets <==> month in t.budgets
    requires month in s.budgets ==> s.budgets[month].Keys == t.budgets[month].Keys
    requires month in s.budgets ==> forall c :: c in s.budgets[month] ==> s.budgets[month][c].limit == t.budgets[month][c].limit
    ensures Reconcile(s, month).out == Reconcile(t, month).out
  {
    var rs := Reconcile(s, month);
    var rt := Reconcile(t, month);
    if rs.out.Success? {
      assert rs.out.value == rt.out.value;
    }
  }

  // ---------------------------- getTransaction (controllers/getTransaction.js)

  /** Every grouped category gets its total as `spent`, added with limit 0 when
      the budget lacks it; other lines are kept as they are. */
  function Resynced(b: Budget, row: map<string, int>): Budget {
    b + map c | c in row :: if c in b then b[c].(spent := row[c]) else Entry(0, row[c])
  }

  /** The loop over grouped months: only months that already have a budget are
      rewritten. */
  function ResyncBudgets(budgets: map<string, Budget>, g: map<string, map<string, int>>): (r: map<string, Budget>)
    ensures r.Keys == budgets.Keys
    ensures forall m, c :: m in budgets ==> (c in r[m] <==> c in budgets[m] || (m in g && c in g[m]))
    ensures forall m, c :: m in budgets && m in g && c in g[m] ==>
      r[m][c] == Entry(if c in budgets[m] then budgets[m][c].limit else 0, g[m][c])
    ensures forall m, c :: m in budgets && c in budgets[m] && !(m in g && c in g[m]) ==> r[m][c] == budgets[m][c]
  {
    map m | m in budgets :: if m in g then Resynced(budgets[m], g[m]) else budgets[m]
  }

  /** The sorted list has the same buckets and totals as the stored one. */
  lemma SortKeepsBuckets(txns: seq<Transaction>)
    ensures forall m, c :: HasBucket(SortByDateDesc(txns), m, c) <==> HasBucket(txns, m, c)
    ensures forall m, c :: Total(SortByDateDesc(txns), m, c) == Total(txns, m, c)
  {
    var sorted := SortByDateDesc(txns);
    forall m, c ensures HasBucket(sorted, m, c) <==> HasBucket(txns, m, c) {
      HasBucketPermutation(sorted, txns, m, c);
    }
    forall m, c ensures Total(sorted, m, c) == Total(txns, m, c) {
      TotalPermutation(sorted, txns, m, c);
    }
  }

  /** List the transactions newest first and, for every month that already has
      a budget, overwrite the `spent` of each category with transactions. */
  function ResyncAll(s: State): (r: Step<seq<Transaction>>)
    ensures r.state.txns == s.txns && r.state.nextId == s.nextId
    ensures r.out.Success? && multiset(r.out.value) == multiset(s.txns) && SortedDesc(r.out.value)
    ensures r.state.budgets.Keys == s.budgets.Keys
    ensures forall m, c :: m in s.budgets ==>
      (c in r.state.budgets[m] <==> c in s.budgets[m] || HasBucket(s.txns, m, c))
    ensures forall m, c :: m in s.budgets && HasBucket(s.txns, m, c) ==>
      r.state.budgets[m][c] == Entry(if c in s.budgets[m] then s.budgets[m][c].limit else 0, Total(s.txns, m, c))
    ensures forall m, c :: m in s.budgets && c in s.budgets[m] && !HasBucket(s.txns, m, c) ==>
      r.state.budgets[m][c] == s.budgets[m][c]
  {
    var sorted := SortByDateDesc(s.txns);
    var g := Group(sorted);
    GroupTotals(sorted);
    SortKeepsBuckets(s.txns);
    Step(s.(budgets := ResyncBudgets(s.budgets, g)), Success(sorted))
  }

  /** Resync's effect on the budgets, stated without its definition: what a
      second run needs to know about the first. */
  ghost predicate ResyncedFrom(before: map<string, Budget>, after: map<string, Budget>, txns: seq<Transaction>) {
    && after.Keys == before.Keys
    && (forall m, c :: m in before ==> (c in after[m] <==> c in before[m] || HasBucket(txns, m, c)))
    && (forall m, c :: m in before && HasBucket(txns, m, c) ==>
          after[m][c] == Entry(if c in before[m] then before[m][c].limit else 0, Total(txns, m, c)))
    && (forall m, c :: m in before && c in before[m] && !HasBucket(txns, m, c) ==> after[m][c] == before[m][c])
  }

  /** Resyncing from the same transactions a second time is a no-op. */
  lemma ResyncedTwice(b0: map<string, Budget>, b1: map<string, Budget>, b2: map<string, Budget>, txns: seq<Transaction>)
    requires ResyncedFrom(b0, b1, txns) && ResyncedFrom(b1, b2, txns)
    ensures b2 == b1
  {
    forall m | m in b1 ensures b2[m] == b1[m] {
      ResyncedTwiceAt(b0, b1, b2, txns, m);
    }
  }

  /** One month of `ResyncedTwice`. */
  lemma ResyncedTwiceAt(b0: map<string, Budget>, b1: map<string, Budget>, b2: map<string, Budget>, txns: seq<Transaction>, m: string)
    requires ResyncedFrom(b0, b1, txns) && ResyncedFrom(b1, b2, txns)
    requires m in b1
    ensures b2[m] == b1[m]
  {
    forall c ensures c in b2[m] <==> c in b1[m] {
    }
    forall c | c in b1[m] ensures b2[m][c] == b1[m][c] {
      ResyncedTwiceLine(b0, b1, b2, txns, m, c);
    }
  }

  /** One line of `ResyncedTwiceAt`. */
  lemma ResyncedTwiceLine(b0: map<string, Budget>, b1: map<string, Budget>, b2: map<string, Budget>, txns: seq<Transaction>, m: string, c: string)
    requires ResyncedFrom(b0, b1, txns) && ResyncedFrom(b1, b2, txns)
    requires m in b1 && c in b1[m]
    ensures b2[m][c] == b1[m][c]
  {
  }

  /** A second resync changes nothing. */
  lemma ResyncIdempotent(s: State)
    ensures ResyncAll(ResyncAll(s).state) == ResyncAll(s)
  {
    var once := ResyncAll(s);
    var twice := ResyncAll(once.state);
    assert ResyncedFrom(s.budgets, once.state.budgets, s.txns);
    assert ResyncedFrom(once.state.budgets, twice.state.budgets, s.txns);
    ResyncedTwice(s.budgets, once.state.budgets, twice.state.budgets, s.txns);
  }
}
