/** The persisted shapes: transactions (Model/userData.js) and monthly
    budgets (Model/budget.js), plus the state the handlers act on. */
module Schema {
  import opened Wrappers

  /** One category line of a month's budget. */
  datatype Entry = Entry(limit: int, spent: int)

  /** A month's budget: category name to its line. Categories are open-ended. */
  type Budget = map<string, Entry>

  /** A stored spending record. `id` stands for the database-generated key;
      `month` is stored, not recomputed. */
  datatype Transaction = Transaction(
    id: nat,
    amount: int,
    description: string,
    date: string,
    category: string,
    month: string)

  /** Both collections: the transaction list and the month-keyed budgets.
      `nextId` is the key the database hands to the next created record. */
  datatype State = State(txns: seq<Transaction>, budgets: map<string, Budget>, nextId: nat)

  /** What a request can fail with: an unknown id (404), a rejected input (400),
      or an exception caught by the handler (500). */
  datatype Error = NotFound | Invalid | Thrown

  /** A handler's effect: the state afterwards and what the caller receives. */
  datatype Step<T> = Step(state: State, out: Result<T, Error>)

  /** The category names the schema declares. */
  const DeclaredCategories: set<string> := {"Shopping", "Meal", "Movie", "Other"}

  /** The schema default of a declared category line. */
  const ZeroEntry: Entry := Entry(0, 0)

  /** The four declared categories, each at its schema default. */
  function DefaultBudget(): (b: Budget)
    ensures b.Keys == DeclaredCategories
    ensures forall c :: c in b ==> b[c].limit == 0 && b[c].spent == 0
  {
    map["Shopping" := ZeroEntry, "Meal" := ZeroEntry, "Movie" := ZeroEntry, "Other" := ZeroEntry]
  }

  /** `date.substring(0, 7)`: the end index is clamped, so a date shorter than
      seven characters is its own month. */
  function MonthOf(date: string): (m: string)
    ensures m <= date
    ensures |m| == if |date| < 7 then |date| else 7
  {
    if |date| < 7 then date else date[..7]
  }

  /** The schema's `required: true` on `month`: an empty string fails validation. */
  predicate AcceptsMonth(month: string) {
    month != ""
  }

  /** Inserting a new budget document: schema validation throws on an empty month. */
  function CreateBudget(budgets: map<string, Budget>, month: string, b: Budget): (r: Result<map<string, Budget>, Error>)
    ensures r.Failure? <==> month == ""
    ensures r.Success? ==> r.value.Keys == budgets.Keys + {month} && r.value[month] == b
    ensures r.Success? ==> forall m :: m in budgets && m != month ==> r.value[m] == budgets[m]
  {
    if AcceptsMonth(month) then Success(budgets[month := b]) else Failure(Thrown)
  }

  /** The line stored for (month, category), if both exist. */
  function EntryAt(budgets: map<string, Budget>, month: string, category: string): Option<Entry> {
    if month in budgets && category in budgets[month] then Some(budgets[month][category]) else None
  }

  /** `spent` for (month, category), or 0 when there is no such line. */
  function SpentAt(budgets: map<string, Budget>, month: string, category: string): int {
    EntryAt(budgets, month, category).GetOr(ZeroEntry).spent
  }

  /** A line with `delta` added to its `spent`; the limit is kept. */
  function AddSpent(b: Budget, category: string, delta: int): (r: Budget)
    requires category in b
    ensures r.Keys == b.Keys
    ensures r[category].spent == b[category].spent + delta && r[category].limit == b[category].limit
    ensures forall c :: c in b && c != category ==> r[c] == b[c]
  {
    b[category := b[category].(spent := b[category].spent + delta)]
  }

  /** The value a category total reads as: present, or 0. */
  function ValueOr0(m: map<string, int>, key: string): int {
    if key in m then m[key] else 0
  }

  /** Take `amount` off the (month, category) line when that line exists;
      otherwise nothing changes. */
  function Debit(budgets: map<string, Budget>, month: string, category: string, amount: int): (r: map<string, Budget>)
    ensures r.Keys == budgets.Keys
    ensures forall m :: m in budgets ==> r[m].Keys == budgets[m].Keys
    ensures EntryAt(r, month, category)
         == (match EntryAt(budgets, month, category)
             case None => None
             case Some(line) => Some(line.(spent := line.spent - amount)))
    ensures forall m, c :: (m != month || c != category) ==> EntryAt(r, m, c) == EntryAt(budgets, m, c)
  {
    if month in budgets && category in budgets[month]
    then budgets[month := AddSpent(budgets[month], category, -amount)]
    else budgets
  }
}
