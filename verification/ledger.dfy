/** Sums over the transaction list: the ground truth a budget's `spent` is
    meant to equal, and the two reductions the controllers compute. */
module Ledger {
  import opened Schema

  /** A transaction counts toward (month, category) when its stored month and
      its category both match. */
  predicate InBucket(t: Transaction, month: string, category: string) {
    t.month == month && t.category == category
  }

  /** What one transaction contributes to (month, category). */
  function Share(t: Transaction, month: string, category: string): int {
    if InBucket(t, month, category) then t.amount else 0
  }

  /** The sum of amounts of the transactions in (month, category). */
  function Total(txns: seq<Transaction>, month: string, category: string): int
    decreases |txns|
  {
    if txns == [] then 0
    else Total(txns[..|txns| - 1], month, category) + Share(txns[|txns| - 1], month, category)
  }

  /** Some transaction falls in (month, category). */
  predicate HasBucket(txns: seq<Transaction>, month: string, category: string) {
    exists i :: 0 <= i < |txns| && InBucket(txns[i], month, category)
  }

  /** Some transaction is stored under `month`. */
  predicate HasMonth(txns: seq<Transaction>, month: string) {
    exists i :: 0 <= i < |txns| && txns[i].month == month
  }

  /** The sum of all amounts. */
  function SumAll(txns: seq<Transaction>): int
    decreases |txns|
  {
    if txns == [] then 0 else SumAll(txns[..|txns| - 1]) + txns[|txns| - 1].amount
  }

  lemma TotalAppend(txns: seq<Transaction>, t: Transaction, month: string, category: string)
    ensures Total(txns + [t], month, category) == Total(txns, month, category) + Share(t, month, category)
  {
    assert (txns + [t])[..|txns|] == txns;
  }

  lemma {:induction false} TotalConcat(a: seq<Transaction>, b: seq<Transaction>, month: string, category: string)
    ensures Total(a + b, month, category) == Total(a, month, category) + Total(b, month, category)
    decreases |b|
  {
    if b == [] {
      assert a + b == a;
    } else {
      var b' := b[..|b| - 1];
      var t := b[|b| - 1];
      assert b == b' + [t];
      assert a + b == (a + b') + [t];
      TotalConcat(a, b', month, category);
      TotalAppend(a + b', t, month, category);
      TotalAppend(b', t, month, category);
    }
  }

  /** The list without the record at `i`. */
  function RemoveAt(txns: seq<Transaction>, i: nat): (r: seq<Transaction>)
    requires i < |txns|
    ensures |r| == |txns| - 1
    ensures forall j :: 0 <= j < |r| ==> r[j] == txns[if j < i then j else j + 1]
    ensures multiset(r) + multiset{txns[i]} == multiset(txns)
  {
    assert txns == txns[..i] + [txns[i]] + txns[i + 1..];
    txns[..i] + txns[i + 1..]
  }

  /** Dropping the record at `i` removes exactly its share. */
  lemma TotalRemove(txns: seq<Transaction>, i: nat, month: string, category: string)
    requires i < |txns|
    ensures Total(txns, month, category) == Total(RemoveAt(txns, i), month, category) + Share(txns[i], month, category)
  {
    assert txns == txns[..i] + [txns[i]] + txns[i + 1..];
    TotalConcat(txns[..i] + [txns[i]], txns[i + 1..], month, category);
    TotalAppend(txns[..i], txns[i], month, category);
    TotalConcat(txns[..i], txns[i + 1..], month, category);
  }

  /** Replacing the record at `i` swaps its share for the new one's. */
  lemma TotalReplace(txns: seq<Transaction>, i: nat, u: Transaction, month: string, category: string)
    requires i < |txns|
    ensures Total(txns[i := u], month, category)
         == Total(txns, month, category) - Share(txns[i], month, category) + Share(u, month, category)
  {
    var s := txns[i := u];
    assert RemoveAt(s, i) == RemoveAt(txns, i);
    TotalRemove(txns, i, month, category);
    TotalRemove(s, i, month, category);
  }

  /** With no transaction in the bucket, its total is 0. */
  lemma {:induction false} TotalEmptyBucket(txns: seq<Transaction>, month: string, category: string)
    requires !HasBucket(txns, month, category)
    ensures Total(txns, month, category) == 0
    decreases |txns|
  {
    if txns != [] {
      var init := txns[..|txns| - 1];
      assert !HasBucket(init, month, category) by {
        forall i | 0 <= i < |init| ensures !InBucket(init[i], month, category) {
          assert init[i] == txns[i];
        }
      }
      TotalEmptyBucket(init, month, category);
    }
  }

  /** The last record of `a` sits somewhere in its permutation `b`; taking it
      out of both leaves permutations of each other. */
  lemma MatchLast(a: seq<Transaction>, b: seq<Transaction>) returns (j: nat)
    requires |a| > 0 && multiset(a) == multiset(b)
    ensures j < |b| && b[j] == a[|a| - 1]
    ensures multiset(a[..|a| - 1]) == multiset(RemoveAt(b, j))
  {
    var a' := a[..|a| - 1];
    var t := a[|a| - 1];
    assert a == a' + [t];
    assert t in multiset(b);
    j :| 0 <= j < |b| && b[j] == t;
    assert multiset(a) == multiset(a') + multiset{t};
    assert multiset(a') == multiset(a) - multiset{t} == multiset(b) - multiset{t} == multiset(RemoveAt(b, j));
  }

  /** Reordering the list does not change any bucket total. */
  lemma {:induction false} TotalPermutation(a: seq<Transaction>, b: seq<Transaction>, month: string, category: string)
    requires multiset(a) == multiset(b)
    ensures Total(a, month, category) == Total(b, month, category)
    decreases |a|
  {
    if a == [] {
      assert |b| == |multiset(b)| == 0;
    } else {
      var j := MatchLast(a, b);
      TotalPermutation(a[..|a| - 1], RemoveAt(b, j), month, category);
      TotalRemove(b, j, month, category);
    }
  }

  /** One reduction step: `acc[key] = (acc[key] || 0) + amount`. */
  function Accumulate(acc: map<string, int>, key: string, amount: int): (r: map<string, int>)
    ensures r.Keys == acc.Keys + {key}
    ensures r[key] == ValueOr0(acc, key) + amount
    ensures forall k :: k in acc && k != key ==> r[k] == acc[k]
  {
    acc[key := ValueOr0(acc, key) + amount]
  }

  /** The per-category totals of one month, reduced in list order over the
      transactions stored under that month (controllers/budget.js). */
  function SpentAmounts(txns: seq<Transaction>, month: string): map<string, int>
    decreases |txns|
  {
    if txns == [] then map[]
    else
      var acc := SpentAmounts(txns[..|txns| - 1], month);
      var t := txns[|txns| - 1];
      if t.month == month then Accumulate(acc, t.category, t.amount) else acc
  }

  /** The reduction keeps exactly the categories that occur in the month,
      each with its bucket total. */
  lemma {:induction false} SpentAmountsTotals(txns: seq<Transaction>, month: string)
    ensures forall c :: c in SpentAmounts(txns, month) <==> HasBucket(txns, month, c)
    ensures forall c :: ValueOr0(SpentAmounts(txns, month), c) == Total(txns, month, c)
    decreases |txns|
  {
    if txns != [] {
      var init := txns[..|txns| - 1];
      var t := txns[|txns| - 1];
      SpentAmountsTotals(init, month);
      forall c ensures HasBucket(txns, month, c) <==> HasBucket(init, month, c) || InBucket(t, month, c) {
        if HasBucket(txns, month, c) {
          var i :| 0 <= i < |txns| && InBucket(txns[i], month, c);
          if i < |init| {
            assert init[i] == txns[i];
          }
        }
        if HasBucket(init, month, c) {
          var i :| 0 <= i < |init| && InBucket(init[i], month, c);
          assert txns[i] == init[i];
        }
      }
    }
  }

  /** A month without transactions reduces to no categories at all. */
  lemma {:induction false} SpentAmountsOfEmptyMonth(txns: seq<Transaction>, month: string)
    requires !HasMonth(txns, month)
    ensures SpentAmounts(txns, month) == map[]
    decreases |txns|
  {
    if txns != [] {
      var init := txns[..|txns| - 1];
      assert !HasMonth(init, month) by {
        forall i | 0 <= i < |init| ensures init[i].month != month {
          assert init[i] == txns[i];
        }
      }
      SpentAmountsOfEmptyMonth(init, month);
    }
  }

  /** The month-by-category grouping of the whole list (controllers/getTransaction.js). */
  function Group(txns: seq<Transaction>): map<string, map<string, int>>
    decreases |txns|
  {
    if txns == [] then map[]
    else
      var g := Group(txns[..|txns| - 1]);
      var t := txns[|txns| - 1];
      var row := if t.month in g then g[t.month] else map[];
      g[t.month := Accumulate(row, t.category, t.amount)]
  }

  /** A month appears in the grouping exactly when some transaction is stored
      under it, and its row is that month's per-category reduction. */
  lemma {:induction false} GroupRows(txns: seq<Transaction>)
    ensures forall m :: m in Group(txns) <==> HasMonth(txns, m)
    ensures forall m :: m in Group(txns) ==> Group(txns)[m] == SpentAmounts(txns, m)
    decreases |txns|
  {
    if txns != [] {
      var init := txns[..|txns| - 1];
      var t := txns[|txns| - 1];
      GroupRows(init);
      forall m ensures HasMonth(txns, m) <==> HasMonth(init, m) || t.month == m {
        if HasMonth(txns, m) {
          var i :| 0 <= i < |txns| && txns[i].month == m;
          if i < |init| {
            assert init[i] == txns[i];
          }
        }
        if HasMonth(init, m) {
          var i :| 0 <= i < |init| && init[i].month == m;
          assert txns[i] == init[i];
        }
      }
      if t.month !in Group(init) {
        SpentAmountsOfEmptyMonth(init, t.month);
      }
    }
  }

  /** The sum of the values of a map, in any key order. */
  ghost function MapSum(m: map<string, int>): int
    decreases |m|
  {
    if m == map[] then 0
    else
      var k :| k in m;
      m[k] + MapSum(m - {k})
  }

  /** Any key can be taken out first. */
  lemma {:induction false} MapSumRemove(m: map<string, int>, k: string)
    requires k in m
    ensures MapSum(m) == m[k] + MapSum(m - {k})
    decreases |m|
  {
    var k' :| k' in m && MapSum(m) == m[k'] + MapSum(m - {k'});
    if k' != k {
      MapSumRemove(m - {k'}, k);
      MapSumRemove(m - {k}, k');
      assert m - {k'} - {k} == m - {k} - {k'};
    }
  }

  /** Writing `v` at `k` replaces that key's old value (0 when absent) by `v`. */
  lemma MapSumUpdate(m: map<string, int>, k: string, v: int)
    ensures MapSum(m[k := v]) == MapSum(m) - ValueOr0(m, k) + v
  {
    MapSumRemove(m[k := v], k);
    assert m[k := v] - {k} == m - {k};
    if k in m {
      MapSumRemove(m, k);
    } else {
      assert m - {k} == m;
    }
  }

  /** Each month of a grouping with the sum of its row. */
  ghost function RowSums(g: map<string, map<string, int>>): (r: map<string, int>)
    ensures r.Keys == g.Keys
    ensures forall m :: m in g ==> r[m] == MapSum(g[m])
  {
    map m | m in g :: MapSum(g[m])
  }

  /** The sum of every (month, category) total of a grouping. */
  ghost function GrandTotal(g: map<string, map<string, int>>): int {
    MapSum(RowSums(g))
  }

  /** One grouping step adds the amount to the grand total. */
  lemma GrandTotalAccumulate(g: map<string, map<string, int>>, month: string, category: string, amount: int)
    ensures
      var row := if month in g then g[month] else map[];
      GrandTotal(g[month := Accumulate(row, category, amount)]) == GrandTotal(g) + amount
  {
    var row := if month in g then g[month] else map[];
    var row' := Accumulate(row, category, amount);
    MapSumUpdate(row, category, ValueOr0(row, category) + amount);
    assert row' == row[category := ValueOr0(row, category) + amount];
    var sums := RowSums(g);
    assert RowSums(g[month := row']) == sums[month := MapSum(row')];
    MapSumUpdate(sums, month, MapSum(row'));
    assert ValueOr0(sums, month) == MapSum(row);
  }

  /** Grouping neither drops nor double-counts an amount. */
  lemma {:induction false} GroupConserves(txns: seq<Transaction>)
    ensures GrandTotal(Group(txns)) == SumAll(txns)
    decreases |txns|
  {
    if txns == [] {
      var empty: map<string, map<string, int>> := map[];
      assert RowSums(empty) == map[];
    } else {
      var init := txns[..|txns| - 1];
      var t := txns[|txns| - 1];
      GroupConserves(init);
      GrandTotalAccumulate(Group(init), t.month, t.category, t.amount);
    }
  }

  /** Every bucket with transactions has a cell in the grouping, and every
      cell of a grouped month holds its bucket total. */
  lemma GroupTotals(txns: seq<Transaction>)
    ensures forall m, c :: HasBucket(txns, m, c) ==> m in Group(txns) && c in Group(txns)[m]
    ensures forall m, c :: m in Group(txns) ==>
      (c in Group(txns)[m] <==> HasBucket(txns, m, c)) && ValueOr0(Group(txns)[m], c) == Total(txns, m, c)
  {
    GroupRows(txns);
    forall m | m in Group(txns)
      ensures forall c :: (c in Group(txns)[m] <==> HasBucket(txns, m, c)) && ValueOr0(Group(txns)[m], c) == Total(txns, m, c)
    {
      SpentAmountsTotals(txns, m);
    }
    forall m, c | HasBucket(txns, m, c) ensures m in Group(txns) && c in Group(txns)[m] {
      var i :| 0 <= i < |txns| && InBucket(txns[i], m, c);
      assert HasMonth(txns, m);
    }
  }

  /** Reordering the list keeps the same non-empty buckets. */
  lemma HasBucketPermutation(a: seq<Transaction>, b: seq<Transaction>, month: string, category: string)
    requires multiset(a) == multiset(b)
    ensures HasBucket(a, month, category) <==> HasBucket(b, month, category)
  {
    if HasBucket(a, month, category) {
      var i :| 0 <= i < |a| && InBucket(a[i], month, category);
      assert a[i] in multiset(b);
      var j :| 0 <= j < |b| && b[j] == a[i];
    }
    if HasBucket(b, month, category) {
      var j :| 0 <= j < |b| && InBucket(b[j], month, category);
      assert b[j] in multiset(a);
      var i :| 0 <= i < |a| && a[i] == b[j];
    }
  }
}
