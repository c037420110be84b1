/** The `sort({ date: -1 })` the list endpoints apply: dates compare as
    strings, character by character, so `YYYY-MM-DD` orders chronologically. */
module DateOrder {
  import opened Schema

  /** `a` sorts no later than `b` in lexicographic string order. */
  predicate LexLe(a: string, b: string)
    decreases |a|
  {
    |a| == 0 || (|b| > 0 && (a[0] < b[0] || (a[0] == b[0] && LexLe(a[1..], b[1..]))))
  }

  lemma {:induction false} LexLeTotal(a: string, b: string)
    ensures LexLe(a, b) || LexLe(b, a)
    decreases |a|
  {
    if |a| > 0 && |b| > 0 && a[0] == b[0] {
      LexLeTotal(a[1..], b[1..]);
    }
  }

  lemma {:induction false} LexLeTrans(a: string, b: string, c: string)
    requires LexLe(a, b) && LexLe(b, c)
    ensures LexLe(a, c)
    decreases |a|
  {
    if |a| > 0 && a[0] == b[0] && b[0] == c[0] {
      LexLeTrans(a[1..], b[1..], c[1..]);
    }
  }

  /** Newest first: no record has a later date than one before it. */
  predicate SortedDesc(s: seq<Transaction>) {
    forall i, j :: 0 <= i < j < |s| ==> LexLe(s[j].date, s[i].date)
  }

  /** Puts `t` before the first record whose date is not later than its own. */
  function Insert(t: Transaction, s: seq<Transaction>): (r: seq<Transaction>)
    ensures multiset(r) == multiset(s) + multiset{t}
    decreases |s|
  {
    if s == [] then [t]
    else if LexLe(s[0].date, t.date) then [t] + s
    else
      assert s == [s[0]] + s[1..];
      [s[0]] + Insert(t, s[1..])
  }

  lemma {:induction false} InsertSorted(t: Transaction, s: seq<Transaction>)
    requires SortedDesc(s)
    ensures SortedDesc(Insert(t, s))
    decreases |s|
  {
    if s == [] {
    } else if LexLe(s[0].date, t.date) {
      forall j | 0 <= j < |s| ensures LexLe(s[j].date, t.date) {
        if j > 0 {
          LexLeTrans(s[j].date, s[0].date, t.date);
        }
      }
    } else {
      var rest := Insert(t, s[1..]);
      InsertSorted(t, s[1..]);
      LexLeTotal(s[0].date, t.date);
      forall k | 0 <= k < |rest| ensures LexLe(rest[k].date, s[0].date) {
        assert rest[k] in multiset(rest);
        if rest[k] != t {
          assert rest[k] in multiset(s[1..]);
          var j :| 0 <= j < |s[1..]| && s[1..][j] == rest[k];
          assert s[j + 1] == rest[k];
        }
      }
      var r := [s[0]] + rest;
      forall i, j | 0 <= i < j < |r| ensures LexLe(r[j].date, r[i].date) {
        if i > 0 {
          assert r[i] == rest[i - 1] && r[j] == rest[j - 1];
        } else {
          assert r[j] == rest[j - 1];
        }
      }
    }
  }

  lemma MultisetCons(s: seq<Transaction>)
    requires s != []
    ensures multiset(s) == multiset(s[1..]) + multiset{s[0]}
  {
    assert s == [s[0]] + s[1..];
  }

  /** The list as the endpoints return it: newest first. */
  function SortByDateDesc(s: seq<Transaction>): (r: seq<Transaction>)
    ensures multiset(r) == multiset(s)
    ensures SortedDesc(r)
    decreases |s|
  {
    if s == [] then []
    else
      var rest := SortByDateDesc(s[1..]);
      InsertSorted(s[0], rest);
      MultisetCons(s);
      Insert(s[0], rest)
  }
}
