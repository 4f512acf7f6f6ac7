/** Which lint errors are printed, and how the printed ones are counted. */
module LintState {
  import opened Wrappers

  // ------------------------------------------------------------------- filtering

  /** A filter is a sign and a category prefix. */
  predicate Signed(f: string) {
    f != "" && (f[0] == '+' || f[0] == '-')
  }

  predicate Applies(f: string, category: string) {
    Signed(f) && f[1..] <= category
  }

  predicate AllSigned(filters: seq<string>) {
    forall i :: 0 <= i < |filters| ==> Signed(filters[i])
  }

  /** The last filter whose body is a prefix of the category is a negative one. */
  ghost predicate FilteredOut(filters: seq<string>, category: string) {
    exists i :: 0 <= i < |filters| && Applies(filters[i], category) && filters[i][0] == '-'
                && forall j :: i < j < |filters| ==> !Applies(filters[j], category)
  }

  const DEFAULT_FILTERS := ["-build/include_alpha"]

  // -------------------------------------------------------------------- counting

  datatype Counting = Total | TopLevel | Detailed

  /** The first slash from `i` on, or the end. */
  function Slash(category: string, i: nat): (j: nat)
    requires i <= |category|
    ensures i <= j <= |category|
    ensures j < |category| ==> category[j] == '/'
    ensures forall k :: i <= k < j ==> category[k] != '/'
    decreases |category| - i
  {
    if i == |category| || category[i] == '/' then i else Slash(category, i + 1)
  }

  /** The part of a category before the first slash. */
  function Top(category: string): (top: string)
    ensures top <= category && '/' !in top && (top == category || category[|top|] == '/')
  {
    category[..Slash(category, 0)]
  }

  function Key(counting: Counting, category: string): string {
    if counting.TopLevel? then Top(category) else category
  }

  function Bump(table: map<string, nat>, key: string): map<string, nat> {
    table[key := if key in table then table[key] + 1 else 1]
  }

  /** The table after the first `n` errors of a history under one counting style. */
  function Table(counting: Counting, history: seq<string>, n: nat): map<string, nat>
    requires n <= |history|
  {
    if n == 0 || counting.Total? then map[]
    else Bump(Table(counting, history, n - 1), Key(counting, history[n - 1]))
  }

  /** The sum of the counts of some categories. */
  ghost function Sum(table: map<string, nat>, keys: set<string>): nat
    requires keys <= table.Keys
  {
    if keys == {} then 0 else
      var k :| k in keys;
      table[k] + Sum(table, keys - {k})
  }

  lemma {:induction false} SumWithout(table: map<string, nat>, keys: set<string>, k: string)
    requires keys <= table.Keys && k in keys
    ensures Sum(table, keys) == table[k] + Sum(table, keys - {k})
    decreases keys
  {
    var j :| j in keys && Sum(table, keys) == table[j] + Sum(table, keys - {j});
    if j != k {
      SumWithout(table, keys - {j}, k);
      SumWithout(table, keys - {k}, j);
      assert keys - {j} - {k} == keys - {k} - {j};
    }
  }

  lemma {:induction false} SumSame(a: map<string, nat>, b: map<string, nat>, keys: set<string>)
    requires keys <= a.Keys && keys <= b.Keys && forall k :: k in keys ==> a[k] == b[k]
    ensures Sum(a, keys) == Sum(b, keys)
    decreases keys
  {
    if keys != {} {
      var k :| k in keys;
      SumSame(a, b, keys - {k});
      SumWithout(a, keys, k);
      SumWithout(b, keys, k);
    }
  }

  /** One more error adds one to every sum that takes in its category. */
  lemma SumBump(table: map<string, nat>, key: string, keys: set<string>)
    requires keys <= table.Keys + {key} && key in keys
    ensures Sum(Bump(table, key), keys) == Sum(table, keys * table.Keys) + 1
  {
    var after, rest := Bump(table, key), keys - {key};
    SumWithout(after, keys, key);
    SumSame(after, table, rest);
    if key in table {
      SumWithout(table, keys, key);
      assert keys * table.Keys == keys;
    } else {
      assert keys * table.Keys == rest;
    }
  }

  /** The counts by category add up to the number of errors. */
  lemma {:induction false} CountsAddUp(counting: Counting, history: seq<string>, n: nat)
    requires n <= |history| && !counting.Total?
    ensures Sum(Table(counting, history, n), Table(counting, history, n).Keys) == n
  {
    if n > 0 {
      var before, key := Table(counting, history, n - 1), Key(counting, history[n - 1]);
      CountsAddUp(counting, history, n - 1);
      var keys := Bump(before, key).Keys;
      assert keys == before.Keys + {key};
      SumBump(before, key, keys);
      assert keys * before.Keys == before.Keys;
    }
  }

  /** The detailed table tells how often each category is in the history, and without a style other
      than the total there is no table. */
  lemma {:induction false} DetailedCounts(history: seq<string>, n: nat, c: string)
    requires n <= |history|
    ensures var details := Table(Detailed, history, n);
            && (c in details <==> c in history[..n])
            && (c in details ==> details[c] == multiset(history[..n])[c])
    ensures Table(Total, history, n) == map[]
  {
    if n > 0 {
      DetailedCounts(history, n - 1, c);
      assert history[..n] == history[..n - 1] + [history[n - 1]];
    }
  }

  ghost function Under(table: map<string, nat>, top: string): set<string> {
    set c | c in table && Top(c) == top
  }

  /** The top-level table is the detailed one added up by the part before the slash. */
  lemma {:induction false} TopLevelAggregates(history: seq<string>, n: nat, top: string)
    requires n <= |history|
    ensures var tops, details := Table(TopLevel, history, n), Table(Detailed, history, n);
            && (top in tops <==> Under(details, top) != {})
            && Sum(details, Under(details, top)) == if top in tops then tops[top] else 0
  {
    if n > 0 {
      var c, tops, details := history[n - 1], Table(TopLevel, history, n - 1), Table(Detailed, history, n - 1);
      TopLevelAggregates(history, n - 1, top);
      UnderBump(details, c, top);
      assert Table(TopLevel, history, n) == Bump(tops, Top(c));
      assert Table(Detailed, history, n) == Bump(details, c);
    }
  }

  /** One more error under a top-level name adds one to the sum under that name and to no other. */
  lemma UnderBump(details: map<string, nat>, c: string, top: string)
    ensures var details' := Bump(details, c);
            && Sum(details', Under(details', top)) ==
               Sum(details, Under(details, top)) + (if Top(c) == top then 1 else 0)
            && (Under(details', top) != {} <==> Under(details, top) != {} || Top(c) == top)
  {
    var details' := Bump(details, c);
    if Top(c) == top {
      assert Under(details', top) == Under(details, top) + {c};
      assert Under(details', top) * details.Keys == Under(details, top);
      SumBump(details, c, Under(details', top));
    } else {
      assert Under(details', top) == Under(details, top);
      SumSame(details', details, Under(details, top));
    }
  }

  // ------------------------------------------------------------------- the object

  class CppLintState {
    var verboseLevel: int
    var errorCount: nat
    var filters: seq<string>
    var counting: Counting
    var errorsByCategory: map<string, nat>
    /** The categories counted since the last reset. */
    ghost var history: seq<string>

    /** The counters tell the history, all of it counted in one style. */
    ghost predicate Valid()
      reads this
    {
      && errorCount == |history|
      && errorsByCategory == Table(counting, history, |history|)
    }

    constructor (counting: Counting)
      ensures Valid() && history == [] && filters == DEFAULT_FILTERS && this.counting == counting && verboseLevel == 1
    {
      verboseLevel, errorCount, filters, this.counting := 1, 0, DEFAULT_FILTERS, counting;
      errorsByCategory, history := map[], [];
    }

    /** `given` are the filters of the flag, empty ones left out.  Filters without a sign raise an
        error, but only after all of them have been set. */
    method SetFilters(given: seq<string>) returns (ok: bool)
      modifies `filters
      ensures filters == DEFAULT_FILTERS + given && (ok <==> AllSigned(filters))
    {
      filters := DEFAULT_FILTERS;
      for i := 0 to |given|
        invariant filters == DEFAULT_FILTERS + given[..i]
      {
        filters := filters + [given[i]];
      }
      assert given[..|given|] == given;
      for i := 0 to |filters|
        invariant AllSigned(filters[..i])
      {
        if !Signed(filters[i]) {
          return false;
        }
      }
      assert filters[..|filters|] == filters;
      return true;
    }

    method ResetErrorCounts()
      requires Valid()
      modifies `errorCount, `errorsByCategory, `history
      ensures Valid() && history == []
    {
      errorCount, errorsByCategory, history := 0, map[], [];
    }

    static method BumpCategory(table: map<string, nat>, key: string) returns (after: map<string, nat>)
      ensures after == Bump(table, key)
    {
      after := table;
      if key !in after {
        after := after[key := 0];
      }
      after := after[key := after[key] + 1];
    }

    method IncrementErrorCount(category: string)
      requires Valid()
      modifies `errorCount, `errorsByCategory, `history
      ensures Valid() && history == old(history) + [category]
    {
      OneMore(counting, history, category);
      errorCount := errorCount + 1;
      if !counting.Total? {
        var key := category;
        if !counting.Detailed? {
          key := Top(category);
        }
        errorsByCategory := BumpCategory(errorsByCategory, key);
      }
      history := history + [category];
    }

    /** `suppressed` tells the lines with a suppression comment for the category, or for all.  `None`
        is the assertion that fails on a filter without a sign. */
    method ShouldPrintError(category: string, confidence: int, suppressed: bool) returns (shown: Option<bool>)
      ensures shown.None? <==> !suppressed && confidence >= verboseLevel && !AllSigned(filters)
      ensures shown.Some? ==>
                (shown.value <==> !suppressed && confidence >= verboseLevel && !FilteredOut(filters, category))
    {
      if suppressed {
        return Some(false);
      }
      if confidence < verboseLevel {
        return Some(false);
      }
      var isFiltered := false;
      for i := 0 to |filters|
        invariant AllSigned(filters[..i])
        invariant isFiltered <==> FilteredOut(filters[..i], category)
      {
        FilterStep(filters, i, category);
        if !Signed(filters[i]) {
          return None;
        }
        if filters[i][0] == '-' {
          if Applies(filters[i], category) {
            isFiltered := true;
          }
        } else {
          if Applies(filters[i], category) {
            isFiltered := false;
          }
        }
      }
      assert filters[..|filters|] == filters;
      return Some(!isFiltered);
    }
  }

  lemma FilterStep(filters: seq<string>, i: nat, category: string)
    requires i < |filters|
    ensures FilteredOut(filters[..i + 1], category) <==>
            if Applies(filters[i], category) then filters[i][0] == '-' else FilteredOut(filters[..i], category)
  {
    var a, b := filters[..i], filters[..i + 1];
    assert b == a + [filters[i]];
    if Applies(filters[i], category) {
      if filters[i][0] == '-' {
        assert Applies(b[i], category);
      }
    } else {
      if FilteredOut(a, category) {
        var k :| 0 <= k < |a| && Applies(a[k], category) && a[k][0] == '-'
                 && forall j :: k < j < |a| ==> !Applies(a[j], category);
        assert Applies(b[k], category);
      }
      if FilteredOut(b, category) {
        var k :| 0 <= k < |b| && Applies(b[k], category) && b[k][0] == '-'
                 && forall j :: k < j < |b| ==> !Applies(b[j], category);
        assert Applies(a[k], category);
      }
    }
  }

  lemma OneMore(counting: Counting, history: seq<string>, category: string)
    ensures var after, n := history + [category], |history|;
            Table(counting, after, n + 1) ==
            if counting.Total? then map[] else Bump(Table(counting, history, n), Key(counting, category))
  {
    var after, n := history + [category], |history|;
    SameTable(counting, history, after, n);
    assert after[n] == category;
    if !counting.Total? {
      assert Table(counting, after, n + 1) == Bump(Table(counting, after, n), Key(counting, after[n]));
    }
  }

  lemma {:induction false} SameTable(counting: Counting, a: seq<string>, b: seq<string>, n: nat)
    requires n <= |a| && a <= b
    ensures Table(counting, a, n) == Table(counting, b, n)
  {
    if n > 0 {
      SameTable(counting, a, b, n - 1);
    }
  }
}
