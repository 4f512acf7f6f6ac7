/** The bookkeeping of failed tests: lists kept during a run and a fail file kept between runs. */
module FailFile {
  datatype Test = Test(path: string, useDb: bool)

  /** A failed test with the options it was run under; options are compared as wholes. */
  datatype Entry = Entry(test: Test, options: string)

  /** The fail file.  A file that cannot be read as one is `Damaged`. */
  datatype Stored = Absent | Damaged | Saved(version: string, entries: seq<Entry>)

  // ------------------------------------------------------------- running tests

  /** What becomes of one test of a run.  `thenRaises`: an exception after the result was
      recorded.  `Crash`: an exception that is not a test failure. */
  datatype Outcome =
    | Skip(thenRaises: bool)
    | Pass(thenRaises: bool)
    | Fail
    | ServerFail
    | Crash

  /** The run goes on after this test. */
  predicate GoesOn(o: Outcome, continueOnFailure: bool) {
    o == Skip(false) || o == Pass(false) || (o == Fail && continueOnFailure)
  }

  /** The tests at the given positions among the first `n`, in order. */
  function TestsAt(tests: seq<Test>, which: set<nat>, n: nat): seq<Test>
    requires n <= |tests|
  {
    if n == 0 then [] else TestsAt(tests, which, n - 1) + if n - 1 in which then [tests[n - 1]] else []
  }

  lemma {:induction false} TestsAtSame(tests: seq<Test>, a: set<nat>, b: set<nat>, n: nat)
    requires n <= |tests| && forall i :: 0 <= i < n ==> (i in a <==> i in b)
    ensures TestsAt(tests, a, n) == TestsAt(tests, b, n)
  {
    if n > 0 {
      TestsAtSame(tests, a, b, n - 1);
    }
  }

  lemma AddPosition(tests: seq<Test>, which: set<nat>, i: nat)
    requires i < |tests| && forall j :: j in which ==> j < i
    ensures TestsAt(tests, which + {i}, i + 1) == TestsAt(tests, which, i) + [tests[i]]
    ensures TestsAt(tests, which, i + 1) == TestsAt(tests, which, i)
  {
    TestsAtSame(tests, which, which + {i}, i);
  }

  lemma {:induction false} TestsAtBelow(tests: seq<Test>, which: set<nat>, m: nat, n: nat)
    requires m <= n <= |tests| && forall i :: i in which ==> i < m
    ensures TestsAt(tests, which, n) == TestsAt(tests, which, m)
    decreases n
  {
    if m < n {
      TestsAtBelow(tests, which, m, n - 1);
    }
  }

  /** How often `t` stands at the given positions among the first `n`. */
  function Times(tests: seq<Test>, which: set<nat>, n: nat, t: Test): nat
    requires n <= |tests|
  {
    if n == 0 then 0 else Times(tests, which, n - 1, t) + if n - 1 in which && tests[n - 1] == t then 1 else 0
  }

  lemma {:induction false} TimesIs(tests: seq<Test>, which: set<nat>, n: nat, t: Test)
    requires n <= |tests|
    ensures Times(tests, which, n, t) == multiset(TestsAt(tests, which, n))[t]
  {
    if n > 0 {
      TimesIs(tests, which, n - 1, t);
    }
  }

  function Occurs(tests: seq<Test>, n: nat, t: Test): nat
    requires n <= |tests|
  {
    if n == 0 then 0 else Occurs(tests, n - 1, t) + if tests[n - 1] == t then 1 else 0
  }

  lemma {:induction false} OccursIs(tests: seq<Test>, n: nat, t: Test)
    requires n <= |tests|
    ensures Occurs(tests, n, t) == multiset(tests[..n])[t]
  {
    if n > 0 {
      OccursIs(tests, n - 1, t);
      assert tests[..n] == tests[..n - 1] + [tests[n - 1]];
    }
  }

  predicate InOneOf(i: nat, a: set<nat>, b: set<nat>, c: set<nat>) {
    (i in a && i !in b && i !in c) || (i !in a && i in b && i !in c) || (i !in a && i !in b && i in c)
  }

  lemma {:induction false} TimesPartition(tests: seq<Test>, a: set<nat>, b: set<nat>, c: set<nat>, n: nat, t: Test)
    requires n <= |tests| && forall i: nat :: i < n ==> InOneOf(i, a, b, c)
    ensures Times(tests, a, n, t) + Times(tests, b, n, t) + Times(tests, c, n, t) == Occurs(tests, n, t)
  {
    if n > 0 {
      TimesPartition(tests, a, b, c, n - 1, t);
      assert InOneOf(n - 1, a, b, c);
    }
  }

  /** If every position is in exactly one of three sets, each test is there as often as it occurs. */
  lemma Partition(tests: seq<Test>, a: set<nat>, b: set<nat>, c: set<nat>, n: nat, t: Test)
    requires n <= |tests| && forall i: nat :: i < n ==> InOneOf(i, a, b, c)
    ensures multiset(TestsAt(tests, a, n))[t] + multiset(TestsAt(tests, b, n))[t] + multiset(TestsAt(tests, c, n))[t] ==
            multiset(tests[..n])[t]
  {
    TimesPartition(tests, a, b, c, n, t);
    TimesIs(tests, a, n, t);
    TimesIs(tests, b, n, t);
    TimesIs(tests, c, n, t);
    OccursIs(tests, n, t);
  }

  function Passed(outcome: nat -> Outcome, n: nat): set<nat> {
    set i: nat | i < n && outcome(i).Pass?
  }

  function Skipped(outcome: nat -> Outcome, n: nat): set<nat> {
    set i: nat | i < n && outcome(i).Skip?
  }

  function Failed(outcome: nat -> Outcome, n: nat): (r: set<nat>)
    ensures forall i: nat :: i in r <==> i < n && i !in Passed(outcome, n) && i !in Skipped(outcome, n)
  {
    set i: nat | i < n && (outcome(i).Fail? || outcome(i).ServerFail? || outcome(i).Crash?)
  }

  /** The tests begun are those passed, those failed and those skipped, each as often as it was begun. */
  lemma BegunPartition(tests: seq<Test>, outcome: nat -> Outcome, n: nat, t: Test)
    requires n <= |tests|
    ensures multiset(TestsAt(tests, Passed(outcome, n), n))[t] + multiset(TestsAt(tests, Failed(outcome, n), n))[t] +
            multiset(TestsAt(tests, Skipped(outcome, n), n))[t] == multiset(tests[..n])[t]
  {
    Partition(tests, Passed(outcome, n), Failed(outcome, n), Skipped(outcome, n), n, t);
  }

  lemma OneMoreTest(tests: seq<Test>, outcome: nat -> Outcome, n: nat)
    requires n < |tests|
    ensures TestsAt(tests, Passed(outcome, n + 1), n + 1) ==
            TestsAt(tests, Passed(outcome, n), n) + if outcome(n).Pass? then [tests[n]] else []
    ensures TestsAt(tests, Failed(outcome, n + 1), n + 1) ==
            TestsAt(tests, Failed(outcome, n), n) +
            if outcome(n).Pass? || outcome(n).Skip? then [] else [tests[n]]
  {
    TestsAtSame(tests, Passed(outcome, n + 1), Passed(outcome, n), n);
    TestsAtSame(tests, Failed(outcome, n + 1), Failed(outcome, n), n);
  }

  // -------------------------------------------------------------- removing entries

  /** The first `n` entries without those at the given positions, in order. */
  function Keep(s: seq<Entry>, removed: set<nat>, n: nat): (r: seq<Entry>)
    requires n <= |s|
  {
    if n == 0 then [] else Keep(s, removed, n - 1) + if n - 1 in removed then [] else [s[n - 1]]
  }

  ghost predicate Ascending(positions: seq<nat>, bound: nat) {
    && (forall i, j :: 0 <= i < j < |positions| ==> positions[i] < positions[j])
    && (forall i :: 0 <= i < |positions| ==> positions[i] < bound)
  }

  function Positions(s: seq<nat>): set<nat> {
    set i | i in s
  }

  /** Of the positions below `n` some number is in a set. */
  function NumberOf(which: set<nat>, n: nat): nat {
    if n == 0 then 0 else NumberOf(which, n - 1) + if n - 1 in which then 1 else 0
  }

  lemma {:induction false} NumberIs(which: set<nat>, n: nat)
    ensures NumberOf(which, n) == |set i | i in which && i < n|
  {
    var below := set i | i in which && i < n;
    if n > 0 {
      NumberIs(which, n - 1);
      var rest := set i | i in which && i < n - 1;
      assert below == if n - 1 in which then rest + {n - 1} else rest;
    } else {
      assert below == {};
    }
  }

  /** An entry that is kept comes after exactly those kept before it, and all others are gone. */
  lemma {:induction false} KeepAt(s: seq<Entry>, removed: set<nat>, n: nat, i: nat)
    requires i < n <= |s|
    ensures |Keep(s, removed, n)| == n - NumberOf(removed, n)
    ensures i !in removed ==>
              var k := i - NumberOf(removed, i); 0 <= k < |Keep(s, removed, n)| && Keep(s, removed, n)[k] == s[i]
    decreases n
  {
    if i < n - 1 {
      KeepAt(s, removed, n - 1, i);
    } else if i > 0 {
      KeepAt(s, removed, n - 1, i - 1);
    }
  }

  /** A test that is picked comes after exactly those picked before it, and no other is there. */
  lemma {:induction false} PickedAt(tests: seq<Test>, which: set<nat>, n: nat, i: nat)
    requires i < n <= |tests|
    ensures |TestsAt(tests, which, n)| == NumberOf(which, n)
    ensures i in which ==>
              var k := NumberOf(which, i); k < |TestsAt(tests, which, n)| && TestsAt(tests, which, n)[k] == tests[i]
    decreases n
  {
    if i < n - 1 {
      PickedAt(tests, which, n - 1, i);
    } else if i > 0 {
      PickedAt(tests, which, n - 1, i - 1);
    }
  }

  lemma MorePositions(s: seq<nat>, i: nat)
    ensures Positions(s + [i]) == Positions(s) + {i}
  {
  }

  lemma {:induction false} KeepUntouched(s: seq<Entry>, removed: set<nat>, m: nat, n: nat)
    requires m <= n <= |s| && forall i :: i in removed ==> i < m
    ensures Keep(s, removed, n) == Keep(s, removed, m) + s[m..n]
    decreases n
  {
    if m < n {
      KeepUntouched(s, removed, m, n - 1);
      assert s[m..n] == s[m..n - 1] + [s[n - 1]];
    }
  }

  lemma {:induction false} KeepSame(s: seq<Entry>, a: set<nat>, b: set<nat>, n: nat)
    requires n <= |s| && forall i :: i < n ==> (i in a <==> i in b)
    ensures Keep(s, a, n) == Keep(s, b, n)
  {
    if n > 0 {
      KeepSame(s, a, b, n - 1);
    }
  }

  /** Deleting one more position, behind all deleted so far: its place in the shortened list is
      the position less the number of deletions. */
  lemma DeleteShifted(s: seq<Entry>, removed: set<nat>, i: nat, k: nat)
    requires i < |s| && (forall j :: j in removed ==> j < i) && |Keep(s, removed, i)| == i - k && k <= i
    ensures var r := Keep(s, removed, |s|);
            && |r| == |s| - k
            && r[..i - k] + r[i - k + 1..] == Keep(s, removed + {i}, |s|)
    ensures |Keep(s, removed + {i}, i + 1)| == i - k
  {
    var r := Keep(s, removed, |s|);
    KeepUntouched(s, removed, i, |s|);
    KeepUntouched(s, removed + {i}, i + 1, |s|);
    KeepSame(s, removed, removed + {i}, i);
    assert r[i - k + 1..] == s[i + 1..];
  }

  /** The first `k` positions, all below `reached`, have been deleted. */
  ghost predicate PoppedTo(s: seq<Entry>, positions: seq<nat>, k: nat, reached: nat) {
    && k <= |positions| && k <= reached <= |s| && (k < |positions| ==> reached <= positions[k])
    && (forall j :: 0 <= j < k ==> positions[j] < reached)
    && |Keep(s, Positions(positions[..k]), reached)| == reached - k
  }

  lemma PopStep(s: seq<Entry>, positions: seq<nat>, k: nat, reached: nat)
    requires Ascending(positions, |s|) && k < |positions| && PoppedTo(s, positions, k, reached)
    ensures PoppedTo(s, positions, k + 1, positions[k] + 1)
    ensures var r, i := Keep(s, Positions(positions[..k]), |s|), positions[k];
            && 0 <= i - k < |r|
            && r[..i - k] + r[i - k + 1..] == Keep(s, Positions(positions[..k + 1]), |s|)
  {
    var removed, i := Positions(positions[..k]), positions[k];
    assert forall j :: j in removed ==> j < reached;
    KeepUntouched(s, removed, reached, i);
    DeleteShifted(s, removed, i, k);
    assert positions[..k + 1] == positions[..k] + [i];
    MorePositions(positions[..k], i);
  }

  /** The loop of index-shifted deletions is a filter. */
  method PopAll(s: seq<Entry>, positions: seq<nat>) returns (r: seq<Entry>)
    requires Ascending(positions, |s|)
    ensures r == Keep(s, Positions(positions), |s|)
  {
    r := s;
    KeepUntouched(s, {}, 0, |s|);
    assert Positions(positions[..0]) == {};
    ghost var reached: nat := 0;
    for offset := 0 to |positions|
      invariant PoppedTo(s, positions, offset, reached)
      invariant r == Keep(s, Positions(positions[..offset]), |s|)
    {
      PopStep(s, positions, offset, reached);
      var i := positions[offset];
      r := r[..i - offset] + r[i - offset + 1..];
      reached := i + 1;
    }
    assert positions[..|positions|] == positions;
  }

  // ---------------------------------------------------------------- the fail file

  ghost predicate Distinct(s: seq<Entry>) {
    forall i, j :: 0 <= i < j < |s| ==> s[i] != s[j]
  }

  function Entries(f: Stored): seq<Entry> {
    if f.Saved? then f.entries else []
  }

  /** The entries with those of the first `n` tests added that were not there. */
  function Merged(s: seq<Entry>, tests: seq<Test>, options: string, n: nat): (r: seq<Entry>)
    requires n <= |tests|
    ensures s <= r
  {
    if n == 0 then s
    else
      var m, e := Merged(s, tests, options, n - 1), Entry(tests[n - 1], options);
      if e in m then m else m + [e]
  }

  /** Merging adds exactly the new tests, behind the old entries, and no entry twice. */
  lemma {:induction false} MergedHolds(s: seq<Entry>, tests: seq<Test>, options: string, n: nat, e: Entry)
    requires n <= |tests|
    ensures e in Merged(s, tests, options, n) <==> e in s || (e.options == options && e.test in tests[..n])
  {
    if n > 0 {
      MergedHolds(s, tests, options, n - 1, e);
      assert tests[..n] == tests[..n - 1] + [tests[n - 1]];
    }
  }

  lemma {:induction false} MergedFrom(s: seq<Entry>, tests: seq<Test>, options: string, n: nat, a: nat)
    requires n <= |tests| && |s| <= a < |Merged(s, tests, options, n)|
    ensures exists i :: 0 <= i < n && Merged(s, tests, options, n)[a] == Entry(tests[i], options)
  {
    var m := Merged(s, tests, options, n - 1);
    if a < |m| {
      MergedFrom(s, tests, options, n - 1, a);
      var i :| 0 <= i < n - 1 && m[a] == Entry(tests[i], options);
    } else {
      assert Merged(s, tests, options, n)[a] == Entry(tests[n - 1], options);
    }
  }

  /** New entries stand in the order in which their tests first failed. */
  lemma {:induction false} MergedInOrder(s: seq<Entry>, tests: seq<Test>, options: string, n: nat, a: nat, b: nat)
    requires n <= |tests| && |s| <= a < b < |Merged(s, tests, options, n)|
    ensures exists i, j :: && 0 <= i < j < n && tests[j] !in tests[..j]
                           && Merged(s, tests, options, n)[a] == Entry(tests[i], options)
                           && Merged(s, tests, options, n)[b] == Entry(tests[j], options)
  {
    var m, e := Merged(s, tests, options, n - 1), Entry(tests[n - 1], options);
    if b < |m| {
      MergedInOrder(s, tests, options, n - 1, a, b);
    } else {
      MergedFrom(s, tests, options, n - 1, a);
      var i :| 0 <= i < n - 1 && m[a] == Entry(tests[i], options);
      MergedHolds(s, tests, options, n - 1, e);
      assert tests[n - 1] !in tests[..n - 1];
      assert Merged(s, tests, options, n)[b] == e;
    }
  }

  lemma {:induction false} MergedDistinct(s: seq<Entry>, tests: seq<Test>, options: string, n: nat)
    requires n <= |tests| && Distinct(s)
    ensures Distinct(Merged(s, tests, options, n))
  {
    if n > 0 {
      MergedDistinct(s, tests, options, n - 1);
    }
  }

  /** What happens to one entry when only old failures are run.  `Unfit` files are passed over.
      `exitRaises`: an exception when the servers are stopped after the test. */
  datatype Retry = Missing | Unfit | SetupRaises | Ran(outcome: Outcome, exitRaises: bool)

  /** An exception leaves the loop at this entry. */
  predicate Breaks(r: Retry) {
    r.SetupRaises? || (r.Ran? && (r.exitRaises || r.outcome in {Crash, Skip(true), Pass(true)}))
  }

  /** The entry counts as passed: its file is gone, or its test added a winner. */
  predicate NowPasses(r: Retry) {
    r.Missing? || (r.Ran? && r.outcome.Pass?)
  }

  /** The loop over the first `n` entries goes through without an exception. */
  ghost predicate Unbroken(retry: nat -> Retry, n: nat) {
    forall k: nat :: k < n ==> !Breaks(retry(k))
  }

  /** Entry `i` is reached, no exception ends the loop there, and it counts as passed. */
  predicate Recorded(retry: nat -> Retry, i: nat) {
    NowPasses(retry(i)) && forall k: nat :: k <= i ==> !Breaks(retry(k))
  }

  /** The earlier list without the entries recorded as passed, in order. */
  function StillFailing(s: seq<Entry>, retry: nat -> Retry, n: nat): seq<Entry>
    requires n <= |s|
  {
    if n == 0 then [] else
      StillFailing(s, retry, n - 1) + if Recorded(retry, n - 1) then [] else [s[n - 1]]
  }

  lemma {:induction false} KeepIsStillFailing(s: seq<Entry>, retry: nat -> Retry, removed: set<nat>, n: nat)
    requires n <= |s| && forall i: nat :: i < n ==> (i in removed <==> Recorded(retry, i))
    ensures Keep(s, removed, n) == StillFailing(s, retry, n)
  {
    if n > 0 {
      KeepIsStillFailing(s, retry, removed, n - 1);
    }
  }

  lemma {:induction false} StillFailingDistinct(s: seq<Entry>, retry: nat -> Retry, n: nat)
    requires n <= |s| && Distinct(s)
    ensures Distinct(StillFailing(s, retry, n))
    ensures forall e :: e in StillFailing(s, retry, n) ==> e in s[..n]
  {
    if n > 0 {
      StillFailingDistinct(s, retry, n - 1);
      assert s[..n] == s[..n - 1] + [s[n - 1]];
      assert forall i :: 0 <= i < n - 1 ==> s[..n - 1][i] == s[i];
      assert s[n - 1] !in s[..n - 1];
    }
  }

  function AfterOldFails(f: Stored, version: string, retry: nat -> Retry): Stored {
    if !f.Saved? || f.version != version then Absent
    else
      var left := StillFailing(f.entries, retry, |f.entries|);
      if left == [] then Absent else Saved(version, left)
  }

  function AfterFullRun(f: Stored, version: string, fails: seq<Test>, options: string): Stored {
    Saved(version, Merged(Entries(f), fails, options, |fails|))
  }

  function Tests(s: seq<Entry>): seq<Test> {
    seq(|s|, i requires 0 <= i < |s| => s[i].test)
  }

  /** Of `m` entries the loop deals with the first `n`; then it is through, or an exception ends it. */
  ghost predicate Reaches(retry: nat -> Retry, m: nat, n: nat) {
    n <= m && Unbroken(retry, n) && (n < m ==> Breaks(retry(n)))
  }

  /** How many entries are begun, the one at which an exception ends the loop included. */
  function Run(m: nat, n: nat): nat {
    if n < m then n + 1 else m
  }

  /** The entries removed among the first `n`, and those among them whose tests fail again. */
  function Removed(retry: nat -> Retry, n: nat): (r: set<nat>)
    ensures forall i: nat :: i in r <==> i < n && (retry(i).Missing? || (retry(i).Ran? && retry(i).outcome.Pass?))
  {
    set i: nat | i < n && NowPasses(retry(i))
  }

  function FailedAgain(retry: nat -> Retry, n: nat): (r: set<nat>)
    ensures forall i: nat :: i in r <==> i < n && retry(i).Ran? && !retry(i).outcome.Pass? && !retry(i).outcome.Skip?
  {
    set i: nat | i < n && retry(i).Ran? && retry(i).outcome in {Fail, ServerFail, Crash}
  }

  /** A test that passed before an exception ended the loop is a winner that keeps its entry. */
  function LateWinner(s: seq<Entry>, retry: nat -> Retry, n: nat): seq<Test> {
    if n < |s| && retry(n).Ran? && retry(n).outcome.Pass? then [s[n].test] else []
  }

  /** The lists `w` and `f` are `w0` and `f0` with the winners and failures of the first `n` entries. */
  ghost predicate Told(s: seq<Entry>, retry: nat -> Retry, n: nat, w0: seq<Test>, f0: seq<Test>,
                       w: seq<Test>, f: seq<Test>)
    requires n <= |s|
  {
    w == w0 + TestsAt(Tests(s), Removed(retry, n), n) && f == f0 + TestsAt(Tests(s), FailedAgain(retry, n), n)
  }

  /** What one entry adds to the lists. */
  function WonBy(r: Retry, t: Test): seq<Test> {
    if r.Missing? || (r.Ran? && r.outcome.Pass?) then [t] else []
  }

  function LostBy(r: Retry, t: Test): seq<Test> {
    if r.Ran? && !r.outcome.Pass? && !r.outcome.Skip? then [t] else []
  }

  lemma ToldStep(s: seq<Entry>, retry: nat -> Retry, n: nat, w0: seq<Test>, f0: seq<Test>, w: seq<Test>, f: seq<Test>)
    requires n < |s| && Told(s, retry, n, w0, f0, w, f)
    ensures Told(s, retry, n + 1, w0, f0, w + WonBy(retry(n), s[n].test), f + LostBy(retry(n), s[n].test))
  {
    TestsAtSame(Tests(s), Removed(retry, n + 1), Removed(retry, n), n);
    TestsAtSame(Tests(s), FailedAgain(retry, n + 1), FailedAgain(retry, n), n);
  }

  /** The lists when the loop has ended at entry `n`. */
  ghost predicate Ended(s: seq<Entry>, retry: nat -> Retry, n: nat, w0: seq<Test>, f0: seq<Test>,
                        w: seq<Test>, f: seq<Test>)
  {
    && Reaches(retry, |s|, n)
    && w == w0 + TestsAt(Tests(s), Removed(retry, n), n) + LateWinner(s, retry, n)
    && f == f0 + TestsAt(Tests(s), FailedAgain(retry, Run(|s|, n)), Run(|s|, n))
  }

  lemma ToldAtBreak(s: seq<Entry>, retry: nat -> Retry, n: nat, w0: seq<Test>, f0: seq<Test>, w: seq<Test>, f: seq<Test>)
    requires n < |s| && Told(s, retry, n, w0, f0, w, f) && Unbroken(retry, n) && Breaks(retry(n))
    ensures Ended(s, retry, n, w0, f0, w + WonBy(retry(n), s[n].test), f + LostBy(retry(n), s[n].test))
  {
    ToldStep(s, retry, n, w0, f0, w, f);
  }

  lemma ToldAtEnd(s: seq<Entry>, retry: nat -> Retry, w0: seq<Test>, f0: seq<Test>, w: seq<Test>, f: seq<Test>)
    requires Told(s, retry, |s|, w0, f0, w, f) && Unbroken(retry, |s|)
    ensures Ended(s, retry, |s|, w0, f0, w, f)
  {
  }

  /** Where the loop stands before entry `n`: no exception so far, and the entries passed noted. */
  ghost predicate Noted(retry: nat -> Retry, n: nat, passed: seq<nat>) {
    Unbroken(retry, n) && Ascending(passed, n) && Positions(passed) == Removed(retry, n)
  }

  lemma NotedStep(retry: nat -> Retry, n: nat, passed: seq<nat>)
    requires Noted(retry, n, passed) && !Breaks(retry(n))
    ensures Noted(retry, n + 1, if NowPasses(retry(n)) then passed + [n] else passed)
  {
    MorePositions(passed, n);
  }

  lemma RemovedRecords(retry: nat -> Retry, m: nat, n: nat)
    requires Reaches(retry, m, n)
    ensures forall i: nat :: i < m ==> (i in Removed(retry, n) <==> Recorded(retry, i))
  {
    forall i: nat | i < m ensures i in Removed(retry, n) <==> Recorded(retry, i) {
      if i >= n {
        assert Breaks(retry(n));
      }
    }
  }

  // ------------------------------------------------------------------ histories

  /** Runs of the script, each by some version of it. */
  datatype Use =
    | FullRun(version: string, fails: seq<Test>, options: string)
    | OldFails(version: string, retry: nat -> Retry)
    | Reset

  function After(f: Stored, u: Use): Stored {
    match u
    case FullRun(version, fails, options) => AfterFullRun(f, version, fails, options)
    case OldFails(version, retry) => AfterOldFails(f, version, retry)
    case Reset => Absent
  }

  function AfterAll(f: Stored, uses: seq<Use>, n: nat): Stored
    requires n <= |uses|
  {
    if n == 0 then f else After(AfterAll(f, uses, n - 1), uses[n - 1])
  }

  lemma UseKeepsDistinct(f: Stored, u: Use)
    requires Distinct(Entries(f))
    ensures Distinct(Entries(After(f, u)))
  {
    match u {
      case FullRun(version, fails, options) => MergedDistinct(Entries(f), fails, options, |fails|);
      case OldFails(version, retry) => StillFailingDistinct(Entries(f), retry, |Entries(f)|);
      case Reset =>
    }
  }

  /** Over every history the fail file holds no (test, options) pair twice. */
  lemma {:induction false} NeverTwice(f: Stored, uses: seq<Use>, n: nat)
    requires n <= |uses| && Distinct(Entries(f))
    ensures Distinct(Entries(AfterAll(f, uses, n)))
  {
    if n > 0 {
      NeverTwice(f, uses, n - 1);
      UseKeepsDistinct(AfterAll(f, uses, n - 1), uses[n - 1]);
    }
  }

  // ------------------------------------------------------------------- the script

  class Smoke {
    const version: string
    var failfile: Stored
    var fails: seq<Test>
    var winners: seq<Test>

    constructor (version: string, failfile: Stored)
      ensures this.version == version && this.failfile == failfile && fails == [] && winners == []
    {
      this.version, this.failfile, fails, winners := version, failfile, [], [];
    }

    /** The loop of a run: each test stands in `fails` until it has passed. */
    method RunTests(tests: seq<Test>, outcome: nat -> Outcome, continueOnFailure: bool) returns (begun: nat)
      modifies `fails, `winners
      ensures begun <= |tests|
      ensures forall i: nat :: i < begun - 1 ==>
                outcome(i) == Skip(false) || outcome(i) == Pass(false) || (outcome(i) == Fail && continueOnFailure)
      ensures begun < |tests| ==>
                begun > 0 && var o := outcome(begun - 1);
                             o != Skip(false) && o != Pass(false) && !(o == Fail && continueOnFailure)
      ensures winners == old(winners) + TestsAt(tests, Passed(outcome, begun), begun)
      ensures fails == old(fails) + TestsAt(tests, Failed(outcome, begun), begun)
    {
      begun := 0;
      while begun < |tests|
        invariant begun <= |tests|
        invariant forall i: nat :: i < begun ==> GoesOn(outcome(i), continueOnFailure)
        invariant winners == old(winners) + TestsAt(tests, Passed(outcome, begun), begun)
        invariant fails == old(fails) + TestsAt(tests, Failed(outcome, begun), begun)
      {
        OneMoreTest(tests, outcome, begun);
        var o := outcome(begun);
        if !o.Skip? {
          ghost var before := fails;
          fails := fails + [tests[begun]];
          if o.Pass? {
            fails := fails[..|fails| - 1];
            assert fails == before;
            winners := winners + [tests[begun]];
          }
        }
        begun := begun + 1;
        if o.ServerFail? || o.Crash? || (o.Fail? && !continueOnFailure) || (!o.Fail? && o.thenRaises) {
          break;
        }
      }
    }

    /** One of the recent failures is run again: did it add a winner? */
    method RetryOne(test: Test, o: Outcome, continueOnFailure: bool) returns (won: bool)
      modifies `fails, `winners
      ensures won <==> o.Pass?
      ensures winners == old(winners) + if o.Pass? then [test] else []
      ensures fails == old(fails) + if o.Pass? || o.Skip? then [] else [test]
    {
      var oldWinners := |winners|;
      ghost var outcome := (_: nat) => o;
      var begun := RunTests([test], (_: nat) => o, continueOnFailure);
      OneMoreTest([test], outcome, 0);
      won := |winners| != oldWinners;
    }

    /** One entry of the fail file.  An exception leaves no note that the entry passed. */
    method RunEntry(test: Test, r: Retry, continueOnFailure: bool) returns (passed: bool, raised: bool)
      modifies `fails, `winners
      ensures raised <==> r.SetupRaises? || (r.Ran? && (r.exitRaises || r.outcome in {Crash, Skip(true), Pass(true)}))
      ensures passed <==> !raised && (r.Missing? || (r.Ran? && r.outcome.Pass?))
      ensures winners == old(winners) + WonBy(r, test) && fails == old(fails) + LostBy(r, test)
    {
      passed, raised := false, false;
      if r.Missing? {
        winners := winners + [test];
        return true, false;
      }
      if r.SetupRaises? {
        return false, true;
      }
      if r.Ran? {
        var won := RetryOne(test, r.outcome, continueOnFailure);
        if r.exitRaises || r.outcome.Crash? || ((r.outcome.Skip? || r.outcome.Pass?) && r.outcome.thenRaises) {
          return false, true;
        }
        return won, false;
      }
    }

    /** The next entry of the loop, noted if it has passed. */
    method NextEntry(s: seq<Entry>, retry: nat -> Retry, i: nat, passed: seq<nat>, continueOnFailure: bool,
                     ghost w0: seq<Test>, ghost f0: seq<Test>)
      returns (passed': seq<nat>, raised: bool)
      requires i < |s| && Noted(retry, i, passed) && Told(s, retry, i, w0, f0, winners, fails)
      modifies `fails, `winners
      ensures raised ==> passed' == passed && Ended(s, retry, i, w0, f0, winners, fails)
      ensures !raised ==> Noted(retry, i + 1, passed') && Told(s, retry, i + 1, w0, f0, winners, fails)
    {
      ghost var w, f := winners, fails;
      passed' := passed;
      var p;
      p, raised := RunEntry(s[i].test, retry(i), continueOnFailure);
      if raised {
        ToldAtBreak(s, retry, i, w0, f0, w, f);
      } else {
        ToldStep(s, retry, i, w0, f0, w, f);
        NotedStep(retry, i, passed);
        if p {
          passed' := passed + [i];
        }
      }
    }

    /** The loop over the entries, up to its end or to an exception. */
    method RunEntries(s: seq<Entry>, retry: nat -> Retry, continueOnFailure: bool) returns (passed: seq<nat>, ghost n: nat)
      modifies `fails, `winners
      ensures Ended(s, retry, n, old(winners), old(fails), winners, fails) && Noted(retry, n, passed)
    {
      passed, n := [], 0;
      var i: nat := 0;
      while i < |s|
        invariant i == n <= |s|
        invariant Noted(retry, i, passed) && Told(s, retry, i, old(winners), old(fails), winners, fails)
      {
        var raised;
        passed, raised := NextEntry(s, retry, i, passed, continueOnFailure, old(winners), old(fails));
        if raised {
          return;
        }
        i, n := i + 1, n + 1;
      }
      ToldAtEnd(s, retry, old(winners), old(fails), winners, fails);
    }

    /** Only the recent failures are run.  The file is rewritten also if an exception ends the loop at
        entry `n`.  The entries removed are those of the winners added, except for a winner at `n`,
        and they are before `n`; a test that fails again keeps its entry. */
    method RunOldFails(retry: nat -> Retry, continueOnFailure: bool) returns (ghost n: nat)
      modifies this
      ensures failfile == AfterOldFails(old(failfile), version, retry)
      ensures if old(failfile).Saved? && old(failfile).version == version then
                var s := old(failfile).entries;
                && Ended(s, retry, n, old(winners), old(fails), winners, fails)
                && Entries(failfile) == Keep(s, Removed(retry, n), |s|)
                && (failfile.Saved? ==> failfile.version == version)
              else failfile == Absent && winners == old(winners) && fails == old(fails)
    {
      n := 0;
      if !failfile.Saved? || failfile.version != version {
        failfile := Absent;
        return;
      }
      var s := failfile.entries;
      var passed;
      passed, n := RunEntries(s, retry, continueOnFailure);
      RemovedRecords(retry, |s|, n);
      KeepIsStillFailing(s, retry, Removed(retry, n), |s|);
      var left := PopAll(s, passed);
      failfile := if left == [] then Absent else Saved(version, left);
    }

    /** The failures of a full run are merged into the file, whatever version wrote it. */
    method AddToFailfile(tests: seq<Test>, options: string)
      modifies `failfile
      ensures failfile == AfterFullRun(old(failfile), version, tests, options)
      ensures failfile == Saved(version, Merged(Entries(old(failfile)), tests, options, |tests|))
    {
      var s := Entries(failfile);
      for i := 0 to |tests|
        invariant s == Merged(Entries(old(failfile)), tests, options, i)
      {
        if Entry(tests[i], options) !in s {
          s := s + [Entry(tests[i], options)];
        }
      }
      failfile := Saved(version, s);
    }
  }
}
