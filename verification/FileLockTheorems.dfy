/** Safety of the two-level lock over every interleaving of any number of JVMs and threads. */
module FileLockTheorems {
  import opened Wrappers
  import opened FileLock

  // ---------------------------------------------------------------- the invariant

  /** The call took a permit and still has to give it back. */
  predicate PastAcquire(c: Call) {
    c.pc.HasPermit? || c.pc.HasFile? || c.pc.Critical? || c.pc.FileReleased? || (c.pc.Finally? && c.locked)
  }

  predicate HoldsFile(c: Call) {
    c.pc.Critical? || (c.pc.Finally? && c.locked)
  }

  ghost function Owing(m: Jvm): set<ThreadId> {
    set t | t in m.calls && PastAcquire(m.calls[t])
  }

  /** Every permit is free, owed by exactly one call, or lost. */
  ghost predicate Conserved(m: Jvm) {
    m.permits >= 0 && m.permits + |Owing(m)| + m.lost == 1
  }

  /** A lock object is marked locked exactly from taking the file lock on. */
  ghost predicate Coherent(c: Call) {
    && !c.pc.PermitReleased?
    && (c.pc.Locking? || c.pc.HasPermit? || c.pc.HasFile? ==> !c.locked)
    && (c.pc.Critical? || c.pc.FileReleased? ==> c.locked)
  }

  ghost predicate JvmOk(m: Jvm) {
    Conserved(m) && forall t :: t in m.calls ==> Coherent(m.calls[t])
  }

  /** A held file is held by its owner's one call past `lock()`, or was left behind by a call that lost its permit. */
  ghost predicate FileOk(w: World, n: string)
    requires n in w.files
  {
    var j := w.files[n];
    && j in w.jvms
    && (w.jvms[j].lost > 0 ||
        exists t :: t in w.jvms[j].calls && HoldsFile(w.jvms[j].calls[t]) && w.jvms[j].calls[t].name == n)
  }

  ghost predicate CallOk(w: World, j: JvmId, t: ThreadId)
    requires j in w.jvms && t in w.jvms[j].calls
  {
    var c := w.jvms[j].calls[t];
    HoldsFile(c) ==> c.name in w.files && w.files[c.name] == j
  }

  ghost predicate Inv(w: World) {
    && (forall j :: j in w.jvms ==> JvmOk(w.jvms[j]))
    && (forall n :: n in w.files ==> FileOk(w, n))
    && (forall j, t :: j in w.jvms && t in w.jvms[j].calls ==> CallOk(w, j, t))
  }

  /** At most one call of a JVM owes a permit, and none once a permit is lost. */
  lemma OneOwing(m: Jvm, t: ThreadId, u: ThreadId)
    requires Conserved(m)
    requires t in m.calls && PastAcquire(m.calls[t]) && u in m.calls && PastAcquire(m.calls[u])
    ensures t == u && m.lost == 0 && m.permits == 0
  {
    assert t in Owing(m) && u in Owing(m);
    if t != u {
      assert |{t, u}| == 2;
      SubsetSize({t, u}, Owing(m));
    }
    SubsetSize({t}, Owing(m));
  }

  lemma SubsetSize(a: set<ThreadId>, b: set<ThreadId>)
    requires a <= b
    ensures |a| <= |b|
  {
    assert b == a + (b - a);
  }

  lemma OtherCall(m: Jvm, m': Jvm, t: ThreadId, u: ThreadId)
    requires m'.calls - {t} == m.calls - {t} && u != t
    ensures u in m'.calls <==> u in m.calls
    ensures u in m.calls ==> m'.calls[u] == m.calls[u]
  {
    assert u in m'.calls <==> u in m'.calls - {t};
    assert u in m.calls <==> u in m.calls - {t};
    assert u in m.calls ==> (m'.calls - {t})[u] == (m.calls - {t})[u];
  }

  lemma OwingAfter(m: Jvm, m': Jvm, t: ThreadId)
    requires t in m.calls
    requires m'.calls - {t} == m.calls - {t}
    ensures var owes, owed := t in m'.calls && PastAcquire(m'.calls[t]), PastAcquire(m.calls[t]);
            |Owing(m')| == |Owing(m)| + (if owes then 1 else 0) - (if owed then 1 else 0)
  {
    var rest := Owing(m) - {t};
    forall u ensures u in Owing(m') - {t} <==> u in rest {
      if u != t {
        OtherCall(m, m', t, u);
      }
    }
    assert Owing(m') - {t} == rest;
    assert |Owing(m)| == |rest| + if t in Owing(m) then 1 else 0;
    assert |Owing(m')| == |Owing(m') - {t}| + if t in Owing(m') then 1 else 0;
  }

  /** Every action of a thread conserves the permits of its JVM. */
  lemma PerformConserves(m: Jvm, files: map<string, JvmId>, j: JvmId, t: ThreadId, action: Action)
    requires JvmOk(m) && t in m.calls
    requires Perform(FileThenPermit, m, files, j, t, action).Some?
    ensures JvmOk(Perform(FileThenPermit, m, files, j, t, action).value.0)
  {
    var m' := Perform(FileThenPermit, m, files, j, t, action).value.0;
    OwingAfter(m, m', t);
  }

  /** All that the file invariant needs to know about an action: it touches one call, which
      keeps its name, and it either leaves the files alone, takes the call's file or drops it. */
  ghost predicate Effect(m: Jvm, files: map<string, JvmId>, j: JvmId, t: ThreadId,
                         m': Jvm, files': map<string, JvmId>)
    requires t in m.calls
  {
    var c := m.calls[t];
    var holds := t in m'.calls && HoldsFile(m'.calls[t]);
    && m'.calls - {t} == m.calls - {t}
    && (t in m'.calls ==> m'.calls[t].name == c.name)
    && m'.lost >= m.lost
    && (|| (files' == files && (holds ==> HoldsFile(c)) && (HoldsFile(c) ==> holds || m'.lost > 0))
        || (files' == files[c.name := j] && c.name !in files && holds)
        || (files' == files - {c.name} && HoldsFile(c) && !holds))
  }

  lemma PerformEffect(m: Jvm, files: map<string, JvmId>, j: JvmId, t: ThreadId, action: Action)
    requires JvmOk(m) && t in m.calls
    requires Perform(FileThenPermit, m, files, j, t, action).Some?
    ensures var r := Perform(FileThenPermit, m, files, j, t, action).value;
            Effect(m, files, j, t, r.0, r.1)
  {
    assert Coherent(m.calls[t]);
  }

  lemma EffectKeepsCall(w: World, j: JvmId, t: ThreadId, m': Jvm, files': map<string, JvmId>,
                        k: JvmId, u: ThreadId)
    requires Inv(w) && j in w.jvms && t in w.jvms[j].calls && Effect(w.jvms[j], w.files, j, t, m', files')
    requires k in w.jvms && u in (if k == j then m' else w.jvms[k]).calls
    ensures CallOk(World(w.jvms[j := m'], files'), k, u)
  {
    var c := w.jvms[j].calls[t];
    assert CallOk(w, j, t);
    if k != j || u != t {
      if k == j {
        OtherCall(w.jvms[j], m', t, u);
      }
      assert CallOk(w, k, u);
      var other := w.jvms[k].calls[u];
      if HoldsFile(c) && HoldsFile(other) && other.name == c.name {
        OneOwing(w.jvms[j], t, u);
      }
    }
  }

  lemma EffectKeepsFile(w: World, j: JvmId, t: ThreadId, m': Jvm, files': map<string, JvmId>, n: string)
    requires Inv(w) && j in w.jvms && t in w.jvms[j].calls && Effect(w.jvms[j], w.files, j, t, m', files')
    requires n in files'
    ensures FileOk(World(w.jvms[j := m'], files'), n)
  {
    var w' := World(w.jvms[j := m'], files');
    var k := files'[n];
    if n in w.files {
      assert FileOk(w, n);
      if w.jvms[k].lost == 0 {
        var u :| u in w.jvms[k].calls && HoldsFile(w.jvms[k].calls[u]) && w.jvms[k].calls[u].name == n;
        if k == j && u != t {
          OtherCall(w.jvms[j], m', t, u);
        }
        assert w'.jvms[k].lost > 0 || (u in w'.jvms[k].calls && w'.jvms[k].calls[u].name == n);
      }
    } else {
      assert HoldsFile(w'.jvms[j].calls[t]);
    }
  }

  lemma ActKeepsInv(w: World, j: JvmId, t: ThreadId, action: Action)
    requires Inv(w) && j in w.jvms && t in w.jvms[j].calls
    requires Perform(FileThenPermit, w.jvms[j], w.files, j, t, action).Some?
    ensures var r := Perform(FileThenPermit, w.jvms[j], w.files, j, t, action).value;
            Inv(World(w.jvms[j := r.0], r.1))
  {
    var r := Perform(FileThenPermit, w.jvms[j], w.files, j, t, action).value;
    var m', files' := r.0, r.1;
    PerformConserves(w.jvms[j], w.files, j, t, action);
    PerformEffect(w.jvms[j], w.files, j, t, action);
    EffectKeepsInv(w, j, t, m', files');
  }

  lemma EffectKeepsInv(w: World, j: JvmId, t: ThreadId, m': Jvm, files': map<string, JvmId>)
    requires Inv(w) && j in w.jvms && t in w.jvms[j].calls && Effect(w.jvms[j], w.files, j, t, m', files')
    requires JvmOk(m')
    ensures Inv(World(w.jvms[j := m'], files'))
  {
    var w' := World(w.jvms[j := m'], files');
    forall n | n in w'.files ensures FileOk(w', n) {
      EffectKeepsFile(w, j, t, m', files', n);
    }
    forall k, u | k in w'.jvms && u in w'.jvms[k].calls ensures CallOk(w', k, u) {
      EffectKeepsCall(w, j, t, m', files', k, u);
    }
  }

  lemma BootKeepsInv(w: World, j: JvmId)
    requires Inv(w) && j !in w.jvms
    ensures Inv(w.(jvms := w.jvms[j := Jvm(1, 0, map[])]))
  {
    var w' := w.(jvms := w.jvms[j := Jvm(1, 0, map[])]);
    assert Owing(w'.jvms[j]) == {};
    forall n | n in w'.files ensures FileOk(w', n) {
      assert FileOk(w, n);
    }
    forall k, u | k in w'.jvms && u in w'.jvms[k].calls ensures CallOk(w', k, u) {
      assert CallOk(w, k, u);
    }
  }

  lemma HaltKeepsInv(w: World, j: JvmId)
    requires Inv(w) && j in w.jvms
    ensures Inv(World(w.jvms - {j}, map n | n in w.files && w.files[n] != j :: w.files[n]))
  {
    var w' := World(w.jvms - {j}, map n | n in w.files && w.files[n] != j :: w.files[n]);
    forall n | n in w'.files ensures FileOk(w', n) {
      assert FileOk(w, n);
    }
    forall k, u | k in w'.jvms && u in w'.jvms[k].calls ensures CallOk(w', k, u) {
      assert CallOk(w, k, u);
    }
  }

  lemma EnterKeepsInv(w: World, j: JvmId, t: ThreadId, name: string)
    requires Inv(w) && j in w.jvms && t !in w.jvms[j].calls
    ensures Inv(w.(jvms := w.jvms[j := Move(w.jvms[j], t, Call(Locking, name, false))]))
  {
    var w' := w.(jvms := w.jvms[j := Move(w.jvms[j], t, Call(Locking, name, false))]);
    assert Owing(w'.jvms[j]) == Owing(w.jvms[j]);
    forall n | n in w'.files ensures FileOk(w', n) {
      assert FileOk(w, n);
      var k := w.files[n];
      if w.jvms[k].lost == 0 {
        var u :| u in w.jvms[k].calls && HoldsFile(w.jvms[k].calls[u]) && w.jvms[k].calls[u].name == n;
        assert w'.jvms[k].calls[u] == w.jvms[k].calls[u];
      }
    }
    forall k, u | k in w'.jvms && u in w'.jvms[k].calls ensures CallOk(w', k, u) {
      if k != j || u != t {
        assert CallOk(w, k, u);
      }
    }
  }

  lemma NextKeepsInv(w: World, s: Step)
    requires Inv(w) && Next(FileThenPermit, w, s).Some?
    ensures Inv(Next(FileThenPermit, w, s).value)
  {
    match s {
      case Boot(j) => BootKeepsInv(w, j);
      case Halt(j) => HaltKeepsInv(w, j);
      case Enter(j, t, name) => EnterKeepsInv(w, j, t, name);
      case Act(j, t, action) => ActKeepsInv(w, j, t, action);
    }
  }

  lemma {:induction false} RunKeepsInv(w: World, run: seq<Step>)
    requires Inv(w) && Play(FileThenPermit, w, run).Some?
    ensures Inv(Play(FileThenPermit, w, run).value)
    decreases run
  {
    if run != [] {
      NextKeepsInv(w, run[0]);
      RunKeepsInv(Next(FileThenPermit, w, run[0]).value, run[1..]);
    }
  }

  // ------------------------------------------------------------------- the theorems

  ghost predicate InCritical(w: World, j: JvmId, t: ThreadId) {
    j in w.jvms && t in w.jvms[j].calls && w.jvms[j].calls[t].pc.Critical?
  }

  /** At most one thread per JVM is inside, whatever the names, and at most one per name
      over all JVMs. */
  lemma MutualExclusion(run: seq<Step>, w: World, j: JvmId, t: ThreadId, k: JvmId, u: ThreadId)
    requires Play(FileThenPermit, START, run) == Some(w)
    requires InCritical(w, j, t) && InCritical(w, k, u)
    requires j == k || w.jvms[j].calls[t].name == w.jvms[k].calls[u].name
    ensures j == k && t == u
  {
    RunKeepsInv(START, run);
    assert CallOk(w, j, t) && CallOk(w, k, u);
    OneOwing(w.jvms[j], t, u);
  }

  /** A permit of a JVM is free, owed by one call, or lost: the three add up to one.  So the
      `finally` block never adds a surplus permit: where it releases one, none is free. */
  lemma PermitsConserved(run: seq<Step>, w: World, j: JvmId)
    requires Play(FileThenPermit, START, run) == Some(w) && j in w.jvms
    ensures 0 <= w.jvms[j].permits && w.jvms[j].permits + |Owing(w.jvms[j])| + w.jvms[j].lost == 1
    ensures forall t :: Next(FileThenPermit, w, Act(j, t, ReleasePermit)).Some? ==> w.jvms[j].permits == 0
  {
    RunKeepsInv(START, run);
    forall t | Next(FileThenPermit, w, Act(j, t, ReleasePermit)).Some? ensures w.jvms[j].permits == 0 {
      OneOwing(w.jvms[j], t, t);
    }
  }

  /** `lock()` is never called on a locked object, and `unlock()` meets an unlocked one only
      in a call that gave up its claim to the permit. */
  lemma ObjectsUsedOnce(run: seq<Step>, w: World, j: JvmId, t: ThreadId)
    requires Play(FileThenPermit, START, run) == Some(w)
    ensures Next(FileThenPermit, w, Act(j, t, Refuse)).None?
    ensures Next(FileThenPermit, w, Act(j, t, NotLocked)).Some? ==> t !in Owing(w.jvms[j])
  {
    RunKeepsInv(START, run);
    if j in w.jvms && t in w.jvms[j].calls {
      assert Coherent(w.jvms[j].calls[t]);
    }
  }

  // --------------------------------------------------------- the order of release

  /** Some thread is about to ask for a file lock that its own JVM already holds or waits for. */
  ghost predicate OverlapPending(order: Order, w: World) {
    exists j, t :: Next(order, w, Act(j, t, Overlap)).Some?
  }

  ghost predicate NeverOverlaps(order: Order) {
    forall run :: Play(order, START, run).Some? ==> !OverlapPending(order, Play(order, START, run).value)
  }

  lemma FileFirstNeverOverlaps(run: seq<Step>, w: World)
    requires Play(FileThenPermit, START, run) == Some(w)
    ensures !OverlapPending(FileThenPermit, w)
  {
    RunKeepsInv(START, run);
    forall j, t ensures Next(FileThenPermit, w, Act(j, t, Overlap)).None? {
      if Next(FileThenPermit, w, Act(j, t, Overlap)).Some? {
        var m := w.jvms[j];
        var c := m.calls[t];
        OneOwing(m, t, t);
        if c.name in w.files && w.files[c.name] == j {
          assert FileOk(w, c.name);
          var u :| u in m.calls && HoldsFile(m.calls[u]) && m.calls[u].name == c.name;
          OneOwing(m, t, u);
        } else {
          var u :| u in m.calls && u != t && m.calls[u].pc.HasFile? && m.calls[u].name == c.name;
          OneOwing(m, t, u);
        }
      }
    }
  }

  /** Releasing the permit first lets a second thread of the JVM run into the held file. */
  lemma PermitFirstOverlaps()
    ensures !NeverOverlaps(PermitThenFile)
  {
    var run, w := FirstCallReleases();
    var w1 := Take(run, w, Enter(0, 1, "mapper"));
    var w2 := Take(run + [Enter(0, 1, "mapper")], w1, Act(0, 1, Acquire));
    var w3 := Take(run + [Enter(0, 1, "mapper")] + [Act(0, 1, Acquire)], w2, Act(0, 1, OpenFile));
    assert Next(PermitThenFile, w3, Act(0, 1, Overlap)).Some?;
    assert OverlapPending(PermitThenFile, w3);
  }

  /** A run in which one call has released its permit and still holds its file. */
  lemma FirstCallReleases() returns (run: seq<Step>, w: World)
    ensures Play(PermitThenFile, START, run) == Some(w)
    ensures 0 in w.jvms && w.jvms[0].permits == 1 && w.jvms[0].calls.Keys == {0}
    ensures "mapper" in w.files && w.files["mapper"] == 0
  {
    run, w := FirstCallLeaves();
    w := Take(run, w, Act(0, 0, ReleasePermit));
    run := run + [Act(0, 0, ReleasePermit)];
  }

  lemma FirstCallLeaves() returns (run: seq<Step>, w: World)
    ensures Play(PermitThenFile, START, run) == Some(w)
    ensures 0 in w.jvms && w.jvms[0].permits == 0 && w.jvms[0].calls == map[0 := Call(Finally, "mapper", true)]
    ensures "mapper" in w.files && w.files["mapper"] == 0
  {
    run, w := FirstCallOpens();
    w := Take(run, w, Act(0, 0, LockFile));
    run := run + [Act(0, 0, LockFile)];
    w := Take(run, w, Act(0, 0, LeaveBody));
    run := run + [Act(0, 0, LeaveBody)];
  }

  lemma FirstCallOpens() returns (run: seq<Step>, w: World)
    ensures Play(PermitThenFile, START, run) == Some(w) && w.files == map[]
    ensures 0 in w.jvms && w.jvms[0].permits == 0 && w.jvms[0].calls.Keys == {0}
    ensures w.jvms[0].calls[0] == Call(HasFile, "mapper", false)
  {
    run, w := [], START;
    w := Take(run, w, Boot(0));
    run := run + [Boot(0)];
    w := Take(run, w, Enter(0, 0, "mapper"));
    run := run + [Enter(0, 0, "mapper")];
    w := Take(run, w, Act(0, 0, Acquire));
    run := run + [Act(0, 0, Acquire)];
    w := Take(run, w, Act(0, 0, OpenFile));
    run := run + [Act(0, 0, OpenFile)];
  }

  /** A run can be extended by any step that is possible at its end. */
  lemma Take(run: seq<Step>, w: World, s: Step) returns (w': World)
    requires Play(PermitThenFile, START, run) == Some(w) && Next(PermitThenFile, w, s).Some?
    ensures Next(PermitThenFile, w, s) == Some(w') && Play(PermitThenFile, START, run + [s]) == Some(w')
  {
    w' := Next(PermitThenFile, w, s).value;
    PlayAppend(PermitThenFile, START, run, [s]);
  }

  lemma {:induction false} PlayAppend(order: Order, w: World, run: seq<Step>, more: seq<Step>)
    ensures Play(order, w, run + more) ==
            match Play(order, w, run) { case None => None case Some(w') => Play(order, w', more) }
    decreases run
  {
    if run == [] {
      assert run + more == more;
    } else {
      assert (run + more)[0] == run[0] && (run + more)[1..] == run[1..] + more;
      match Next(order, w, run[0]) {
        case None =>
        case Some(w') => PlayAppend(order, w', run[1..], more);
      }
    }
  }

  /** No thread ever asks for a file lock its own JVM holds, exactly because the file lock is
      released before the permit. */
  lemma NeverOverlapsIff(order: Order)
    ensures NeverOverlaps(order) <==> order == FileThenPermit
  {
    if order == FileThenPermit {
      forall run | Play(order, START, run).Some? ensures !OverlapPending(order, Play(order, START, run).value) {
        FileFirstNeverOverlaps(run, Play(order, START, run).value);
      }
    } else {
      PermitFirstOverlaps();
    }
  }

  // --------------------------------------------------------------- lost permits

  lemma LostStays(w: World, s: Step, j: JvmId)
    requires j in w.jvms && s != Halt(j) && Next(FileThenPermit, w, s).Some?
    ensures var w' := Next(FileThenPermit, w, s).value; j in w'.jvms && w'.jvms[j].lost >= w.jvms[j].lost
  {
  }

  lemma {:induction false} LostStaysLost(w: World, run: seq<Step>, j: JvmId)
    requires j in w.jvms && Halt(j) !in run && Play(FileThenPermit, w, run).Some?
    ensures var w' := Play(FileThenPermit, w, run).value; j in w'.jvms && w'.jvms[j].lost >= w.jvms[j].lost
    decreases run
  {
    if run != [] {
      assert run[0] in run;
      LostStays(w, run[0], j);
      LostStaysLost(Next(FileThenPermit, w, run[0]).value, run[1..], j);
    }
  }

  /** One failure after `acquire` shuts a JVM out for good: until it is restarted, no thread of
      it is past `acquire` and none can get there. */
  lemma LostForGood(before: seq<Step>, w: World, after: seq<Step>, w': World, j: JvmId)
    requires Play(FileThenPermit, START, before) == Some(w) && j in w.jvms && w.jvms[j].lost > 0
    requires Play(FileThenPermit, w, after) == Some(w') && Halt(j) !in after
    ensures j in w'.jvms && Owing(w'.jvms[j]) == {} && w'.jvms[j].permits == 0
    ensures forall t :: Next(FileThenPermit, w', Act(j, t, Acquire)).None?
  {
    RunKeepsInv(START, before);
    RunKeepsInv(w, after);
    LostStaysLost(w, after, j);
    assert Conserved(w'.jvms[j]);
  }

  /** How many steps the call is away from giving back its permit. */
  function Remaining(c: Call): nat {
    match c.pc
    case HasPermit => 5
    case HasFile => 4
    case Critical => 3
    case Finally => 2
    case _ => 1
  }

  /** The step that brings a call past `acquire` nearer to giving back its permit. */
  function Onward(c: Call): Action {
    match c.pc
    case HasPermit => OpenFile
    case HasFile => LockFile
    case Critical => LeaveBody
    case Finally => ReleaseFile
    case _ => ReleasePermit
  }

  lemma LastStep(w: World, j: JvmId, t: ThreadId)
    requires Inv(w) && j in w.jvms && t in Owing(w.jvms[j]) && w.jvms[j].calls[t].pc.FileReleased?
    ensures var w' := Next(FileThenPermit, w, Act(j, t, ReleasePermit));
            w'.Some? && j in w'.value.jvms && w'.value.jvms[j].permits == 1
  {
    OneOwing(w.jvms[j], t, t);
  }

  lemma Moves(m: Jvm, files: map<string, JvmId>, j: JvmId, t: ThreadId)
    requires t in m.calls && PastAcquire(m.calls[t]) && Coherent(m.calls[t]) && !m.calls[t].pc.FileReleased?
    requires m.calls[t].pc.HasFile? ==> m.calls[t].name !in files
    ensures var r := Perform(FileThenPermit, m, files, j, t, Onward(m.calls[t]));
            r.Some? && var after := r.value.0;
                       && after.lost == m.lost && t in after.calls && PastAcquire(after.calls[t])
                       && Remaining(after.calls[t]) < Remaining(m.calls[t])
  {
  }

  lemma Proceeds(w: World, j: JvmId, t: ThreadId)
    requires Inv(w) && j in w.jvms && t in Owing(w.jvms[j]) && !w.jvms[j].calls[t].pc.FileReleased?
    requires w.jvms[j].calls[t].pc.HasFile? ==> w.jvms[j].calls[t].name !in w.files
    ensures var c, w' := w.jvms[j].calls[t], Next(FileThenPermit, w, Act(j, t, Onward(w.jvms[j].calls[t])));
            && w'.Some? && j in w'.value.jvms && w'.value.jvms[j].lost == w.jvms[j].lost
            && t in Owing(w'.value.jvms[j]) && Remaining(w'.value.jvms[j].calls[t]) < Remaining(c)
  {
    assert JvmOk(w.jvms[j]);
    Moves(w.jvms[j], w.files, j, t);
  }

  /** A file another JVM holds is freed when that JVM is halted. */
  lemma HaltFrees(w: World, j: JvmId, t: ThreadId)
    requires Inv(w) && j in w.jvms && t in Owing(w.jvms[j]) && w.jvms[j].lost == 0
    requires w.jvms[j].calls[t].pc.HasFile? && w.jvms[j].calls[t].name in w.files
    ensures var n := w.jvms[j].calls[t].name;
            var k := w.files[n];
            k != j && k in w.jvms && n !in Next(FileThenPermit, w, Halt(k)).value.files
  {
    var n := w.jvms[j].calls[t].name;
    assert FileOk(w, n);
    if w.files[n] == j {
      var u :| u in w.jvms[j].calls && HoldsFile(w.jvms[j].calls[u]);
      OneOwing(w.jvms[j], t, u);
    }
  }

  /** While no permit is lost, the one call that owes a permit can be brought to give it back. */
  lemma {:induction false} GivesBack(w: World, j: JvmId, t: ThreadId) returns (run: seq<Step>, w': World)
    requires Inv(w) && j in w.jvms && t in Owing(w.jvms[j]) && w.jvms[j].lost == 0
    ensures Play(FileThenPermit, w, run) == Some(w') && Halt(j) !in run
    ensures j in w'.jvms && w'.jvms[j].permits == 1
    decreases Remaining(w.jvms[j].calls[t]), if w.jvms[j].calls[t].name in w.files then 1 else 0
  {
    var c := w.jvms[j].calls[t];
    if c.pc.FileReleased? {
      LastStep(w, j, t);
      run := [Act(j, t, ReleasePermit)];
      w' := Next(FileThenPermit, w, run[0]).value;
      assert Play(FileThenPermit, w', []) == Some(w');
    } else {
      var s := Act(j, t, Onward(c));
      if c.pc.HasFile? && c.name in w.files {
        HaltFrees(w, j, t);
        s := Halt(w.files[c.name]);
      } else {
        Proceeds(w, j, t);
      }
      NextKeepsInv(w, s);
      var rest;
      rest, w' := GivesBack(Next(FileThenPermit, w, s).value, j, t);
      run := [s] + rest;
    }
  }

  lemma {:induction false} FreshThread(used: set<ThreadId>) returns (t: ThreadId)
    ensures forall u :: u in used ==> u < t
    decreases used
  {
    t := 0;
    if used != {} {
      var u :| u in used;
      var rest := used - {u};
      assert forall x :: x in used ==> x == u || x in rest;
      var above := FreshThread(rest);
      t := if u < above then above else u + 1;
    }
  }

  /** After the steps `after`, during which JVM `j` is not halted, its thread `t` gets past `acquire`. */
  ghost predicate GetsIn(w: World, after: seq<Step>, j: JvmId, t: ThreadId) {
    && Halt(j) !in after
    && Play(FileThenPermit, w, after).Some?
    && Next(FileThenPermit, Play(FileThenPermit, w, after).value, Act(j, t, Acquire)).Some?
  }

  /** Until JVM `j` is halted, none of its threads gets past `acquire`. */
  ghost predicate ShutOut(w: World, j: JvmId) {
    forall after, t :: !GetsIn(w, after, j, t)
  }

  lemma NewcomerGetsIn(w: World, run: seq<Step>, w': World, j: JvmId)
    requires Play(FileThenPermit, w, run) == Some(w') && Halt(j) !in run
    requires j in w'.jvms && w'.jvms[j].permits == 1
    ensures !ShutOut(w, j)
  {
    var t := FreshThread(w'.jvms[j].calls.Keys);
    var s := Enter(j, t, "mapper");
    var w1 := Next(FileThenPermit, w', s).value;
    assert Play(FileThenPermit, w1, []) == Some(w1);
    PlayAppend(FileThenPermit, w, run, [s]);
    assert Next(FileThenPermit, w1, Act(j, t, Acquire)).Some?;
    assert GetsIn(w, run + [s], j, t);
  }

  lemma NotShutOut(w: World, j: JvmId)
    requires Inv(w) && j in w.jvms && w.jvms[j].lost == 0
    ensures !ShutOut(w, j)
  {
    assert Conserved(w.jvms[j]);
    if w.jvms[j].permits == 1 {
      NewcomerGetsIn(w, [], w, j);
    } else {
      assert Owing(w.jvms[j]) != {};
      var t :| t in Owing(w.jvms[j]);
      var run, w' := GivesBack(w, j, t);
      NewcomerGetsIn(w, run, w', j);
    }
  }

  /** A JVM is shut out until it is halted if and only if one of its permits is lost. */
  lemma ShutOutIff(before: seq<Step>, w: World, j: JvmId)
    requires Play(FileThenPermit, START, before) == Some(w) && j in w.jvms
    ensures ShutOut(w, j) <==> w.jvms[j].lost > 0
  {
    RunKeepsInv(START, before);
    if w.jvms[j].lost == 0 {
      NotShutOut(w, j);
    } else {
      forall after, t ensures !GetsIn(w, after, j, t) {
        if GetsIn(w, after, j, t) {
          LostForGood(before, w, after, Play(FileThenPermit, w, after).value, j);
        }
      }
    }
  }

  // ------------------------------------------------------------ told from the steps

  /** What fails after `acquire`: the permit stays taken, as `unlock()` does not get to its release. */
  predicate Failing(action: Action) {
    action.OpenFails? || action.LockFails? || action.Overlap? || action.ReleaseFails?
  }

  /** Permits taken less permits given back by JVM `j` since it was last started. */
  function Balance(run: seq<Step>, j: JvmId): int {
    if run == [] then 0
    else
      var before, s := Balance(run[..|run| - 1], j), run[|run| - 1];
      if s == Boot(j) then 0
      else if s.Act? && s.j == j && s.action.Acquire? then before + 1
      else if s.Act? && s.j == j && s.action.ReleasePermit? then before - 1
      else before
  }

  /** Since JVM `j` was last started, one of its calls has failed after `acquire`. */
  ghost predicate Failed(run: seq<Step>, j: JvmId) {
    exists i :: 0 <= i < |run| && FailedAt(run, j, i)
  }

  predicate FailedAt(run: seq<Step>, j: JvmId, i: nat)
    requires i < |run|
  {
    && run[i].Act? && run[i].j == j && Failing(run[i].action)
    && forall k :: i < k < |run| ==> run[k] != Boot(j)
  }

  lemma PerformCounts(m: Jvm, files: map<string, JvmId>, j: JvmId, t: ThreadId, action: Action)
    requires t in m.calls && Coherent(m.calls[t]) && Perform(FileThenPermit, m, files, j, t, action).Some?
    ensures var after := Perform(FileThenPermit, m, files, j, t, action).value.0;
            && after.permits == m.permits - (if action.Acquire? then 1 else 0) + (if action.ReleasePermit? then 1 else 0)
            && after.lost == m.lost + if Failing(action) then 1 else 0
  {
  }

  lemma StepCounts(w: World, s: Step, j: JvmId)
    requires Inv(w) && j in w.jvms && s != Boot(j) && s != Halt(j) && Next(FileThenPermit, w, s).Some?
    ensures var w', own := Next(FileThenPermit, w, s).value, s.Act? && s.j == j;
            && j in w'.jvms
            && w'.jvms[j].permits == w.jvms[j].permits - (if own && s.action.Acquire? then 1 else 0)
                                   + (if own && s.action.ReleasePermit? then 1 else 0)
            && w'.jvms[j].lost == w.jvms[j].lost + if own && Failing(s.action) then 1 else 0
  {
    if s.Act? && s.j == j {
      assert JvmOk(w.jvms[j]);
      PerformCounts(w.jvms[j], w.files, j, s.t, s.action);
    }
  }

  lemma FailedStep(run: seq<Step>, j: JvmId)
    requires run != []
    ensures var s := run[|run| - 1];
            Failed(run, j) <==>
            (s.Act? && s.j == j && Failing(s.action)) || (s != Boot(j) && Failed(run[..|run| - 1], j))
  {
    var n, before := |run| - 1, run[..|run| - 1];
    if FailedAt(run, j, n) {
      assert Failed(run, j);
    }
    if run[n] != Boot(j) {
      forall i | 0 <= i < n ensures FailedAt(run, j, i) <==> FailedAt(before, j, i) {
      }
    } else {
      forall i | 0 <= i < n ensures !FailedAt(run, j, i) {
        assert run[n] == Boot(j);
      }
    }
  }

  /** The last step of a run. */
  lemma LastOf(run: seq<Step>, w': World) returns (w: World)
    requires run != [] && Play(FileThenPermit, START, run) == Some(w')
    ensures Play(FileThenPermit, START, run[..|run| - 1]) == Some(w)
    ensures Next(FileThenPermit, w, run[|run| - 1]) == Some(w')
  {
    var before, s := run[..|run| - 1], run[|run| - 1];
    assert run == before + [s];
    PlayAppend(FileThenPermit, START, before, [s]);
    w := Play(FileThenPermit, START, before).value;
    assert [s][1..] == [];
  }

  /** In every run: the free permits of a JVM are one less the balance of its steps since it was
      started, and a permit is lost exactly if one of its calls has failed after `acquire`. */
  lemma {:induction false} PermitsBySteps(run: seq<Step>, w: World, j: JvmId)
    requires Play(FileThenPermit, START, run) == Some(w) && j in w.jvms
    ensures w.jvms[j].permits == 1 - Balance(run, j)
    ensures w.jvms[j].lost > 0 <==> Failed(run, j)
    decreases |run|
  {
    if run != [] {
      var before, s := run[..|run| - 1], run[|run| - 1];
      var v := LastOf(run, w);
      FailedStep(run, j);
      if s != Boot(j) {
        RunKeepsInv(START, before);
        assert j in v.jvms && s != Halt(j);
        PermitsBySteps(before, v, j);
        StepCounts(v, s, j);
      }
    }
  }

  /** In every run: no thread of a running JVM can get past `acquire` any more, whatever is done short
      of a restart, if and only if one of its calls has failed after `acquire` since it was started. */
  lemma ShutOutBySteps(run: seq<Step>, w: World, j: JvmId)
    requires Play(FileThenPermit, START, run) == Some(w) && j in w.jvms
    ensures ShutOut(w, j) <==> Failed(run, j)
  {
    PermitsBySteps(run, w, j);
    ShutOutIff(run, w, j);
  }

  /** The ways in which a call can fail where it is, or end having failed before. */
  predicate CanFail(c: Call, action: Action) {
    match c.pc
    case Locking => action.Interrupt?
    case HasPermit => action.OpenFails?
    case HasFile => action.LockFails?
    case Finally => if c.locked then action.ReleaseFails? else action.NotLocked?
    case _ => false
  }

  lemma PerformFails(m: Jvm, files: map<string, JvmId>, j: JvmId, t: ThreadId, action: Action)
    requires t in m.calls && Coherent(m.calls[t]) && CanFail(m.calls[t], action)
    ensures Perform(FileThenPermit, m, files, j, t, action).Some?
  {
  }

  /** Waiting for a permit can be interrupted, and opening the file, taking its lock and releasing it
      can each fail; a call that has failed before it took the file lock can always end. */
  lemma FailuresPossible(run: seq<Step>, w: World, j: JvmId, t: ThreadId, action: Action)
    requires Play(FileThenPermit, START, run) == Some(w) && j in w.jvms && t in w.jvms[j].calls
    requires CanFail(w.jvms[j].calls[t], action)
    ensures Next(FileThenPermit, w, Act(j, t, action)).Some?
  {
    RunKeepsInv(START, run);
    assert JvmOk(w.jvms[j]);
    PerformFails(w.jvms[j], w.files, j, t, action);
  }

  /** Thread `t` of JVM `j` has begun a call, and neither the call nor the JVM has ended since. */
  predicate InProgress(run: seq<Step>, j: JvmId, t: ThreadId) {
    run != [] &&
    var s := run[|run| - 1];
    if s == Boot(j) || s == Halt(j) then false
    else if s.Enter? && s.j == j && s.t == t then true
    else if s.Act? && s.j == j && s.t == t && Ending(s.action) then false
    else InProgress(run[..|run| - 1], j, t)
  }

  predicate Ending(action: Action) {
    action.NotLocked? || action.ReleasePermit? || action.ReleaseFails?
  }

  lemma PerformCalls(m: Jvm, files: map<string, JvmId>, j: JvmId, t: ThreadId, action: Action, u: ThreadId)
    requires t in m.calls && Coherent(m.calls[t]) && Perform(FileThenPermit, m, files, j, t, action).Some?
    ensures u in Perform(FileThenPermit, m, files, j, t, action).value.0.calls <==>
            u in m.calls && !(u == t && Ending(action))
  {
  }

  /** In every run: the calls in progress are those that the steps say. */
  lemma {:induction false} CallsBySteps(run: seq<Step>, w: World, j: JvmId, t: ThreadId)
    requires Play(FileThenPermit, START, run) == Some(w)
    ensures j in w.jvms && t in w.jvms[j].calls <==> InProgress(run, j, t)
    decreases |run|
  {
    if run != [] {
      var before, s := run[..|run| - 1], run[|run| - 1];
      var v := LastOf(run, w);
      CallsBySteps(before, v, j, t);
      if s.Act? && s.j == j {
        RunKeepsInv(START, before);
        assert JvmOk(v.jvms[j]);
        PerformCalls(v.jvms[j], v.files, j, s.t, s.action, t);
      }
    }
  }

  /** The name under which thread `t` of JVM `j` last called. */
  function NameOf(run: seq<Step>, j: JvmId, t: ThreadId): string {
    if run == [] then ""
    else
      var s := run[|run| - 1];
      if s.Enter? && s.j == j && s.t == t then s.name else NameOf(run[..|run| - 1], j, t)
  }

  /** The JVM that took the lock on file `n` and has neither released it nor been halted since. */
  function Holder(run: seq<Step>, n: string): Option<JvmId> {
    if run == [] then None
    else
      var before, s := run[..|run| - 1], run[|run| - 1];
      if s.Act? && NameOf(before, s.j, s.t) == n && s.action.LockFile? then Some(s.j)
      else if s.Act? && NameOf(before, s.j, s.t) == n && Frees(s.action) then None
      else if s.Halt? && Holder(before, n) == Some(s.j) then None
      else Holder(before, n)
  }

  ghost predicate NamesTold(run: seq<Step>, w: World) {
    forall j, t :: j in w.jvms && t in w.jvms[j].calls ==> w.jvms[j].calls[t].name == NameOf(run, j, t)
  }

  lemma {:induction false} NamesBySteps(run: seq<Step>, w: World)
    requires Play(FileThenPermit, START, run) == Some(w)
    ensures NamesTold(run, w)
    decreases |run|
  {
    if run != [] {
      var v := LastOf(run, w);
      NamesBySteps(run[..|run| - 1], v);
      forall j, t | j in w.jvms && t in w.jvms[j].calls
        ensures w.jvms[j].calls[t].name == NameOf(run, j, t)
      {
        NameKept(v, run[|run| - 1], w, j, t);
      }
    }
  }

  lemma PerformNames(m: Jvm, files: map<string, JvmId>, j: JvmId, t: ThreadId, action: Action, u: ThreadId)
    requires t in m.calls && Perform(FileThenPermit, m, files, j, t, action).Some?
    requires u in Perform(FileThenPermit, m, files, j, t, action).value.0.calls
    ensures u in m.calls && Perform(FileThenPermit, m, files, j, t, action).value.0.calls[u].name == m.calls[u].name
  {
  }

  lemma NameKept(v: World, s: Step, w: World, j: JvmId, t: ThreadId)
    requires Next(FileThenPermit, v, s) == Some(w) && j in w.jvms && t in w.jvms[j].calls
    ensures if s.Enter? && s.j == j && s.t == t then w.jvms[j].calls[t].name == s.name
            else j in v.jvms && t in v.jvms[j].calls && v.jvms[j].calls[t].name == w.jvms[j].calls[t].name
  {
    if s.Act? && s.j == j {
      PerformNames(v.jvms[j], v.files, j, s.t, s.action, t);
    }
  }

  function HolderIn(files: map<string, JvmId>, n: string): Option<JvmId> {
    if n in files then Some(files[n]) else None
  }

  predicate Frees(action: Action) {
    action.ReleaseFile? || action == ReleaseFails(true)
  }

  lemma PerformFiles(m: Jvm, files: map<string, JvmId>, j: JvmId, t: ThreadId, action: Action, n: string)
    requires t in m.calls && Coherent(m.calls[t]) && Perform(FileThenPermit, m, files, j, t, action).Some?
    ensures var own := m.calls[t].name == n;
            HolderIn(Perform(FileThenPermit, m, files, j, t, action).value.1, n) ==
            if own && action.LockFile? then Some(j)
            else if own && Frees(action) then None
            else HolderIn(files, n)
  {
  }

  /** In every run: the system holds exactly the file locks that the steps say, for the JVMs they say. */
  lemma {:induction false} FilesBySteps(run: seq<Step>, w: World, n: string)
    requires Play(FileThenPermit, START, run) == Some(w)
    ensures HolderIn(w.files, n) == Holder(run, n)
    decreases |run|
  {
    if run != [] {
      var before, s := run[..|run| - 1], run[|run| - 1];
      var v := LastOf(run, w);
      FilesBySteps(before, v, n);
      if s.Act? {
        RunKeepsInv(START, before);
        assert JvmOk(v.jvms[s.j]);
        NamesBySteps(before, v);
        PerformFiles(v.jvms[s.j], v.files, s.j, s.t, s.action, n);
      }
    }
  }
}
