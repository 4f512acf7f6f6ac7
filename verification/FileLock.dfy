/** The two-level lock around `Map.map`: a semaphore shared by the threads of one JVM and
  an operating-system lock on a file shared between JVMs.

  Each call constructs a fresh lock object, runs `lock()`, a body that may return or
  throw, and `unlock()` in a `finally` block.  Every line that touches shared state is one
  step of a transition system over any number of JVMs, threads and lock names.  Failures
  of `acquire`, of opening the file, of taking and of releasing the file lock are steps.
 */
module FileLock {
  import opened Wrappers

  type JvmId = nat
  type ThreadId = nat

  /** Where a call is.  `HasFile` is past the open; `Finally` is about to run `unlock()`. */
  datatype Pc = Locking | HasPermit | HasFile | Critical | Finally | FileReleased | PermitReleased

  /** A call in progress: its position, its lock object's name and whether `_lock` is set. */
  datatype Call = Call(pc: Pc, name: string, locked: bool)

  /** `lost` counts permits that failed calls took and will never give back. */
  datatype Jvm = Jvm(permits: int, lost: nat, calls: map<ThreadId, Call>)

  /** `files` maps a lock name to the JVM on whose behalf the system holds the file lock. */
  datatype World = World(jvms: map<JvmId, Jvm>, files: map<string, JvmId>)

  const START := World(map[], map[])

  /** `unlock()` releases the file and then the permit; the other order is there for comparison. */
  datatype Order = FileThenPermit | PermitThenFile

  datatype Action =
    | Refuse              // lock() on an object that is already locked
    | Acquire
    | Interrupt           // acquire() is interrupted
    | OpenFile
    | OpenFails
    | LockFile
    | Overlap             // this JVM already holds the file lock, or another of its threads waits for it
    | LockFails
    | LeaveBody           // the body returns or throws
    | NotLocked           // unlock() on an object that was never locked
    | ReleaseFile
    | ReleaseFails(dropped: bool)  // release() throws; the system may have dropped the lock or not
    | ReleasePermit

  datatype Step =
    | Boot(j: JvmId)
    | Halt(j: JvmId)
    | Enter(j: JvmId, t: ThreadId, name: string)
    | Act(j: JvmId, t: ThreadId, action: Action)

  function Move(m: Jvm, t: ThreadId, c: Call): Jvm {
    m.(calls := m.calls[t := c])
  }

  function Leave(m: Jvm, t: ThreadId): Jvm {
    m.(calls := m.calls - {t})
  }

  predicate Overlaps(m: Jvm, files: map<string, JvmId>, j: JvmId, t: ThreadId)
    requires t in m.calls
  {
    var name := m.calls[t].name;
    || (name in files && files[name] == j)
    || exists u :: u in m.calls && u != t && m.calls[u].pc.HasFile? && m.calls[u].name == name
  }

  /** One action of thread `t` of JVM `j`, or `None` where the thread cannot take it. */
  function Perform(order: Order, m: Jvm, files: map<string, JvmId>, j: JvmId, t: ThreadId, action: Action)
    : Option<(Jvm, map<string, JvmId>)>
    requires t in m.calls
  {
    var c := m.calls[t];
    match action
    case Refuse =>
      if c.pc.Locking? && c.locked then Some((Move(m, t, c.(pc := Finally)), files)) else None
    case Acquire =>
      if c.pc.Locking? && !c.locked && m.permits > 0 then
        Some((Move(m.(permits := m.permits - 1), t, c.(pc := HasPermit)), files))
      else None
    case Interrupt =>
      if c.pc.Locking? && !c.locked then Some((Move(m, t, c.(pc := Finally)), files)) else None
    case OpenFile =>
      if c.pc.HasPermit? then Some((Move(m, t, c.(pc := HasFile)), files)) else None
    case OpenFails =>
      if c.pc.HasPermit? then Some((Move(m.(lost := m.lost + 1), t, c.(pc := Finally)), files)) else None
    case LockFile =>
      if c.pc.HasFile? && c.name !in files then
        Some((Move(m, t, c.(pc := Critical, locked := true)), files[c.name := j]))
      else None
    case Overlap =>
      if c.pc.HasFile? && Overlaps(m, files, j, t) then
        Some((Move(m.(lost := m.lost + 1), t, c.(pc := Finally)), files))
      else None
    case LockFails =>
      if c.pc.HasFile? then Some((Move(m.(lost := m.lost + 1), t, c.(pc := Finally)), files)) else None
    case LeaveBody =>
      if c.pc.Critical? then Some((Move(m, t, c.(pc := Finally)), files)) else None
    case NotLocked =>
      if c.pc.Finally? && !c.locked then Some((Leave(m, t), files)) else None
    case ReleaseFile =>
      if order.FileThenPermit? && c.pc.Finally? && c.locked then
        Some((Move(m, t, c.(pc := FileReleased)), files - {c.name}))
      else if c.pc.PermitReleased? then
        Some((Leave(m, t), files - {c.name}))
      else None
    case ReleaseFails(dropped) =>
      var left := if dropped then files - {c.name} else files;
      if order.FileThenPermit? && c.pc.Finally? && c.locked then
        Some((Leave(m.(lost := m.lost + 1), t), left))
      else if c.pc.PermitReleased? then
        Some((Leave(m, t), left))
      else None
    case ReleasePermit =>
      if c.pc.FileReleased? then
        Some((Leave(m.(permits := m.permits + 1), t), files))
      else if order.PermitThenFile? && c.pc.Finally? && c.locked then
        Some((Move(m.(permits := m.permits + 1), t, c.(pc := PermitReleased)), files))
      else None
  }

  function Next(order: Order, w: World, s: Step): Option<World> {
    match s
    case Boot(j) =>
      if j in w.jvms then None else Some(w.(jvms := w.jvms[j := Jvm(1, 0, map[])]))
    case Halt(j) =>
      if j in w.jvms then
        Some(World(w.jvms - {j}, map n | n in w.files && w.files[n] != j :: w.files[n]))
      else None
    case Enter(j, t, name) =>
      if j in w.jvms && t !in w.jvms[j].calls then
        Some(w.(jvms := w.jvms[j := Move(w.jvms[j], t, Call(Locking, name, false))]))
      else None
    case Act(j, t, action) =>
      if j in w.jvms && t in w.jvms[j].calls then
        match Perform(order, w.jvms[j], w.files, j, t, action)
        case Some((m, files)) => Some(World(w.jvms[j := m], files))
        case None => None
      else None
  }

  /** The state after a whole run, or `None` if some step of it was not possible. */
  function Play(order: Order, w: World, run: seq<Step>): Option<World>
    decreases run
  {
    if run == [] then
      Some(w)
    else
      match Next(order, w, run[0])
      case None => None
      case Some(w') => Play(order, w', run[1..])
  }
}
