/** The retrying log batcher: lines are buffered, posted in batches, and kept for the next
  batch when a post is rejected.

  Whether the server accepts a post and what the clock shows are inputs.
 */
module LogAppender {
  datatype Entry = Entry(time: real, line: string)

  /** An accepted post: entries kept from rejected posts, which arrived first, and entries that
      came after them. */
  datatype Batch = Batch(retried: seq<Entry>, recent: seq<Entry>)

  datatype Log = Log(buf: seq<Entry>, retrybuf: seq<Entry>, accepted: seq<Batch>)

  const EMPTY := Log([], [], [])

  /** What is posted: the recent entries come first. */
  function Posted(b: Batch): seq<Entry> {
    b.recent + b.retried
  }

  function InArrivalOrder(b: Batch): seq<Entry> {
    b.retried + b.recent
  }

  function Submitted(log: Log, accept: bool): Log {
    if |log.buf| + |log.retrybuf| == 0 then log
    else if accept then Log([], [], log.accepted + [Batch(log.retrybuf, log.buf)])
    else Log([], log.retrybuf + log.buf, log.accepted)
  }

  /** A line arrives, or a submit is called from outside.  `due` tells whether the arrival makes a
      post fall due, `accept` what becomes of a post if there is one. */
  datatype Event = Arrive(entry: Entry, due: bool, accept: bool) | Submit(accept: bool)

  function Handle(log: Log, e: Event): Log {
    match e
    case Arrive(entry, due, accept) =>
      var l := log.(buf := log.buf + [entry]);
      if due then Submitted(l, accept) else l
    case Submit(accept) => Submitted(log, accept)
  }

  function History(events: seq<Event>, n: nat): Log
    requires n <= |events|
  {
    if n == 0 then EMPTY else Handle(History(events, n - 1), events[n - 1])
  }

  // ------------------------------------------------------------------- conservation

  /** The lines that arrived, in order. */
  function Input(events: seq<Event>, n: nat): seq<Entry>
    requires n <= |events|
  {
    if n == 0 then []
    else Input(events, n - 1) + if events[n - 1].Arrive? then [events[n - 1].entry] else []
  }

  /** The lines of the accepted batches, as they arrived and as they were posted. */
  function Arrived(bs: seq<Batch>, n: nat): seq<Entry>
    requires n <= |bs|
  {
    if n == 0 then [] else Arrived(bs, n - 1) + InArrivalOrder(bs[n - 1])
  }

  function Delivered(bs: seq<Batch>, n: nat): (s: seq<Entry>)
    requires n <= |bs|
  {
    if n == 0 then [] else Delivered(bs, n - 1) + Posted(bs[n - 1])
  }

  lemma {:induction false} ArrivedPrefix(bs: seq<Batch>, cs: seq<Batch>, n: nat)
    requires n <= |bs| && bs <= cs
    ensures Arrived(cs, n) == Arrived(bs, n)
  {
    if n > 0 {
      ArrivedPrefix(bs, cs, n - 1);
    }
  }

  /** Everything that arrived, in order: accepted, kept for retry, or still buffered. */
  function Account(log: Log): seq<Entry> {
    Arrived(log.accepted, |log.accepted|) + log.retrybuf + log.buf
  }

  lemma SubmitConserves(log: Log, accept: bool)
    ensures Account(Submitted(log, accept)) == Account(log)
  {
    var after := Submitted(log, accept);
    ArrivedPrefix(log.accepted, after.accepted, |log.accepted|);
  }

  /** Over every history the accepted batches tile the input from its start, and the rest of the
      input is in the retry buffer and the buffer, in that order. */
  lemma {:induction false} Conserved(events: seq<Event>, n: nat)
    requires n <= |events|
    ensures Account(History(events, n)) == Input(events, n)
  {
    if n > 0 {
      Conserved(events, n - 1);
      var log, e := History(events, n - 1), events[n - 1];
      match e {
        case Arrive(entry, due, accept) =>
          var l := log.(buf := log.buf + [entry]);
          assert Account(l) == Account(log) + [entry];
          SubmitConserves(l, accept);
        case Submit(accept) =>
          SubmitConserves(log, accept);
      }
    }
  }

  /** Each line of an accepted batch is posted once: what is posted is the batch turned round. */
  lemma {:induction false} DeliveredOnce(bs: seq<Batch>, n: nat)
    requires n <= |bs|
    ensures multiset(Delivered(bs, n)) == multiset(Arrived(bs, n))
    ensures |Delivered(bs, n)| == |Arrived(bs, n)|
  {
    if n > 0 {
      DeliveredOnce(bs, n - 1);
    }
  }

  /** Nothing is posted when nothing is outstanding, and a post leaves nothing in the buffer. */
  lemma {:induction false} NoEmptyPost(events: seq<Event>, n: nat)
    requires n <= |events|
    ensures forall b :: b in History(events, n).accepted ==> b.retried + b.recent != []
    ensures n > 0 && Posts(events[n - 1]) ==> History(events, n).buf == []
    ensures n > 0 && Accepted(events[n - 1]) ==> History(events, n).retrybuf == []
  {
    if n > 0 {
      NoEmptyPost(events, n - 1);
    }
  }

  // -------------------------------------------------------------------------- order

  /** If no post is rejected nothing is kept for retry. */
  lemma {:induction false} NeverRejected(events: seq<Event>, n: nat)
    requires n <= |events| && forall i :: 0 <= i < n ==> events[i].accept
    ensures History(events, n).retrybuf == []
    ensures forall b :: b in History(events, n).accepted ==> b.retried == []
  {
    if n > 0 {
      NeverRejected(events, n - 1);
    }
  }

  ghost predicate Distinct(s: seq<Entry>) {
    forall i, j :: 0 <= i < j < |s| ==> s[i] != s[j]
  }

  /** A post mixes old and new lines: it is made with both buffers filled. */
  predicate Mixed(b: Batch) {
    b.retried != [] && b.recent != []
  }

  ghost predicate SomeMixed(bs: seq<Batch>, n: nat)
    requires n <= |bs|
  {
    exists i :: 0 <= i < n && Mixed(bs[i])
  }

  /** Whatever went before, a mixed batch is delivered out of order. */
  lemma MixedTurns(d: seq<Entry>, a: seq<Entry>, b: Batch)
    requires |d| == |a| && Mixed(b) && Distinct(a + InArrivalOrder(b))
    ensures d + Posted(b) != a + InArrivalOrder(b)
  {
    var whole, k := a + InArrivalOrder(b), |a|;
    assert whole[k] == b.retried[0] && whole[k + |b.retried|] == b.recent[0];
    assert (d + Posted(b))[k] == b.recent[0];
  }

  lemma DistinctFront(a: seq<Entry>, b: seq<Entry>)
    requires Distinct(a + b)
    ensures Distinct(a)
  {
    forall i, j | 0 <= i < j < |a| ensures a[i] != a[j] {
      assert (a + b)[i] == a[i] && (a + b)[j] == a[j];
    }
  }

  /** What is delivered is in arrival order if no accepted post was made with both buffers filled,
      and for distinct entries only then. */
  lemma {:induction false} InOrderIff(bs: seq<Batch>, n: nat)
    requires n <= |bs|
    ensures !SomeMixed(bs, n) ==> Delivered(bs, n) == Arrived(bs, n)
    ensures Distinct(Arrived(bs, n)) && SomeMixed(bs, n) ==> Delivered(bs, n) != Arrived(bs, n)
  {
    if n > 0 {
      var b, d, a := bs[n - 1], Delivered(bs, n - 1), Arrived(bs, n - 1);
      InOrderIff(bs, n - 1);
      DeliveredOnce(bs, n - 1);
      if Distinct(a + InArrivalOrder(b)) {
        DistinctFront(a, InArrivalOrder(b));
        if Mixed(b) {
          MixedTurns(d, a, b);
        }
      }
      if !Mixed(b) {
        assert Posted(b) == InArrivalOrder(b);
        assert (d + Posted(b))[..|d|] == d && (a + InArrivalOrder(b))[..|a|] == a;
        assert SomeMixed(bs, n) ==> SomeMixed(bs, n - 1);
      }
    }
  }

  // ------------------------------------------------------------ order, by the events

  /** The event calls for a post; with nothing outstanding none is made. */
  predicate Posts(e: Event) {
    e.Submit? || e.due
  }

  predicate Accepted(e: Event) {
    Posts(e) && e.accept
  }

  /** Line `a` was rejected at `r`, and nothing has been accepted from its arrival up to `n`. */
  predicate Kept(events: seq<Event>, a: nat, r: nat, n: nat)
    requires n <= |events|
  {
    && a <= r < n && events[a].Arrive? && Posts(events[r]) && !Accepted(events[r])
    && forall k :: a <= k < n ==> !Accepted(events[k])
  }

  /** Line `b` has arrived and no post has been made from its arrival up to `n`. */
  predicate Waits(events: seq<Event>, b: nat, n: nat)
    requires n <= |events|
  {
    b < n && events[b].Arrive? && forall k :: b <= k < n ==> !Posts(events[k])
  }

  /** Event `i` delivers line `b` before line `a`, which arrived earlier and was rejected at `r`. */
  predicate Overtakes(events: seq<Event>, a: nat, r: nat, b: nat, i: nat) {
    && i < |events| && Accepted(events[i])
    && Kept(events, a, r, i)
    && r < b && (Waits(events, b, i) || (b == i && events[i].Arrive?))
  }

  ghost predicate SomeOvertakes(events: seq<Event>, n: nat) {
    exists a: nat, r: nat, b: nat, i: nat :: i < n && Overtakes(events, a, r, b, i)
  }

  lemma {:induction false} RetryIff(events: seq<Event>, n: nat)
    requires n <= |events|
    ensures History(events, n).retrybuf != [] <==> exists a: nat, r: nat :: Kept(events, a, r, n)
  {
    if n > 0 {
      var m, e := n - 1, events[n - 1];
      RetryIff(events, m);
      BufferIff(events, m);
      if a: nat, r: nat :| Kept(events, a, r, m) && !Accepted(e) {
        assert Kept(events, a, r, n);
      }
      if Posts(e) && !Accepted(e) {
        if b: nat :| Waits(events, b, m) {
          assert Kept(events, b, m, n);
        }
        if e.Arrive? {
          assert Kept(events, m, m, n);
        }
      }
      if a: nat, r: nat :| Kept(events, a, r, n) {
        RejectedStays(events, a, r, n);
      }
    }
  }

  /** From its rejection on and until a post is accepted, there is something to retry. */
  lemma {:induction false} RejectedStays(events: seq<Event>, a: nat, r: nat, n: nat)
    requires n <= |events| && Kept(events, a, r, n)
    ensures History(events, n).retrybuf != []
    decreases n
  {
    if r < n - 1 {
      RejectedStays(events, a, r, n - 1);
    } else {
      Outstanding(events, a, n);
    }
  }

  /** A line that has not been accepted is outstanding. */
  lemma {:induction false} Outstanding(events: seq<Event>, a: nat, n: nat)
    requires a < n <= |events| && events[a].Arrive? && forall k :: a <= k < n ==> !Accepted(events[k])
    ensures History(events, n).buf + History(events, n).retrybuf != []
    decreases n
  {
    if a < n - 1 {
      Outstanding(events, a, n - 1);
    }
  }

  lemma {:induction false} BufferIff(events: seq<Event>, n: nat)
    requires n <= |events|
    ensures History(events, n).buf != [] <==> exists b: nat :: Waits(events, b, n)
  {
    if n > 0 {
      var m, e := n - 1, events[n - 1];
      BufferIff(events, m);
      if !Posts(e) {
        if b: nat :| Waits(events, b, m) {
          assert Waits(events, b, n);
        }
        if e.Arrive? {
          assert Waits(events, m, n);
        }
        if b: nat :| Waits(events, b, n) && b < m {
          assert Waits(events, b, m);
        }
      }
    }
  }

  /** A post is accepted with both buffers filled exactly when it makes a line overtake another. */
  lemma MixedIff(events: seq<Event>, i: nat)
    requires i < |events| && Accepted(events[i])
    ensures var log, e := History(events, i), events[i];
            log.retrybuf != [] && (log.buf != [] || e.Arrive?) <==> exists a: nat, r: nat, b: nat :: Overtakes(events, a, r, b, i)
  {
    RetryIff(events, i);
    BufferIff(events, i);
    if a: nat, r: nat :| Kept(events, a, r, i) {
      if b: nat :| Waits(events, b, i) {
        assert Overtakes(events, a, r, b, i);
      }
      if events[i].Arrive? {
        assert Overtakes(events, a, r, i, i);
      }
    }
  }

  lemma {:induction false} SomeMixedIff(events: seq<Event>, n: nat)
    requires n <= |events|
    ensures var bs := History(events, n).accepted; SomeMixed(bs, |bs|) <==> SomeOvertakes(events, n)
  {
    if n > 0 {
      var m, bs := n - 1, History(events, n).accepted;
      var was := History(events, m).accepted;
      SomeMixedIff(events, m);
      if Accepted(events[m]) {
        MixedIff(events, m);
        if a: nat, r: nat, b: nat :| Overtakes(events, a, r, b, m) {
          assert Mixed(bs[|bs| - 1]);
        }
      }
      if i :| 0 <= i < |was| && Mixed(was[i]) {
        assert Mixed(bs[i]);
      }
      if i :| 0 <= i < |bs| && Mixed(bs[i]) {
        assert i < |was| ==> Mixed(was[i]);
      }
    }
  }

  /** Over every history: the lines delivered are a prefix of the input if no line overtakes another,
      and for distinct entries only then.  A line overtakes if it arrives after an earlier line was
      rejected, nothing has been accepted since that line arrived, and the first post after it is
      accepted. */
  lemma HistoryInOrderIff(events: seq<Event>, n: nat)
    requires n <= |events|
    ensures var bs := History(events, n).accepted;
            && (!SomeOvertakes(events, n) ==> Delivered(bs, |bs|) <= Input(events, n))
            && (Distinct(Input(events, n)) && SomeOvertakes(events, n) ==> !(Delivered(bs, |bs|) <= Input(events, n)))
  {
    var log, input := History(events, n), Input(events, n);
    var bs := log.accepted;
    var a := Arrived(bs, |bs|);
    Conserved(events, n);
    assert input == a + (log.retrybuf + log.buf);
    assert a == input[..|a|];
    SomeMixedIff(events, n);
    InOrderIff(bs, |bs|);
    DeliveredOnce(bs, |bs|);
    if Delivered(bs, |bs|) <= input {
      assert Delivered(bs, |bs|) == input[..|a|];
    }
  }

  /** And it does happen: a rejected line is overtaken by the next one. */
  lemma Overtaken(first: Entry, second: Entry)
    ensures var events := [Arrive(first, true, false), Arrive(second, true, true)];
            var bs := History(events, 2).accepted;
            Delivered(bs, |bs|) == [second, first] && Input(events, 2) == [first, second]
  {
    var events := [Arrive(first, true, false), Arrive(second, true, true)];
    var rejected, both := Log([], [first], []), Log([], [], [Batch([first], [second])]);
    assert [] + [first] == [first] && [] + [second] == [second];
    assert Handle(EMPTY, events[0]) == Submitted(Log([first], [], []), false) == rejected;
    assert Handle(rejected, events[1]) == Submitted(Log([second], [first], []), true) == both;
    assert History(events, 1) == Handle(History(events, 0), events[0]);
    assert History(events, 2) == Handle(History(events, 1), events[1]);
    var bs := [Batch([first], [second])];
    assert Delivered(bs, 1) == Delivered(bs, 0) + Posted(bs[0]);
    assert Input(events, 1) == [first];
  }

  // ---------------------------------------------------------------------- the object

  class Appender {
    const sendAfterLines: int
    const sendAfterSeconds: real
    var buf: seq<Entry>
    var retrybuf: seq<Entry>
    var lastSent: real
    /** The posts accepted so far. */
    ghost var accepted: seq<Batch>

    ghost function Contents(): Log
      reads this
    {
      Log(buf, retrybuf, accepted)
    }

    predicate Idle()
      reads this
    {
      buf == [] && retrybuf == []
    }

    constructor (sendAfterLines: int, sendAfterSeconds: real, now: real)
      ensures Contents() == EMPTY && lastSent == now
      ensures this.sendAfterLines == sendAfterLines && this.sendAfterSeconds == sendAfterSeconds
    {
      this.sendAfterLines, this.sendAfterSeconds := sendAfterLines, sendAfterSeconds;
      buf, retrybuf, lastSent, accepted := [], [], now, [];
    }

    /** A line arrives; the clock is read for its entry, for the delay and for a post. */
    method Call(line: string, arrived: real, checked: real, now: real, accept: bool)
      modifies this
      ensures var due := |old(buf)| + 1 >= sendAfterLines || checked - old(lastSent) >= sendAfterSeconds;
              Contents() == Handle(old(Contents()), Arrive(Entry(arrived, line), due, accept))
      ensures |buf| < sendAfterLines || (sendAfterLines <= 0 && buf == [])
    {
      buf := buf + [Entry(arrived, line)];
      var delay := checked - lastSent;
      if |buf| >= sendAfterLines || delay >= sendAfterSeconds {
        var _ := Submit(now, accept);
      }
    }

    method Submit(now: real, accept: bool) returns (done: bool)
      modifies this
      ensures Contents() == Submitted(old(Contents()), accept)
      ensures done <==> accept || old(Idle())
      ensures Idle() <==> done
      ensures lastSent == if old(Idle()) then old(lastSent) else now
    {
      if |buf| + |retrybuf| == 0 {
        return true;
      }
      lastSent := now;
      if accept {
        accepted := accepted + [Batch(retrybuf, buf)];
        buf := [];
        retrybuf := [];
        return true;
      } else {
        retrybuf := retrybuf + buf;
        buf := [];
        return false;
      }
    }

    /** The loop at the end of a run: one submit, and one more for each of five tries.  It leaves
        nothing outstanding exactly when nothing was, or one of its attempts is accepted; and
        nothing is lost either way. */
    method Drain(clock: nat -> real, accept: nat -> bool) returns (attempts: nat)
      modifies this
      ensures Idle() <==> old(Idle()) || exists k: nat :: k < 6 && accept(k)
      ensures Account(Contents()) == Account(old(Contents()))
      ensures attempts <= 6
    {
      var tries := 5;
      attempts := 0;
      SubmitConserves(Contents(), accept(0));
      var done := Submit(clock(0), accept(0));
      attempts := 1;
      while !done && tries > 0
        invariant 0 <= tries <= 5 && attempts == 6 - tries
        invariant done <==> Idle()
        invariant done ==> old(Idle()) || accept(attempts - 1)
        invariant !done ==> !old(Idle()) && forall k: nat :: k < attempts ==> !accept(k)
        invariant Account(Contents()) == Account(old(Contents()))
      {
        tries := tries - 1;
        SubmitConserves(Contents(), accept(attempts));
        done := Submit(clock(attempts), accept(attempts));
        attempts := attempts + 1;
      }
    }
  }
}
