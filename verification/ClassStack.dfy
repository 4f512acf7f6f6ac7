/** The linter's guess at class nesting: a stack of open classes, each with one brace count.

  A line is reduced to what the tracking looks at: the name declared if the line begins with a
  class head, and its braces and semicolons from left to right.
 */
module ClassStack {
  import opened Wrappers

  datatype Mark = Open | Close | Semicolon

  datatype Line = Line(head: Option<string>, marks: seq<Mark>)

  datatype ClassInfo = ClassInfo(name: string, linenum: nat, seenOpenBrace: bool, braceDepth: int)

  function Weight(b: Mark): int {
    match b
    case Open => 1
    case Close => -1
    case Semicolon => 0
  }

  /** Opening minus closing braces among the first `n` marks. */
  function Net(w: seq<Mark>, n: nat): int
    requires n <= |w|
  {
    if n == 0 then 0 else Net(w, n - 1) + Weight(w[n - 1])
  }

  function Front<T>(s: seq<T>): seq<T>
    requires s != []
  {
    s[..|s| - 1]
  }

  function Last<T>(s: seq<T>): T
    requires s != []
  {
    s[|s| - 1]
  }

  // ---------------------------------------------------------------- the tracking

  function Pushed(stack: seq<ClassInfo>, line: Line, linenum: nat): seq<ClassInfo> {
    if line.head.Some? then stack + [ClassInfo(line.head.value, linenum, false, 0)] else stack
  }

  function Track(stack: seq<ClassInfo>, line: Line, linenum: nat): seq<ClassInfo> {
    var s := Pushed(stack, line, linenum);
    if s == [] then s
    else
      var c := Last(s);
      if !c.seenOpenBrace && Semicolon in line.marks then Front(s)
      else if !c.seenOpenBrace && Open !in line.marks then s
      else
        var depth := c.braceDepth + Net(line.marks, |line.marks|);
        if depth <= 0 then Front(s) else Front(s) + [c.(seenOpenBrace := true, braceDepth := depth)]
  }

  function TrackFile(lines: seq<Line>, n: nat): seq<ClassInfo>
    requires n <= |lines|
  {
    if n == 0 then [] else Track(TrackFile(lines, n - 1), lines[n - 1], n - 1)
  }

  class ClassState {
    var classinfoStack: seq<ClassInfo>
    /** The lines checked so far. */
    ghost var lines: seq<Line>

    ghost predicate Valid()
      reads this
    {
      classinfoStack == TrackFile(lines, |lines|)
    }

    constructor ()
      ensures classinfoStack == [] && lines == [] && Valid()
    {
      classinfoStack := [];
      lines := [];
    }

    /** Lines are numbered from zero as they come. */
    method CheckLine(line: Line, linenum: nat)
      requires Valid()
      modifies this
      ensures classinfoStack == Track(old(classinfoStack), line, linenum)
      ensures lines == old(lines) + [line] && (linenum == |old(lines)| ==> Valid())
    {
      NextLine(lines, line);
      lines := lines + [line];
      if line.head.Some? {
        classinfoStack := classinfoStack + [ClassInfo(line.head.value, linenum, false, 0)];
      }
      if classinfoStack == [] {
        return;
      }
      var classinfo := Last(classinfoStack);
      if !classinfo.seenOpenBrace {
        if Semicolon in line.marks {
          classinfoStack := Front(classinfoStack);
          return;
        }
        if Open !in line.marks {
          return;
        }
        classinfo := classinfo.(seenOpenBrace := true);
      }
      var opens, closes := CountBraces(line.marks);
      var braceDepth := classinfo.braceDepth + opens - closes;
      if braceDepth <= 0 {
        classinfoStack := Front(classinfoStack);
      } else {
        classinfoStack := Front(classinfoStack) + [classinfo.(braceDepth := braceDepth)];
      }
    }

    static method CountBraces(w: seq<Mark>) returns (opens: nat, closes: nat)
      ensures opens - closes == Net(w, |w|) && opens == multiset(w)[Open] && closes == multiset(w)[Close]
    {
      opens, closes := 0, 0;
      for i := 0 to |w|
        invariant opens - closes == Net(w, i) && opens == multiset(w[..i])[Open] && closes == multiset(w[..i])[Close]
      {
        assert w[..i + 1] == w[..i] + [w[i]];
        match w[i] {
          case Open => opens := opens + 1;
          case Close => closes := closes + 1;
          case Semicolon =>
        }
      }
      assert w[..|w|] == w;
    }

    /** The class reported as not completely parsed, if any: for an orderly file the outermost class
        whose brace is open or awaited. */
    method CheckFinished() returns (report: Option<ClassInfo>)
      requires Valid()
      ensures report.None? <==> classinfoStack == []
      ensures report.Some? ==> report.value == classinfoStack[0]
      ensures OrderlyFile(lines, |lines|) ==>
                var t := NestFile(lines, |lines|);
                && (report.Some? <==> OpenClasses(t.open) != [] || t.pending.Some?)
                && (report.Some? ==> Head(report.value.name, report.value.linenum) == Outermost(t))
    {
      assert OrderlyFile(lines, |lines|) ==> Complains(lines) by {
        if OrderlyFile(lines, |lines|) {
          ComplaintIff(lines);
        }
      }
      if classinfoStack != [] {
        return Some(classinfoStack[0]);
      }
      return None;
    }
  }

  lemma {:induction false} SamePrefix(lines: seq<Line>, line: Line, n: nat)
    requires n <= |lines|
    ensures TrackFile(lines + [line], n) == TrackFile(lines, n)
  {
    if n > 0 {
      SamePrefix(lines, line, n - 1);
      assert (lines + [line])[n - 1] == lines[n - 1];
    }
  }

  lemma NextLine(lines: seq<Line>, line: Line)
    ensures var more := lines + [line];
            TrackFile(more, |more|) == Track(TrackFile(lines, |lines|), line, |lines|)
  {
    var more := lines + [line];
    SamePrefix(lines, line, |lines|);
    assert more[|more| - 1] == line;
  }

  // ------------------------------------------------------------- the true nesting

  datatype Head = Head(name: string, linenum: nat)

  /** An open brace: the one of a class, or any other. */
  datatype Label = Plain | OfClass(head: Head)

  /** The open braces, the innermost at hand. */
  datatype Braces = Ground | Inside(brace: Label, outer: Braces)

  /** The open braces and the class head still waiting for its brace. */
  datatype Nesting = Nesting(open: Braces, pending: Option<Head>)

  const TOP := Nesting(Ground, None)

  /** An opening brace belongs to the waiting head.  A semicolon ends a head that has had no brace: it
      was a forward declaration. */
  function Enter(t: Nesting, b: Mark): Nesting {
    match b
    case Open =>
      var brace := if t.pending.Some? then OfClass(t.pending.value) else Plain;
      Nesting(Inside(brace, t.open), None)
    case Close => if t.open.Ground? then t else t.(open := t.open.outer)
    case Semicolon => t.(pending := None)
  }

  function EnterAll(t: Nesting, w: seq<Mark>, n: nat): Nesting
    requires n <= |w|
  {
    if n == 0 then t else Enter(EnterAll(t, w, n - 1), w[n - 1])
  }

  function Announce(t: Nesting, line: Line, linenum: nat): Nesting {
    if line.head.Some? then t.(pending := Some(Head(line.head.value, linenum))) else t
  }

  function NestLine(t: Nesting, line: Line, linenum: nat): Nesting {
    EnterAll(Announce(t, line, linenum), line.marks, |line.marks|)
  }

  function NestFile(lines: seq<Line>, n: nat): Nesting
    requires n <= |lines|
  {
    if n == 0 then TOP else NestLine(NestFile(lines, n - 1), lines[n - 1], n - 1)
  }

  // ------------------------------------------------------------- the encoding

  /** The entries for the open classes, the innermost at hand. */
  datatype Infos = NoClass | Innermost(info: ClassInfo, outer: Infos)

  function Listed(infos: Infos): seq<ClassInfo> {
    match infos
    case NoClass => []
    case Innermost(c, outer) => Listed(outer) + [c]
  }

  /** From the outermost class brace upward: one entry for each class brace, counting it and the
      plain braces up to the next class brace. */
  function RunLengths(open: Braces): Infos {
    match open
    case Ground => NoClass
    case Inside(OfClass(h), outer) => Innermost(ClassInfo(h.name, h.linenum, true, 1), RunLengths(outer))
    case Inside(Plain, outer) =>
      match RunLengths(outer)
      case NoClass => NoClass
      case Innermost(c, below) => Innermost(c.(braceDepth := c.braceDepth + 1), below)
  }

  /** The entries of `RunLengths`, and on top the class head still waiting. */
  function Code(t: Nesting): Infos {
    match t.pending
    case Some(h) => Innermost(ClassInfo(h.name, h.linenum, false, 0), RunLengths(t.open))
    case None => RunLengths(t.open)
  }

  function Encode(t: Nesting): seq<ClassInfo> {
    Listed(Code(t))
  }

  // ------------------------------------------------------- when the tracking is right

  /** Starting `d` braces deep, the first `m` braces of the line leave at least one open. */
  ghost predicate Above(w: seq<Mark>, d: int, m: nat)
    requires m <= |w|
  {
    d + Net(w, m) >= 1
  }

  ghost predicate AllAbove(w: seq<Mark>, d: int, k: nat, m: nat)
    requires m <= |w|
  {
    forall x {:trigger Above(w, d, x)} :: k <= x <= m ==> Above(w, d, x)
  }

  /** Where the first mark that is not a closing brace stands. */
  function FirstStop(w: seq<Mark>, k: nat): (p: nat)
    requires k <= |w|
    ensures k <= p <= |w| && (p < |w| ==> !w[p].Close?) && forall i :: k <= i < p ==> w[i].Close?
    decreases |w| - k
  {
    if k == |w| || !w[k].Close? then k else FirstStop(w, k + 1)
  }

  /** The line does not close the innermost class and closes as many braces as it opens.  Where
      there is no class, anything goes. */
  ghost predicate Undisturbed(w: seq<Mark>, infos: Infos) {
    infos.Innermost? ==> Net(w, |w|) == 0 && AllAbove(w, infos.info.braceDepth, 0, |w|)
  }

  predicate Waiting(t: Nesting, line: Line) {
    line.head.Some? || t.pending.Some?
  }

  /** A class head waits, announced on the line or before.  On a line without a semicolon that opens
      more braces than it closes, the line begins with the brace of that head and leaves it open.
      On every other line that brace is closed again, unless a semicolon comes before it or it is
      not opened, and the class around is undisturbed. */
  ghost predicate OrderlyWaiting(w: seq<Mark>, infos: Infos) {
    var p := FirstStop(w, 0);
    if Semicolon !in w && Net(w, |w|) >= 1 then
      p == 0 && AllAbove(w, 0, 1, |w|)
    else
      (p < |w| && w[p].Open? ==> !AllAbove(w, p, p + 1, |w|)) && Undisturbed(w, infos)
  }

  /** No class head waits.  The innermost class stays open throughout the line; or the line closes
      it and in the end has opened nothing instead, and the class around is at its old depth. */
  ghost predicate OrderlyPlain(w: seq<Mark>, infos: Infos) {
    infos.Innermost? ==>
      var d := infos.info.braceDepth;
      || AllAbove(w, d, 0, |w|)
      || (&& d + Net(w, |w|) <= 0
          && (infos.outer.Innermost? ==>
                d + Net(w, |w|) == 0 && AllAbove(w, d + infos.outer.info.braceDepth, 0, |w|)))
  }

  /** The exact condition on a line under which the tracking stays right.  No class head is met
      while another waits for its brace, and the braces are orderly. */
  ghost predicate Orderly(t: Nesting, line: Line) {
    && (line.head.Some? ==> t.pending.None?)
    && if Waiting(t, line) then OrderlyWaiting(line.marks, RunLengths(t.open))
       else OrderlyPlain(line.marks, RunLengths(t.open))
  }

  // ---------------------------------------------------------- proofs: stack and list

  /** `Track` with the top of the stack at hand. */
  function TrackTop(infos: Infos, line: Line): Infos {
    match infos
    case NoClass => NoClass
    case Innermost(c, outer) =>
      if !c.seenOpenBrace && Semicolon in line.marks then outer
      else if !c.seenOpenBrace && Open !in line.marks then infos
      else Counted(c.(seenOpenBrace := true), c.braceDepth + Net(line.marks, |line.marks|), outer)
  }

  function Push(infos: Infos, line: Line, linenum: nat): Infos {
    if line.head.Some? then Innermost(ClassInfo(line.head.value, linenum, false, 0), infos) else infos
  }

  /** The class `c` with count `d` is innermost, or has been closed. */
  function Counted(c: ClassInfo, d: int, below: Infos): Infos {
    if d <= 0 then below else Innermost(c.(braceDepth := d), below)
  }

  lemma ListedEnds(infos: Infos)
    requires infos.Innermost?
    ensures Listed(infos) != [] && Front(Listed(infos)) == Listed(infos.outer) && Last(Listed(infos)) == infos.info
  {
  }

  lemma {:induction false} ListedInjective(a: Infos, b: Infos)
    ensures Listed(a) == Listed(b) <==> a == b
  {
    if a.Innermost? && b.Innermost? {
      ListedEnds(a);
      ListedEnds(b);
      ListedInjective(a.outer, b.outer);
    }
  }

  lemma TrackListed(infos: Infos, line: Line, linenum: nat)
    ensures Track(Listed(infos), line, linenum) == Listed(TrackTop(Push(infos, line, linenum), line))
  {
    var pushed := Push(infos, line, linenum);
    assert Pushed(Listed(infos), line, linenum) == Listed(pushed);
    if pushed.Innermost? {
      ListedEnds(pushed);
    }
  }

  // ------------------------------------------------------- proofs: braces of a line

  lemma {:induction false} DepthPositive(open: Braces)
    ensures RunLengths(open).Innermost? ==>
              RunLengths(open).info.braceDepth >= 1 && RunLengths(open).info.seenOpenBrace
  {
    if open.Inside? {
      DepthPositive(open.outer);
    }
  }

  lemma {:induction false} DepthBelow(open: Braces)
    ensures var r := RunLengths(open);
            r.Innermost? && r.outer.Innermost? ==> r.outer.info.braceDepth >= 1 && r.outer.info.seenOpenBrace
  {
    if open.Inside? {
      DepthBelow(open.outer);
      DepthPositive(open.outer);
    }
  }

  function Size(infos: Infos): nat {
    if infos.NoClass? then 0 else Size(infos.outer) + 1
  }

  lemma BraceCounts(u: Nesting, b: Mark, c: ClassInfo, d: int, below: Infos)
    requires u.pending.None? && d >= 1 && RunLengths(u.open) == Counted(c, d, below)
    ensures var v := Enter(u, b);
            v.pending.None? && RunLengths(v.open) == Counted(c, d + Weight(b), below)
  {
    if u.open.Inside? {
      DepthPositive(u.open.outer);
    }
  }

  /** The first `k` braces of the line leave the class `c`, `d` deep at the start of the line, as
      the innermost one, or have just closed it. */
  ghost predicate At(u: Nesting, w: seq<Mark>, k: nat, c: ClassInfo, d: int, below: Infos)
    requires k <= |w|
  {
    EnterAll(u, w, k).pending.None? && RunLengths(EnterAll(u, w, k).open) == Counted(c, d + Net(w, k), below)
  }

  /** While the innermost class is not closed, its count follows the braces of the line; it may be
      closed by the last of them. */
  lemma {:induction false} CountFollows(u: Nesting, w: seq<Mark>, c: ClassInfo, d: int, below: Infos,
                                        k: nat, m: nat)
    requires k <= m <= |w| && forall x {:trigger Above(w, d, x)} :: k <= x < m ==> Above(w, d, x)
    requires At(u, w, k, c, d, below)
    ensures At(u, w, m, c, d, below)
    decreases m
  {
    if k < m {
      CountFollows(u, w, c, d, below, k, m - 1);
      assert Above(w, d, m - 1);
      BraceCounts(EnterAll(u, w, m - 1), w[m - 1], c, d + Net(w, m - 1), below);
    }
  }

  /** A class that does not stay open is closed by some brace, and then the one around it is
      innermost. */
  lemma {:induction false} Closes(u: Nesting, w: seq<Mark>, c: ClassInfo, d: int, below: Infos,
                                  k: nat, m: nat) returns (x: nat)
    requires k <= m <= |w| && Above(w, d, k) && !AllAbove(w, d, k, m)
    requires At(u, w, k, c, d, below)
    ensures k < x <= m && d + Net(w, x) == 0 && AllAbove(w, d, k, x - 1)
    ensures EnterAll(u, w, x).pending.None? && RunLengths(EnterAll(u, w, x).open) == below
  {
    x := k + 1;
    while Above(w, d, x)
      invariant k < x <= m && AllAbove(w, d, k, x - 1) && d + Net(w, x) >= 0
      decreases m - x
    {
      assert Net(w, x) == Net(w, x - 1) + Weight(w[x - 1]);
      assert x < m;
      x := x + 1;
      assert Net(w, x) == Net(w, x - 1) + Weight(w[x - 1]);
    }
    CountFollows(u, w, c, d, below, k, x);
  }

  lemma SizeStep(u: Nesting, b: Mark)
    requires u.pending.None?
    ensures Enter(u, b).pending.None? && Size(RunLengths(Enter(u, b).open)) <= Size(RunLengths(u.open))
  {
  }

  /** Without a waiting head a line opens no class. */
  lemma {:induction false} Shrinks(u: Nesting, w: seq<Mark>, k: nat, m: nat)
    requires k <= m <= |w| && EnterAll(u, w, k).pending.None?
    ensures EnterAll(u, w, m).pending.None?
    ensures Size(RunLengths(EnterAll(u, w, m).open)) <= Size(RunLengths(EnterAll(u, w, k).open))
    decreases m
  {
    if k < m {
      Shrinks(u, w, k, m - 1);
      SizeStep(EnterAll(u, w, m - 1), w[m - 1]);
    }
  }

  /** The rest of the line, from position `k` on, brings back the stack of classes `infos` exactly
      if there is no class in it, or the innermost one is not closed and ends at its depth. */
  lemma {:induction false} ReturnsIff(u: Nesting, w: seq<Mark>, k: nat, infos: Infos, d: int)
    requires k <= |w| && EnterAll(u, w, k).pending.None?
    requires infos.Innermost? ==> infos.info.braceDepth >= 1 && At(u, w, k, infos.info, d, infos.outer)
    requires infos.NoClass? ==> RunLengths(EnterAll(u, w, k).open).NoClass?
    ensures RunLengths(EnterAll(u, w, |w|).open) == infos <==>
            (infos.Innermost? ==> d + Net(w, |w|) == infos.info.braceDepth && AllAbove(w, d, k, |w|))
    decreases |w| - k
  {
    Shrinks(u, w, k, |w|);
    if infos.Innermost? {
      if AllAbove(w, d, k, |w|) {
        CountFollows(u, w, infos.info, d, infos.outer, k, |w|);
        assert Above(w, d, |w|);
      } else if Above(w, d, k) {
        var x := Closes(u, w, infos.info, d, infos.outer, k, |w|);
        Shrinks(u, w, x, |w|);
      }
    }
  }

  // ------------------------------------------------------ proofs: no head waits

  lemma PlainLineIff(t: Nesting, line: Line, linenum: nat)
    requires !Waiting(t, line)
    ensures TrackTop(Code(t), line) == Code(NestLine(t, line, linenum)) <==> OrderlyPlain(line.marks, RunLengths(t.open))
  {
    var w, r := line.marks, RunLengths(t.open);
    Shrinks(t, w, 0, |w|);
    if r.Innermost? {
      DepthPositive(t.open);
      PlainClassIff(t, w, r.info, r.outer);
    }
  }

  lemma PlainClassIff(t: Nesting, w: seq<Mark>, c: ClassInfo, below: Infos)
    requires t.pending.None? && RunLengths(t.open) == Innermost(c, below) && c.braceDepth >= 1
    ensures RunLengths(EnterAll(t, w, |w|).open) == Counted(c, c.braceDepth + Net(w, |w|), below) <==>
            OrderlyPlain(w, Innermost(c, below))
  {
    var d := c.braceDepth;
    assert Above(w, d, 0) && At(t, w, 0, c, d, below);
    if AllAbove(w, d, 0, |w|) {
      CountFollows(t, w, c, d, below, 0, |w|);
    } else {
      var x := Closes(t, w, c, d, below, 0, |w|);
      DepthPositive(EnterAll(t, w, x).open);
      Shrinks(t, w, x, |w|);
      var e := if below.Innermost? then d + below.info.braceDepth else 0;
      ReturnsIff(t, w, x, below, e);
      assert forall y {:trigger Above(w, e, y)} :: below.Innermost? && 0 <= y < x ==> Above(w, d, y) && Above(w, e, y);
    }
  }

  // ------------------------------------------------------ proofs: a head waits

  /** Closing braces only: the waiting head plays no part. */
  lemma {:induction false} OnlyCloses(u: Nesting, w: seq<Mark>, m: nat)
    requires m <= |w| && forall i :: 0 <= i < m ==> w[i].Close?
    ensures Net(w, m) + m == 0
    ensures EnterAll(u, w, m) == EnterAll(u.(pending := None), w, m).(pending := u.pending)
    ensures EnterAll(u.(pending := None), w, m).pending.None?
  {
    if m > 0 {
      OnlyCloses(u, w, m - 1);
    }
  }

  /** The brace of the waiting head is opened after `p` closing ones. */
  lemma HeadOpens(u: Nesting, w: seq<Mark>, p: nat)
    requires u.pending.Some? && p < |w| && w[p].Open? && forall i :: 0 <= i < p ==> w[i].Close?
    ensures var h, v := u.pending.value, u.(pending := None);
            At(u, w, p + 1, ClassInfo(h.name, h.linenum, true, 0), p, RunLengths(EnterAll(v, w, p).open))
    ensures Net(w, p) + p == 0 && Above(w, p, p + 1)
  {
    OnlyCloses(u, w, p);
    assert Net(w, p + 1) == 1 - p;
    assert EnterAll(u, w, p + 1) == Enter(EnterAll(u, w, p), w[p]);
  }

  /** The innermost class is closed among the first `p` braces. */
  lemma Gone(v: Nesting, w: seq<Mark>, p: nat, c: ClassInfo, below: Infos)
    requires p <= |w| && v.pending.None? && RunLengths(v.open) == Innermost(c, below)
    requires !AllAbove(w, c.braceDepth, 0, p)
    ensures Size(RunLengths(EnterAll(v, w, p).open)) <= Size(below)
  {
    DepthPositive(v.open);
    assert Above(w, c.braceDepth, 0);
    assert At(v, w, 0, c, c.braceDepth, below);
    var x := Closes(v, w, c, c.braceDepth, below, 0, p);
    Shrinks(v, w, x, p);
  }

  /** The class of the waiting head is opened and closed again. */
  lemma HeadClosedIff(u: Nesting, w: seq<Mark>, p: nat, infos: Infos)
    requires u.pending.Some? && p < |w| && w[p].Open? && forall i :: 0 <= i < p ==> w[i].Close?
    requires RunLengths(u.open) == infos && !AllAbove(w, p, p + 1, |w|)
    ensures EnterAll(u, w, |w|).pending.None?
    ensures var after := RunLengths(EnterAll(u, w, |w|).open);
            Size(after) <= Size(infos) && (after == infos <==> Undisturbed(w, infos))
  {
    var h, v := u.pending.value, u.(pending := None);
    var c, q := ClassInfo(h.name, h.linenum, true, 0), RunLengths(EnterAll(v, w, p).open);
    HeadOpens(u, w, p);
    var x := Closes(u, w, c, p, q, p + 1, |w|);
    Shrinks(u, w, x, |w|);
    assert EnterAll(v, w, 0) == v;
    Shrinks(v, w, 0, p);
    if infos.NoClass? {
      ReturnsIff(u, w, x, infos, 0);
    } else {
      DepthPositive(u.open);
      var d := infos.info.braceDepth;
      if !AllAbove(w, d, 0, p) {
        Gone(v, w, p, infos.info, infos.outer);
      } else {
        CountFollows(v, w, infos.info, d, infos.outer, 0, p);
        ReturnsIff(u, w, x, infos, d);
        forall y | p < y < x
          ensures Above(w, d, y)
        {
          assert Above(w, p, y) && Above(w, d, p);
        }
      }
    }
  }

  /** The class of the waiting head is opened and stays open. */
  lemma HeadStays(u: Nesting, w: seq<Mark>, p: nat, infos: Infos)
    requires u.pending.Some? && p < |w| && w[p].Open? && forall i :: 0 <= i < p ==> w[i].Close?
    requires RunLengths(u.open) == infos && AllAbove(w, p, p + 1, |w|)
    ensures EnterAll(u, w, |w|).pending.None?
    ensures var h, after := u.pending.value, RunLengths(EnterAll(u, w, |w|).open);
            && after.Innermost?
            && after.info == ClassInfo(h.name, h.linenum, true, p + Net(w, |w|))
            && (p == 0 ==> after.outer == infos)
  {
    var h, v := u.pending.value, u.(pending := None);
    HeadOpens(u, w, p);
    CountFollows(u, w, ClassInfo(h.name, h.linenum, true, 0), p, RunLengths(EnterAll(v, w, p).open), p + 1, |w|);
    assert Above(w, p, |w|);
  }

  /** All classes whose brace is open were announced before line `n`. */
  predicate Before(open: Braces, n: nat) {
    match open
    case Ground => true
    case Inside(Plain, outer) => Before(outer, n)
    case Inside(OfClass(h), outer) => h.linenum < n && Before(outer, n)
  }

  lemma {:induction false} InnermostBefore(open: Braces, n: nat)
    requires Before(open, n)
    ensures RunLengths(open).Innermost? ==> RunLengths(open).info.linenum < n
  {
    if open.Inside? {
      InnermostBefore(open.outer, n);
    }
  }

  lemma ReturnsFromStart(v: Nesting, w: seq<Mark>, infos: Infos)
    requires v.pending.None? && RunLengths(v.open) == infos
    ensures RunLengths(EnterAll(v, w, |w|).open) == infos <==> Undisturbed(w, infos)
  {
    DepthPositive(v.open);
    ReturnsIff(v, w, 0, infos, if infos.Innermost? then infos.info.braceDepth else 0);
  }

  /** A semicolon comes before any opening brace: the head was a forward declaration. */
  lemma {:induction false} HeadEnds(u: Nesting, w: seq<Mark>, p: nat, m: nat)
    requires p < m <= |w| && w[p].Semicolon? && forall i :: 0 <= i < p ==> w[i].Close?
    ensures EnterAll(u, w, m) == EnterAll(u.(pending := None), w, m)
    decreases m
  {
    if m == p + 1 {
      OnlyCloses(u, w, p);
    } else {
      HeadEnds(u, w, p, m - 1);
    }
  }

  /** A line for which a head waits. */
  lemma WaitingLineIff(u: Nesting, line: Line)
    requires u.pending.Some? && Before(u.open, u.pending.value.linenum)
    ensures TrackTop(Code(u), line) == Code(EnterAll(u, line.marks, |line.marks|)) <==>
            OrderlyWaiting(line.marks, RunLengths(u.open))
  {
    var w, r, v := line.marks, RunLengths(u.open), u.(pending := None);
    var p := FirstStop(w, 0);
    if p == |w| {
      OnlyCloses(u, w, p);
      ReturnsFromStart(v, w, r);
    } else if w[p].Semicolon? {
      assert Semicolon in w;
      HeadEnds(u, w, p, |w|);
      Shrinks(v, w, 0, |w|);
      ReturnsFromStart(v, w, r);
    } else {
      assert Open in w;
      if AllAbove(w, p, p + 1, |w|) {
        HeadStays(u, w, p, r);
        InnermostBefore(u.open, u.pending.value.linenum);
      } else {
        HeadClosedIff(u, w, p, r);
      }
    }
  }

  // ------------------------------------------------------------ proofs: any line

  /** A second head hides the first one, which has lost its brace for good. */
  lemma SecondHead(t: Nesting, line: Line, linenum: nat)
    requires t.pending.Some? && line.head.Some?
    ensures TrackTop(Push(Code(t), line, linenum), line) != Code(NestLine(t, line, linenum))
  {
    var after := NestLine(t, line, linenum);
    DepthPositive(after.open);
    DepthBelow(after.open);
    var u, w := Announce(t, line, linenum), line.marks;
    var p := FirstStop(w, 0);
    if p < |w| {
      assert EnterAll(u, w, p + 1).pending.None?;
      Shrinks(u, w, p + 1, |w|);
    } else {
      OnlyCloses(u, w, p);
    }
  }

  /** All classes open or waiting were announced before line `n`, the waiting one last. */
  predicate Dated(t: Nesting, n: nat) {
    && Before(t.open, n)
    && (t.pending.Some? ==> t.pending.value.linenum < n && Before(t.open, t.pending.value.linenum))
  }

  /** From a stack that is right, a line leads to a stack that is right if and only if it is
      orderly. */
  lemma LineInStepIff(t: Nesting, line: Line, linenum: nat)
    requires Dated(t, linenum)
    ensures Track(Encode(t), line, linenum) == Encode(NestLine(t, line, linenum)) <==> Orderly(t, line)
  {
    var after := NestLine(t, line, linenum);
    TrackListed(Code(t), line, linenum);
    ListedInjective(TrackTop(Push(Code(t), line, linenum), line), Code(after));
    if t.pending.Some? && line.head.Some? {
      SecondHead(t, line, linenum);
    } else if Waiting(t, line) {
      var u := Announce(t, line, linenum);
      assert Code(u) == Push(Code(t), line, linenum);
      WaitingLineIff(u, line);
    } else {
      PlainLineIff(t, line, linenum);
    }
  }

  lemma {:induction false} BeforeLater(open: Braces, n: nat, m: nat)
    requires Before(open, n) && n <= m
    ensures Before(open, m)
  {
    if open.Inside? {
      BeforeLater(open.outer, n, m);
    }
  }

  lemma {:induction false} EnterDated(u: Nesting, w: seq<Mark>, m: nat, n: nat)
    requires m <= |w| && Dated(u, n)
    ensures Dated(EnterAll(u, w, m), n)
  {
    if m > 0 {
      EnterDated(u, w, m - 1, n);
    }
  }

  lemma {:induction false} FileDated(lines: seq<Line>, n: nat)
    requires n <= |lines|
    ensures Dated(NestFile(lines, n), n)
  {
    if n > 0 {
      FileDated(lines, n - 1);
      var t, line := NestFile(lines, n - 1), lines[n - 1];
      BeforeLater(t.open, n - 1, n);
      EnterDated(Announce(t, line, n - 1), line.marks, |line.marks|, n);
    }
  }

  // ------------------------------------------------------------------ whole files

  ghost predicate OrderlyAt(lines: seq<Line>, i: nat)
    requires i < |lines|
  {
    Orderly(NestFile(lines, i), lines[i])
  }

  ghost predicate OrderlyFile(lines: seq<Line>, n: nat)
    requires n <= |lines|
  {
    forall i {:trigger OrderlyAt(lines, i)} :: 0 <= i < n ==> OrderlyAt(lines, i)
  }

  /** The stack before line `i` is the run-length code of the open braces from the outermost
      class brace upward. */
  ghost predicate RightAt(lines: seq<Line>, i: nat)
    requires i <= |lines|
  {
    TrackFile(lines, i) == Encode(NestFile(lines, i))
  }

  lemma NextRightIff(lines: seq<Line>, i: nat)
    requires i < |lines| && RightAt(lines, i)
    ensures RightAt(lines, i + 1) <==> OrderlyAt(lines, i)
  {
    FileDated(lines, i);
    LineInStepIff(NestFile(lines, i), lines[i], i);
  }

  /** The stack is right throughout the first `n` lines if and only if they are all orderly. */
  lemma {:induction false} AlwaysRightIff(lines: seq<Line>, n: nat)
    requires n <= |lines|
    ensures (forall i {:trigger RightAt(lines, i)} :: 0 <= i <= n ==> RightAt(lines, i)) <==> OrderlyFile(lines, n)
  {
    if n == 0 {
      assert RightAt(lines, 0);
    } else {
      AlwaysRightIff(lines, n - 1);
      if forall i {:trigger RightAt(lines, i)} :: 0 <= i <= n - 1 ==> RightAt(lines, i) {
        assert RightAt(lines, n - 1);
        NextRightIff(lines, n - 1);
        assert RightAt(lines, n) <==> OrderlyAt(lines, n - 1);
      }
    }
  }

  /** The plainest style: at most one brace on a line, and a class head either opens on its own
      line or is a forward declaration. */
  ghost predicate Simple(line: Line) {
    && (forall i, j :: 0 <= i < j < |line.marks| ==> line.marks[i].Semicolon? || line.marks[j].Semicolon?)
    && (line.head.Some? ==> line.marks == [Open] || line.marks == [Semicolon])
  }

  lemma {:induction false} OneBrace(w: seq<Mark>, i: nat, m: nat)
    requires i < |w| && m <= |w| && forall j :: 0 <= j < |w| && j != i ==> w[j].Semicolon?
    ensures Net(w, m) == if m <= i then 0 else Weight(w[i])
  {
    if m > 0 {
      OneBrace(w, i, m - 1);
    }
  }

  lemma SimplePlain(w: seq<Mark>, open: Braces)
    requires forall i, j :: 0 <= i < j < |w| ==> w[i].Semicolon? || w[j].Semicolon?
    ensures OrderlyPlain(w, RunLengths(open))
  {
    DepthPositive(open);
    DepthBelow(open);
    if w == [] {
      assert Net(w, 0) == 0;
    } else {
      var i := if exists j :: 0 <= j < |w| && !w[j].Semicolon? then
                 var j :| 0 <= j < |w| && !w[j].Semicolon?; j
               else 0;
      forall m | 0 <= m <= |w| ensures Net(w, m) == if m <= i then 0 else Weight(w[i]) {
        OneBrace(w, i, m);
      }
    }
  }

  lemma SimpleLine(t: Nesting, line: Line, linenum: nat)
    requires t.pending.None? && Simple(line)
    ensures Orderly(t, line) && NestLine(t, line, linenum).pending.None?
  {
    var w, u := line.marks, Announce(t, line, linenum);
    if line.head.Some? {
      assert Net(w, 0) == 0 && Net(w, 1) == Weight(w[0]);
      assert EnterAll(u, w, 0) == u && EnterAll(u, w, 1) == Enter(u, w[0]);
      DepthPositive(t.open);
    } else {
      SimplePlain(w, t.open);
      Shrinks(t, w, 0, |w|);
    }
  }

  lemma {:induction false} SimpleIsOrderly(lines: seq<Line>, n: nat)
    requires n <= |lines| && forall i :: 0 <= i < n ==> Simple(lines[i])
    ensures OrderlyFile(lines, n) && NestFile(lines, n).pending.None?
  {
    if n > 0 {
      SimpleIsOrderly(lines, n - 1);
      SimpleLine(NestFile(lines, n - 1), lines[n - 1], n - 1);
      assert OrderlyAt(lines, n - 1);
    }
  }

  // ------------------------------------------------------------- consequences

  /** The classes whose brace is open, outermost first. */
  function OpenClasses(open: Braces): seq<Head> {
    match open
    case Ground => []
    case Inside(OfClass(h), outer) => OpenClasses(outer) + [h]
    case Inside(Plain, outer) => OpenClasses(outer)
  }

  function Heads(infos: Infos): seq<Head> {
    match infos
    case NoClass => []
    case Innermost(c, outer) => Heads(outer) + [Head(c.name, c.linenum)]
  }

  lemma {:induction false} RunLengthsHeads(open: Braces)
    ensures Heads(RunLengths(open)) == OpenClasses(open)
  {
    if open.Inside? {
      RunLengthsHeads(open.outer);
    }
  }

  lemma {:induction false} ListedHeads(infos: Infos)
    ensures |Listed(infos)| == |Heads(infos)|
    ensures forall i :: 0 <= i < |Heads(infos)| ==>
              Head(Listed(infos)[i].name, Listed(infos)[i].linenum) == Heads(infos)[i]
  {
    if infos.Innermost? {
      ListedHeads(infos.outer);
    }
  }

  /** A class is on the stack exactly while its own brace is open or awaited, so it is popped by the
      line that closes that brace. */
  lemma StackHoldsOpenClasses(lines: seq<Line>, n: nat)
    requires n <= |lines| && OrderlyFile(lines, n)
    ensures var stack, t := TrackFile(lines, n), NestFile(lines, n);
            var heads := OpenClasses(t.open) + if t.pending.Some? then [t.pending.value] else [];
            |stack| == |heads| &&
            forall i :: 0 <= i < |heads| ==> Head(stack[i].name, stack[i].linenum) == heads[i]
  {
    AlwaysRightIff(lines, n);
    assert RightAt(lines, n);
    RunLengthsHeads(NestFile(lines, n).open);
    ListedHeads(RunLengths(NestFile(lines, n).open));
  }

  /** The outermost class whose brace is open, or else the one whose brace is awaited. */
  function Outermost(t: Nesting): Head
    requires OpenClasses(t.open) != [] || t.pending.Some?
  {
    if OpenClasses(t.open) != [] then OpenClasses(t.open)[0] else t.pending.value
  }

  /** There is a complaint exactly when a class brace is left open or a head still waits for its
      brace, and it names the outermost of them. */
  ghost predicate Complains(lines: seq<Line>) {
    var stack, t := TrackFile(lines, |lines|), NestFile(lines, |lines|);
    && (stack != [] <==> OpenClasses(t.open) != [] || t.pending.Some?)
    && (stack != [] ==> Head(stack[0].name, stack[0].linenum) == Outermost(t))
  }

  lemma ComplaintIff(lines: seq<Line>)
    requires OrderlyFile(lines, |lines|)
    ensures Complains(lines)
  {
    StackHoldsOpenClasses(lines, |lines|);
  }

  /** The style matters: a line that closes a class and then opens another brace always puts the
      stack out of step, because only the difference of the two counts is seen. */
  lemma ReopenedOnOneLine(t: Nesting, line: Line, linenum: nat)
    requires t.pending.None? && line.head.None? && line.marks == [Close, Open]
    requires t.open.Inside? && t.open.brace.OfClass?
    ensures Track(Encode(t), line, linenum) != Encode(NestLine(t, line, linenum))
  {
    var w, r, after := line.marks, RunLengths(t.open), RunLengths(Inside(Plain, t.open.outer));
    assert Net(w, 1) == -1;
    assert Net(w, 2) == 0;
    assert EnterAll(t, w, 0) == t;
    assert EnterAll(t, w, 1) == Nesting(t.open.outer, None);
    assert EnterAll(t, w, 2).open == Inside(Plain, t.open.outer);
    ListedEnds(r);
    var below := RunLengths(t.open.outer);
    if below.Innermost? {
      assert after.outer == below.outer;
      assert Listed(below) == Listed(below.outer) + [below.info];
    }
    assert |Listed(after)| == |Listed(r)| - 1;
  }
}
