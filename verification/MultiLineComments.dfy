/** What the remover of multi-line comments sees of a file: for each line, whether it opens a
  comment that goes beyond it and whether it ends one. */
module CommentMarks {
  import opened Wrappers

  datatype Mark = Mark(starts: bool, ends: bool)

  /** The first line from `i` on that ends a comment, or the number of lines. */
  function EndFrom(m: seq<Mark>, i: nat): (e: nat)
    requires i <= |m|
    ensures i <= e <= |m|
    ensures e < |m| ==> m[e].ends
    ensures forall k :: i <= k < e ==> !m[k].ends
    decreases |m| - i
  {
    if i == |m| || m[i].ends then i else EndFrom(m, i + 1)
  }

  /** Reading line by line from `i`: line `k` lies in a comment that is closed. */
  predicate InComment(m: seq<Mark>, i: nat, k: nat)
    requires i <= |m|
    decreases |m| - i
  {
    if i == |m| || k < i then
      false
    else if m[i].starts then
      var e := EndFrom(m, i);
      e < |m| && (k <= e || InComment(m, e + 1, k))
    else
      InComment(m, i + 1, k)
  }

  /** Reading line by line from `i`: the line where a comment starts that is never closed. */
  function Unclosed(m: seq<Mark>, i: nat): (u: Option<nat>)
    requires i <= |m|
    ensures u.Some? ==> i <= u.value < |m|
    decreases |m| - i
  {
    if i == |m| then
      None
    else if m[i].starts then
      var e := EndFrom(m, i);
      if e == |m| then Some(i) else Unclosed(m, e + 1)
    else
      Unclosed(m, i + 1)
  }

  /** The reading from the first line passes through `i`. */
  ghost predicate ReadsAt(m: seq<Mark>, i: nat)
    requires i <= |m|
  {
    && Unclosed(m, 0) == Unclosed(m, i)
    && forall k :: i <= k < |m| ==> (InComment(m, 0, k) <==> InComment(m, i, k))
  }

  lemma {:induction false} SkipPlain(m: seq<Mark>, i: nat, b: nat)
    requires i <= b <= |m| && forall k :: i <= k < b ==> !m[k].starts
    ensures Unclosed(m, i) == Unclosed(m, b)
    ensures forall k :: i <= k < b ==> !InComment(m, i, k)
    ensures forall k :: b <= k < |m| ==> (InComment(m, i, k) <==> InComment(m, b, k))
    decreases b - i
  {
    if i < b {
      SkipPlain(m, i + 1, b);
    }
  }

  lemma EndFound(m: seq<Mark>, i: nat, e: nat)
    requires i <= e <= |m| && (e < |m| ==> m[e].ends) && forall k :: i <= k < e ==> !m[k].ends
    ensures EndFrom(m, i) == e
  {
  }

  lemma SkipComment(m: seq<Mark>, b: nat, e: nat)
    requires b <= e < |m| && ReadsAt(m, b) && m[b].starts && e == EndFrom(m, b)
    ensures ReadsAt(m, e + 1)
    ensures forall k :: b <= k <= e ==> InComment(m, 0, k)
  {
  }

  lemma Stop(m: seq<Mark>, b: nat)
    requires b < |m| && ReadsAt(m, b) && m[b].starts && EndFrom(m, b) == |m|
    ensures Unclosed(m, 0) == Some(b)
    ensures forall k :: b <= k < |m| ==> !InComment(m, 0, k)
  {
  }

  /** Every line in a comment is in a block that runs from a comment start to the first comment end
      after it, and all of that block is. */
  lemma {:induction false} BlockOf(m: seq<Mark>, i: nat, k: nat) returns (b: nat, e: nat)
    requires i <= |m| && ReadsAt(m, i) && InComment(m, i, k)
    ensures i <= b <= k <= e < |m| && m[b].starts && e == EndFrom(m, b)
    ensures forall j :: b <= j <= e ==> InComment(m, 0, j)
    decreases |m| - i
  {
    if !m[i].starts {
      b, e := BlockOf(m, i + 1, k);
    } else {
      b, e := i, EndFrom(m, i);
      SkipComment(m, b, e);
      if k > e {
        b, e := BlockOf(m, e + 1, k);
      }
    }
  }

  /** The marks once every line in a comment has become a line with neither mark. */
  function Blanked(m: seq<Mark>): seq<Mark> {
    seq(|m|, k requires 0 <= k < |m| => if InComment(m, 0, k) then Mark(false, false) else m[k])
  }

  /** Reading the blanked marks from `i`: nothing is in a comment, the comment left open is the same
      one, and a comment start can only be found from there on. */
  lemma {:induction false} ReadBlanked(m: seq<Mark>, i: nat)
    requires i <= |m| && ReadsAt(m, i)
    ensures Unclosed(Blanked(m), i) == Unclosed(m, i)
    ensures forall k :: i <= k < |m| ==> !InComment(Blanked(m), i, k)
    ensures forall k :: i <= k < |m| && Blanked(m)[k].starts ==> Unclosed(m, i).Some? && Unclosed(m, i).value <= k
    decreases |m| - i
  {
    var t := Blanked(m);
    if i < |m| {
      if !m[i].starts {
        assert ReadsAt(m, i + 1);
        ReadBlanked(m, i + 1);
      } else if EndFrom(m, i) == |m| {
        Stop(m, i);
        EndFound(t, i, |m|);
      } else {
        var e := EndFrom(m, i);
        SkipComment(m, i, e);
        ReadBlanked(m, e + 1);
        SkipPlain(t, i, e + 1);
      }
    }
  }

  /** From a comment that is never closed on, no line is in a comment or ends one. */
  lemma {:induction false} AfterUnclosed(m: seq<Mark>, i: nat)
    requires i <= |m| && ReadsAt(m, i) && Unclosed(m, i).Some?
    ensures var b := Unclosed(m, i).value;
            m[b].starts && forall k :: b <= k < |m| ==> !InComment(m, 0, k) && !m[k].ends
    decreases |m| - i
  {
    if !m[i].starts {
      AfterUnclosed(m, i + 1);
    } else if EndFrom(m, i) == |m| {
      Stop(m, i);
    } else {
      SkipComment(m, i, EndFrom(m, i));
      AfterUnclosed(m, EndFrom(m, i) + 1);
    }
  }
}

/** In-place removal of multi-line comments from the lines of a file. */
module MultiLineComments {
  import opened Wrappers
  import opened CommentMarks

  const DUMMY := "// dummy"

  predicate IsSpace(c: char) {
    || '\U{9}' <= c <= '\U{D}' || '\U{1C}' <= c <= '\U{20}' || c == '\U{85}' || c == '\U{A0}'
    || c == '\U{1680}' || c == '\U{180E}' || '\U{2000}' <= c <= '\U{200A}'
    || c == '\U{2028}' || c == '\U{2029}' || c == '\U{202F}' || c == '\U{205F}' || c == '\U{3000}'
  }

  function Strip(s: string): string {
    if s == "" then s
    else if IsSpace(s[0]) then Strip(s[1..])
    else if IsSpace(s[|s| - 1]) then Strip(s[..|s| - 1])
    else s
  }

  /** The line opens a comment that goes beyond it.  Only a closing mark from the third
      character on is looked for, so a line of just slash, star and slash opens a comment. */
  predicate Starts(line: string) {
    var t := Strip(line);
    && |t| >= 2 && t[0] == '/' && t[1] == '*'
    && forall k :: 2 <= k < |t| - 1 ==> !(t[k] == '*' && t[k + 1] == '/')
  }

  predicate Ends(line: string) {
    var t := Strip(line);
    |t| >= 2 && t[|t| - 2] == '*' && t[|t| - 1] == '/'
  }

  function Marks(s: seq<string>): seq<Mark> {
    seq(|s|, k requires 0 <= k < |s| => Mark(Starts(s[k]), Ends(s[k])))
  }

  function Clean(s: seq<string>): seq<string> {
    seq(|s|, k requires 0 <= k < |s| => if InComment(Marks(s), 0, k) then DUMMY else s[k])
  }

  /** The line number in the error report, counted from 1, if there is a report. */
  function Report(s: seq<string>): Option<nat> {
    match Unclosed(Marks(s), 0)
    case None => None
    case Some(b) => Some(b + 1)
  }

  // ------------------------------------------------------------------- properties

  /** `s[i..j]` is `s` without the white space at both ends. */
  ghost predicate IsStripped(s: string, i: nat, j: nat) {
    && i <= j <= |s|
    && (forall k :: 0 <= k < i ==> IsSpace(s[k])) && (forall k :: j <= k < |s| ==> IsSpace(s[k]))
    && (i < j ==> !IsSpace(s[i]) && !IsSpace(s[j - 1]))
  }

  lemma StripFirst(s: string, i: nat, j: nat)
    requires s != "" && IsSpace(s[0]) && IsStripped(s[1..], i, j)
    ensures IsStripped(s, i + 1, j + 1) && s[i + 1..j + 1] == s[1..][i..j]
  {
    var rest := s[1..];
    assert forall k :: 1 <= k < |s| ==> s[k] == rest[k - 1];
  }

  /** Stripping takes away exactly the white space at both ends. */
  lemma {:induction false} StripIs(s: string) returns (i: nat, j: nat)
    ensures IsStripped(s, i, j) && Strip(s) == s[i..j]
    decreases |s|
  {
    i, j := 0, |s|;
    if s != "" {
      if IsSpace(s[0]) {
        var a, b := StripIs(s[1..]);
        StripFirst(s, a, b);
        i, j := a + 1, b + 1;
      } else if IsSpace(s[|s| - 1]) {
        i, j := StripIs(s[..|s| - 1]);
      }
    }
  }

  /** For instance: what opens a comment that goes beyond its line, and what ends one. */
  lemma Examples()
    ensures Starts("/* a") && Starts("/*/") && !Starts("/* */") && !Starts("a /*")
    ensures Ends("a */") && Ends("/*/") && !Ends("*/ a") && DUMMY == "// dummy"
  {
    assert Strip("/* a") == "/* a" && Strip("/*/") == "/*/" && Strip("a /*") == "a /*";
    assert Strip("/* */") == "/* */" && Strip("a */") == "a */" && Strip("*/ a") == "*/ a";
    assert "/* */"[3] == '*' && "/* */"[4] == '/';
  }

  lemma DummyIsPlain()
    ensures !Starts(DUMMY) && !Ends(DUMMY)
  {
    assert Strip(DUMMY) == DUMMY;
  }

  lemma MarksOfClean(s: seq<string>)
    ensures Marks(Clean(s)) == Blanked(Marks(s))
  {
    DummyIsPlain();
    var m, t := Marks(s), Clean(s);
    forall k | 0 <= k < |s| ensures Marks(t)[k] == Blanked(m)[k] {
      assert t[k] == if InComment(m, 0, k) then DUMMY else s[k];
    }
  }

  /** Cleaning twice is cleaning once, with the same report, and if nothing is reported no line
      starts a multi-line comment any more. */
  lemma CleanTwice(s: seq<string>)
    ensures Clean(Clean(s)) == Clean(s) && Report(Clean(s)) == Report(s)
    ensures Report(s).None? ==> forall k :: 0 <= k < |s| ==> !Starts(Clean(s)[k])
  {
    MarksOfClean(s);
    ReadBlanked(Marks(s), 0);
    assert forall k :: 0 <= k < |s| ==> Marks(Clean(s))[k].starts == Starts(Clean(s)[k]);
  }

  /** Lines `b` to `e` are a comment, from its start to the first end after it, and all blanked. */
  ghost predicate CommentBlock(s: seq<string>, b: nat, e: nat) {
    && b <= e < |s| && Starts(s[b]) && Ends(s[e])
    && (forall j :: b <= j < e ==> !Ends(s[j]))
    && (forall j :: b <= j <= e ==> Clean(s)[j] == DUMMY)
  }

  /** Lines change only to the dummy, and only in such blocks. */
  lemma ChangedInBlocks(s: seq<string>, k: nat) returns (b: nat, e: nat)
    requires k < |s| && Clean(s)[k] != s[k]
    ensures Clean(s)[k] == DUMMY && b <= k <= e && CommentBlock(s, b, e)
  {
    var m := Marks(s);
    b, e := BlockOf(m, 0, k);
    assert forall j :: 0 <= j < |s| ==> m[j] == Mark(Starts(s[j]), Ends(s[j]));
  }

  /** From a comment that is never closed on, nothing changes. */
  lemma UnclosedLeftAlone(s: seq<string>)
    requires Report(s).Some?
    ensures var b := Report(s).value - 1;
            0 <= b < |s| && Starts(s[b]) && forall k :: b <= k < |s| ==> Clean(s)[k] == s[k] && !Ends(s[k])
  {
    var m := Marks(s);
    AfterUnclosed(m, 0);
    assert forall j :: 0 <= j < |s| ==> m[j] == Mark(Starts(s[j]), Ends(s[j]));
  }

  // ------------------------------------------------------------------ the methods

  ghost predicate NextStart(s: seq<string>, i: nat, b: nat) {
    i <= b <= |s| && (b < |s| ==> Starts(s[b])) && forall k :: i <= k < b ==> !Starts(s[k])
  }

  ghost predicate NextEnd(s: seq<string>, i: nat, e: nat) {
    i <= e <= |s| && (e < |s| ==> Ends(s[e])) && forall k :: i <= k < e ==> !Ends(s[k])
  }

  function Dummies(s: seq<string>, b: nat, e: nat): seq<string>
    requires b <= e <= |s|
  {
    seq(|s|, k requires 0 <= k < |s| => if b <= k < e then DUMMY else s[k])
  }

  method FindNextMultiLineCommentStart(lines: array<string>, from: nat) returns (b: nat)
    requires from <= lines.Length
    ensures NextStart(lines[..], from, b)
  {
    b := from;
    while b < lines.Length
      invariant from <= b <= lines.Length
      invariant forall k :: from <= k < b ==> !Starts(lines[k])
    {
      if Starts(lines[b]) {
        return;
      }
      b := b + 1;
    }
  }

  method FindNextMultiLineCommentEnd(lines: array<string>, from: nat) returns (e: nat)
    requires from <= lines.Length
    ensures NextEnd(lines[..], from, e)
  {
    e := from;
    while e < lines.Length
      invariant from <= e <= lines.Length
      invariant forall k :: from <= k < e ==> !Ends(lines[k])
    {
      if Ends(lines[e]) {
        return;
      }
      e := e + 1;
    }
  }

  method RemoveMultiLineCommentsFromRange(lines: array<string>, begin: nat, end: nat)
    requires begin <= end <= lines.Length
    modifies lines
    ensures lines[..] == Dummies(old(lines[..]), begin, end)
  {
    for i := begin to end
      invariant forall k :: 0 <= k < lines.Length ==> lines[k] == if begin <= k < i then DUMMY else old(lines[k])
    {
      lines[i] := DUMMY;
    }
  }

  /** The lines before `i` cleaned and the others as they were. */
  function CleanBefore(s: seq<string>, i: nat): seq<string> {
    seq(|s|, k requires 0 <= k < |s| => if k < i && InComment(Marks(s), 0, k) then DUMMY else s[k])
  }

  /** The lines before `i` have been cleaned and the others not yet looked at. */
  ghost predicate CleanedTo(s: seq<string>, now: seq<string>, i: nat) {
    i <= |s| && now == CleanBefore(s, i) && ReadsAt(Marks(s), i)
  }

  lemma Untouched(s: seq<string>, now: seq<string>, i: nat)
    requires CleanedTo(s, now, i)
    ensures |now| == |s| && forall k :: i <= k < |s| ==> now[k] == s[k] && Marks(s)[k] == Mark(Starts(now[k]), Ends(now[k]))
  {
    forall k | i <= k < |s| ensures now[k] == s[k] {
      assert CleanBefore(s, i)[k] == s[k];
    }
  }

  lemma RestPlain(s: seq<string>, i: nat)
    requires i <= |s| && forall k :: i <= k < |s| ==> !InComment(Marks(s), 0, k)
    ensures CleanBefore(s, i) == Clean(s)
  {
  }

  lemma NoStart(s: seq<string>, now: seq<string>, i: nat)
    requires CleanedTo(s, now, i) && NextStart(now, i, |s|)
    ensures now == Clean(s) && Report(s).None?
  {
    var m := Marks(s);
    Untouched(s, now, i);
    assert forall k :: i <= k < |s| ==> !m[k].starts;
    SkipPlain(m, i, |s|);
    RestPlain(s, i);
  }

  /** Up to the next comment start nothing is in a comment. */
  lemma ToStart(s: seq<string>, now: seq<string>, i: nat, b: nat)
    requires CleanedTo(s, now, i) && b < |s| && NextStart(now, i, b)
    ensures ReadsAt(Marks(s), b) && Marks(s)[b].starts && forall k :: i <= k < b ==> !InComment(Marks(s), 0, k)
  {
    var m := Marks(s);
    Untouched(s, now, i);
    assert forall k :: i <= k < b ==> !m[k].starts;
    SkipPlain(m, i, b);
  }

  lemma ToEnd(s: seq<string>, now: seq<string>, i: nat, b: nat, e: nat)
    requires CleanedTo(s, now, i) && i <= b <= |s| && NextEnd(now, b, e)
    ensures EndFrom(Marks(s), b) == e
  {
    var m := Marks(s);
    Untouched(s, now, i);
    assert forall k :: b <= k < e ==> !m[k].ends;
    assert e < |s| ==> m[e].ends;
    EndFound(m, b, e);
  }

  lemma NoEnd(s: seq<string>, now: seq<string>, i: nat, b: nat)
    requires CleanedTo(s, now, i) && b < |s| && NextStart(now, i, b) && NextEnd(now, b, |s|)
    ensures now == Clean(s) && Report(s) == Some(b + 1)
  {
    ToStart(s, now, i, b);
    ToEnd(s, now, i, b, |s|);
    Stop(Marks(s), b);
    RestPlain(s, i);
  }

  lemma Block(s: seq<string>, now: seq<string>, i: nat, b: nat, e: nat)
    requires CleanedTo(s, now, i) && e < |s| && NextStart(now, i, b) && NextEnd(now, b, e)
    ensures CleanedTo(s, Dummies(now, b, e + 1), e + 1)
  {
    ToStart(s, now, i, b);
    ToEnd(s, now, i, b, e);
    SkipComment(Marks(s), b, e);
    assert Dummies(now, b, e + 1) == CleanBefore(s, e + 1);
  }

  /** One round of the loop: the next comment is removed, or there is none, or it is never closed. */
  method RemoveNext(lines: array<string>, from: nat, ghost s: seq<string>)
    returns (next: nat, error: Option<nat>, done: bool)
    requires CleanedTo(s, lines[..], from)
    modifies lines
    ensures done ==> lines[..] == Clean(s) && error == Report(s)
    ensures !done ==> from < next && CleanedTo(s, lines[..], next)
  {
    next, error, done := from, None, false;
    ghost var now := lines[..];
    assert |s| == |now| == lines.Length;
    var begin := FindNextMultiLineCommentStart(lines, from);
    if begin >= lines.Length {
      NoStart(s, now, from);
      return from, None, true;
    }
    var end := FindNextMultiLineCommentEnd(lines, begin);
    if end >= lines.Length {
      NoEnd(s, now, from, begin);
      return from, Some(begin + 1), true;
    }
    Block(s, now, from, begin, end);
    RemoveMultiLineCommentsFromRange(lines, begin, end + 1);
    next := end + 1;
  }

  method RemoveMultiLineComments(lines: array<string>) returns (error: Option<nat>)
    modifies lines
    ensures lines[..] == Clean(old(lines[..]))
    ensures error == Report(old(lines[..]))
  {
    ghost var s := lines[..];
    var lineix := 0;
    while lineix < lines.Length
      invariant CleanedTo(s, lines[..], lineix)
    {
      var done;
      lineix, error, done := RemoveNext(lines, lineix, s);
      if done {
        return;
      }
    }
    NoStart(s, lines[..], lineix);
    return None;
  }
}
