/** Extraction of the text between an opening bracket and the bracket that closes it. */
module TextInside {
  import opened Wrappers

  predicate Opens(c: char) {
    c == '(' || c == '{' || c == '['
  }

  predicate Closes(c: char) {
    c == ')' || c == '}' || c == ']'
  }

  function Closer(c: char): (d: char)
    requires Opens(c)
    ensures Closes(d)
  {
    if c == '(' then ')' else if c == '{' then '}' else ']'
  }

  // -------------------------------------------------------------- specification

  /** The stretch of `text` from `lo` up to `hi` is well nested over the three kinds of brackets:
      it is empty, or it starts with a character that is no bracket, or with a bracketed
      well-nested stretch, and goes on well nested. */
  ghost predicate WellNested(text: string, lo: nat, hi: nat)
    requires lo <= hi <= |text|
    decreases hi - lo, 1
  {
    || lo == hi
    || (!Opens(text[lo]) && !Closes(text[lo]) && WellNested(text, lo + 1, hi))
    || (Opens(text[lo]) && exists k :: lo < k < hi && Bracketed(text, lo, k, hi))
  }

  ghost predicate Bracketed(text: string, lo: nat, k: nat, hi: nat)
    requires lo < k < hi <= |text| && Opens(text[lo])
    decreases hi - lo, 0
  {
    text[k] == Closer(text[lo]) && WellNested(text, lo + 1, k) && WellNested(text, k + 1, hi)
  }

  /** There is an opening bracket just before `start`. */
  predicate Anchored(text: string, start: nat) {
    0 < start <= |text| && Opens(text[start - 1])
  }

  /** `s` is the text after position `start`, up to the bracket closing the one just before it. */
  ghost predicate Inside(text: string, start: nat, s: string)
    requires Anchored(text, start)
  {
    && start + |s| < |text|
    && text[start..start + |s|] == s
    && text[start + |s|] == Closer(text[start - 1])
    && WellNested(text, start, start + |s|)
  }

  ghost predicate NothingInside(text: string, start: nat)
    requires Anchored(text, start)
  {
    forall s :: !Inside(text, start, s)
  }

  // ------------------------------------------------------------------ the scanner

  /** The scan from `pos` with the closers still expected, innermost last: the position after
      the last of them, or `None` on a mismatch or at the end of the text. */
  function Scan(text: string, pos: nat, stack: string): (r: Option<nat>)
    requires pos <= |text|
    ensures r.Some? ==> pos <= r.value <= |text|
    decreases |text| - pos
  {
    if stack == "" then
      Some(pos)
    else if pos == |text| then
      None
    else
      var c := text[pos];
      if c == stack[|stack| - 1] then
        Scan(text, pos + 1, stack[..|stack| - 1])
      else if Closes(c) then
        None
      else if Opens(c) then
        Scan(text, pos + 1, stack + [Closer(c)])
      else
        Scan(text, pos + 1, stack)
  }

  datatype Extracted = Text(text: string) | NoText | AssertionFails

  /** `start` is where the match of the start pattern ends, or `None` if there is none.  It is asserted
      that the match ends with an opening bracket. */
  method GetTextInside(text: string, start: Option<nat>) returns (r: Extracted)
    requires start.Some? ==> start.value <= |text|
    ensures r.AssertionFails? <==> start.Some? && !Anchored(text, start.value)
    ensures r.Text? ==> start.Some? && Anchored(text, start.value) && Inside(text, start.value, r.text)
    ensures r.NoText? ==> start.None? || (Anchored(text, start.value) && NothingInside(text, start.value))
  {
    if start.None? {
      return NoText;
    }
    var begin := start.value;
    if begin == 0 || !Opens(text[begin - 1]) {
      return AssertionFails;
    }
    var stack := [Closer(text[begin - 1])];
    var position := begin;
    while stack != "" && position < |text|
      invariant begin <= position <= |text|
      invariant stack == "" ==> position > begin
      invariant Scan(text, begin, [Closer(text[begin - 1])]) == Scan(text, position, stack)
    {
      var c := text[position];
      if c == stack[|stack| - 1] {
        stack := stack[..|stack| - 1];
      } else if Closes(c) {
        ScanFails(text, begin);
        return NoText;
      } else if Opens(c) {
        stack := stack + [Closer(c)];
      }
      position := position + 1;
    }
    if stack != "" {
      ScanFails(text, begin);
      return NoText;
    }
    ScanSound(text, begin);
    return Text(text[begin..position - 1]);
  }

  // ------------------------------------------------------------------------ proofs

  /** The scan passes over well-nested text. */
  lemma {:induction false} ScanPasses(text: string, pos: nat, end: nat, stack: string)
    requires pos <= end <= |text| && WellNested(text, pos, end)
    requires stack != "" && Closes(stack[|stack| - 1])
    ensures Scan(text, pos, stack) == Scan(text, end, stack)
    decreases end - pos
  {
    if pos < end {
      if Opens(text[pos]) {
        var k :| pos < k < end && Bracketed(text, pos, k, end);
        var inner := stack + [Closer(text[pos])];
        assert inner[..|inner| - 1] == stack;
        ScanPasses(text, pos + 1, k, inner);
        ScanPasses(text, k + 1, end, stack);
      } else {
        ScanPasses(text, pos + 1, end, stack);
      }
    }
  }

  /** The scan stops only after a well-nested text and the innermost closer, and it then goes on
      with the remaining closers. */
  lemma {:induction false} ScanFinds(text: string, pos: nat, stack: string) returns (end: nat)
    requires pos <= |text| && stack != "" && Scan(text, pos, stack).Some?
    ensures pos <= end < |text| && WellNested(text, pos, end) && text[end] == stack[|stack| - 1]
    ensures Scan(text, pos, stack) == Scan(text, end + 1, stack[..|stack| - 1])
    decreases |text| - pos
  {
    var c := text[pos];
    if c == stack[|stack| - 1] {
      end := pos;
    } else if Opens(c) {
      var inner := stack + [Closer(c)];
      assert inner[..|inner| - 1] == stack;
      var k := ScanFinds(text, pos + 1, inner);
      end := ScanFinds(text, k + 1, stack);
      assert Bracketed(text, pos, k, end);
    } else {
      end := ScanFinds(text, pos + 1, stack);
    }
  }

  /** The scan succeeds exactly when there is a text inside, and ends just after its closer. */
  lemma ScanSound(text: string, start: nat)
    requires Anchored(text, start)
    ensures var r := Scan(text, start, [Closer(text[start - 1])]);
            r.Some? ==> start < r.value && Inside(text, start, text[start..r.value - 1])
  {
    var stack := [Closer(text[start - 1])];
    if Scan(text, start, stack).Some? {
      var end := ScanFinds(text, start, stack);
      assert stack[..0] == "";
      assert |text[start..end]| == end - start;
    }
  }

  lemma ScanComplete(text: string, start: nat, s: string)
    requires Anchored(text, start) && Inside(text, start, s)
    ensures Scan(text, start, [Closer(text[start - 1])]) == Some(start + |s| + 1)
  {
    var stack := [Closer(text[start - 1])];
    assert stack[..0] == "";
    ScanPasses(text, start, start + |s|, stack);
  }

  lemma ScanFails(text: string, start: nat)
    requires Anchored(text, start) && Scan(text, start, [Closer(text[start - 1])]).None?
    ensures NothingInside(text, start)
  {
    ScanExact(text, start);
  }

  lemma ScanExact(text: string, start: nat)
    requires Anchored(text, start)
    ensures var r := Scan(text, start, [Closer(text[start - 1])]);
            && (r.Some? ==> start < r.value && Inside(text, start, text[start..r.value - 1]))
            && forall s :: Inside(text, start, s) ==> r == Some(start + |s| + 1)
  {
    ScanSound(text, start);
    forall s | Inside(text, start, s)
      ensures Scan(text, start, [Closer(text[start - 1])]) == Some(start + |s| + 1)
    {
      ScanComplete(text, start, s);
    }
  }

  /** For instance: the inside of a call that holds all three kinds of brackets. */
  lemma Example()
    ensures Inside("f(a[b]{})", 2, "a[b]{}")
    ensures NothingInside("f(a[b)", 2)
  {
    var t, u := "f(a[b]{})", "f(a[b)";
    assert t[2..8] == "a[b]{}";
    assert WellNested(t, 8, 8) && WellNested(t, 7, 7) && Bracketed(t, 6, 7, 8);
    assert WellNested(t, 4, 5) && WellNested(t, 6, 8) && Bracketed(t, 3, 5, 8);
    assert WellNested(t, 3, 8) && WellNested(t, 2, 8);
    assert Scan(u, 5, [')', ']']) == None;
    assert [')'] + [']'] == [')', ']'];
    assert Scan(u, 4, [')', ']']) == None && Scan(u, 3, [')']) == None && Scan(u, 2, [')']) == None;
    ScanFails(u, 2);
  }

  /** There is at most one text inside. */
  lemma InsideUnique(text: string, start: nat, s: string, t: string)
    requires Anchored(text, start)
    requires Inside(text, start, s) && Inside(text, start, t)
    ensures s == t
  {
    ScanComplete(text, start, s);
    ScanComplete(text, start, t);
  }
}
