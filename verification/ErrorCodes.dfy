/** The error-code allocator: a pass over the source tree that replaces every placeholder
  code `0` by the next free code, rewriting one file at a time.

  A tree is a list of files, a file a list of lines.  A line is reduced to the codes it
  holds, in the order the pass meets them (pattern by pattern, and left to right for each
  pattern), and to whether it is a bare assert, on which every scan stops with an exception.
 */
module ErrorCodes {
  import opened Wrappers

  /** A run of decimal digits, given by its number and by the zeros written in front of it:
      `00` is the number 0 with one extra zero.  Codes are compared as text. */
  datatype Numeral = Numeral(value: nat, leadingZeros: nat)

  datatype Line = Line(bareAssert: bool, codes: seq<Numeral>)
  type File = seq<Line>

  const PLACEHOLDER := Numeral(0, 0)

  /** How a number is written out. */
  function Show(n: nat): Numeral {
    Numeral(n, 0)
  }

  // -------------------------------------------------------------- specification

  function Max(a: nat, b: nat): nat {
    if a >= b then a else b
  }

  function MaxOf(ns: seq<nat>, n: nat): nat
    requires n <= |ns|
  {
    if n == 0 then 0 else Max(MaxOf(ns, n - 1), ns[n - 1])
  }

  /** The greatest of the first `n` codes, or 0 if there is none. */
  function HighestOf(codes: seq<Numeral>, n: nat): nat
    requires n <= |codes|
  {
    if n == 0 then 0 else Max(HighestOf(codes, n - 1), codes[n - 1].value)
  }

  function Highest(codes: seq<Numeral>): nat {
    HighestOf(codes, |codes|)
  }

  /** All codes are at most `m`, and `m` is one of them, or 0. */
  ghost predicate IsHighest(codes: seq<Numeral>, m: nat) {
    && (forall i :: 0 <= i < |codes| ==> codes[i].value <= m)
    && (m == 0 || exists i :: 0 <= i < |codes| && codes[i].value == m)
  }

  /** How many of the first `n` codes are placeholders. */
  function ZerosBefore(codes: seq<Numeral>, n: nat): nat
    requires n <= |codes|
  {
    if n == 0 then 0 else ZerosBefore(codes, n - 1) + if codes[n - 1] == PLACEHOLDER then 1 else 0
  }

  function Zeros(codes: seq<Numeral>): nat {
    ZerosBefore(codes, |codes|)
  }

  /** The codes of the first `n` lines of a file, and of the first `n` files of a tree, in scan order. */
  function LineCodes(f: File, n: nat): seq<Numeral>
    requires n <= |f|
  {
    if n == 0 then [] else LineCodes(f, n - 1) + f[n - 1].codes
  }

  function FileCodes(f: File): seq<Numeral> {
    LineCodes(f, |f|)
  }

  function CodesBefore(files: seq<File>, n: nat): seq<Numeral>
    requires n <= |files|
  {
    if n == 0 then [] else CodesBefore(files, n - 1) + FileCodes(files[n - 1])
  }

  function TreeCodes(files: seq<File>): seq<Numeral> {
    CodesBefore(files, |files|)
  }

  /** The codes with the placeholders numbered from `next` on, in order, and nothing else changed. */
  function FilledCode(codes: seq<Numeral>, next: nat, i: nat): Numeral
    requires i < |codes|
  {
    if codes[i] == PLACEHOLDER then Show(next + ZerosBefore(codes, i)) else codes[i]
  }

  function Fill(codes: seq<Numeral>, next: nat): seq<Numeral> {
    seq(|codes|, i requires 0 <= i < |codes| => FilledCode(codes, next, i))
  }

  function FilledLine(f: File, next: nat, i: nat): Line
    requires i < |f|
  {
    f[i].(codes := Fill(f[i].codes, next + Zeros(LineCodes(f, i))))
  }

  function FillFile(f: File, next: nat): File {
    seq(|f|, i requires 0 <= i < |f| => FilledLine(f, next, i))
  }

  function FilledFile(files: seq<File>, next: nat, i: nat): File
    requires i < |files|
  {
    FillFile(files[i], next + Zeros(CodesBefore(files, i)))
  }

  function FillTree(files: seq<File>, next: nat): seq<File> {
    seq(|files|, i requires 0 <= i < |files| => FilledFile(files, next, i))
  }

  /** The tree with its placeholders numbered from just above its highest code. */
  function Numbered(files: seq<File>): seq<File> {
    FillTree(files, Highest(TreeCodes(files)) + 1)
  }

  predicate FileHasBare(f: File) {
    exists j :: 0 <= j < |f| && f[j].bareAssert
  }

  predicate HasBare(files: seq<File>) {
    exists i :: 0 <= i < |files| && FileHasBare(files[i])
  }

  ghost predicate Distinct(codes: seq<Numeral>) {
    forall i, j :: 0 <= i < j < |codes| ==> codes[i] != codes[j]
  }

  /** What the search for a free code answers, given the codes handed out for the current file. */
  ghost function NextFree(files: seq<File>, lastCodes: seq<nat>): nat {
    Max(MaxOf(lastCodes, |lastCodes|), Highest(TreeCodes(files))) + 1
  }

  /** `n` is one more than the greatest of these codes and the codes of the tree, or 1. */
  ghost predicate IsNext(files: seq<File>, lastCodes: seq<nat>, n: nat) {
    var codes := TreeCodes(files);
    && n >= 1
    && (forall i :: 0 <= i < |lastCodes| ==> lastCodes[i] < n)
    && (forall i :: 0 <= i < |codes| ==> codes[i].value < n)
    && (n == 1 || n - 1 in lastCodes || exists i :: 0 <= i < |codes| && codes[i].value == n - 1)
  }

  /** The duplicate check, having visited the first `n` codes: codes seen and errors counted.
      Placeholders never reach it. */
  function Visit(seen: set<Numeral>, errors: nat, codes: seq<Numeral>, n: nat): (set<Numeral>, nat)
    requires n <= |codes|
    decreases n
  {
    if n == 0 then
      (seen, errors)
    else
      var v, c := Visit(seen, errors, codes, n - 1), codes[n - 1];
      if c == PLACEHOLDER then v else (v.0 + {c}, if c in v.0 then v.1 + 1 else v.1)
  }

  function Note(seen: set<Numeral>, errors: nat, codes: seq<Numeral>): (set<Numeral>, nat) {
    Visit(seen, errors, codes, |codes|)
  }

  // ------------------------------------------------------- lists put end to end

  lemma {:induction false} ZerosAppend(a: seq<Numeral>, b: seq<Numeral>, n: nat)
    requires n <= |a| + |b|
    ensures ZerosBefore(a + b, n) ==
            if n <= |a| then ZerosBefore(a, n) else Zeros(a) + ZerosBefore(b, n - |a|)
    decreases n
  {
    if n > 0 {
      ZerosAppend(a, b, n - 1);
    }
  }

  lemma {:induction false} HighestAppend(a: seq<Numeral>, b: seq<Numeral>, n: nat)
    requires n <= |a| + |b|
    ensures HighestOf(a + b, n) ==
            if n <= |a| then HighestOf(a, n) else Max(Highest(a), HighestOf(b, n - |a|))
    decreases n
  {
    if n > 0 {
      HighestAppend(a, b, n - 1);
    }
  }

  lemma {:induction false} VisitAppend(seen: set<Numeral>, errors: nat, a: seq<Numeral>, b: seq<Numeral>, n: nat)
    requires n <= |a| + |b|
    ensures Visit(seen, errors, a + b, n) ==
            if n <= |a| then Visit(seen, errors, a, n)
            else var v := Note(seen, errors, a); Visit(v.0, v.1, b, n - |a|)
    decreases n
  {
    if n > 0 {
      VisitAppend(seen, errors, a, b, n - 1);
    }
  }

  lemma FillAppend(a: seq<Numeral>, b: seq<Numeral>, next: nat)
    ensures Fill(a + b, next) == Fill(a, next) + Fill(b, next + Zeros(a))
  {
    var whole, parts := Fill(a + b, next), Fill(a, next) + Fill(b, next + Zeros(a));
    forall i | 0 <= i < |a| + |b| ensures whole[i] == parts[i] {
      ZerosAppend(a, b, i);
      if i >= |a| {
        assert (a + b)[i] == b[i - |a|];
      }
    }
  }

  /** The whole-list forms of the three lemmas above. */
  lemma Append(a: seq<Numeral>, b: seq<Numeral>)
    ensures Zeros(a + b) == Zeros(a) + Zeros(b)
    ensures Highest(a + b) == Max(Highest(a), Highest(b))
    ensures forall seen, errors ::
              var v := Note(seen, errors, a); Note(seen, errors, a + b) == Note(v.0, v.1, b)
  {
    var n := |a| + |b|;
    ZerosAppend(a, b, n);
    HighestAppend(a, b, n);
    forall seen, errors
      ensures var v := Note(seen, errors, a); Note(seen, errors, a + b) == Note(v.0, v.1, b)
    {
      VisitAppend(seen, errors, a, b, n);
    }
  }

  // ------------------------------------------------------------ properties of Fill

  /** Filling the tree line by line is filling the whole list of codes. */
  lemma {:induction false} FillFileCodes(f: File, next: nat, n: nat)
    requires n <= |f|
    ensures LineCodes(FillFile(f, next), n) == Fill(LineCodes(f, n), next)
  {
    if n > 0 {
      FillFileCodes(f, next, n - 1);
      FillAppend(LineCodes(f, n - 1), f[n - 1].codes, next);
    }
  }

  lemma {:induction false} FillTreeCodes(files: seq<File>, next: nat, n: nat)
    requires n <= |files|
    ensures CodesBefore(FillTree(files, next), n) == Fill(CodesBefore(files, n), next)
  {
    if n > 0 {
      var f := files[n - 1];
      FillTreeCodes(files, next, n - 1);
      FillFileCodes(f, next + Zeros(CodesBefore(files, n - 1)), |f|);
      FillAppend(CodesBefore(files, n - 1), FileCodes(f), next);
    }
  }

  lemma NumberedCodes(files: seq<File>)
    ensures TreeCodes(Numbered(files)) == Fill(TreeCodes(files), Highest(TreeCodes(files)) + 1)
  {
    FillTreeCodes(files, Highest(TreeCodes(files)) + 1, |files|);
  }

  lemma {:induction false} HighestBounds(codes: seq<Numeral>, n: nat, i: nat)
    requires i < n <= |codes|
    ensures codes[i].value <= HighestOf(codes, n)
    decreases n
  {
    if i < n - 1 {
      HighestBounds(codes, n - 1, i);
    }
  }

  lemma {:induction false} HighestOccurs(codes: seq<Numeral>, n: nat)
    requires n <= |codes|
    ensures HighestOf(codes, n) == 0 || exists i :: 0 <= i < n && codes[i].value == HighestOf(codes, n)
  {
    if n > 0 {
      HighestOccurs(codes, n - 1);
    }
  }

  lemma HighestIs(codes: seq<Numeral>, m: nat)
    ensures IsHighest(codes, m) <==> m == Highest(codes)
  {
    HighestOccurs(codes, |codes|);
    forall i | 0 <= i < |codes| ensures codes[i].value <= Highest(codes) {
      HighestBounds(codes, |codes|, i);
    }
  }

  lemma {:induction false} ZerosCount(codes: seq<Numeral>, n: nat)
    requires n <= |codes|
    ensures ZerosBefore(codes, n) == multiset(codes[..n])[PLACEHOLDER]
  {
    if n > 0 {
      ZerosCount(codes, n - 1);
      assert codes[..n] == codes[..n - 1] + [codes[n - 1]];
    }
  }

  /** With `m` the greatest code of the tree, the placeholders become `m + 1`, `m + 2`, ... in scan
      order across lines and files, and every other code stays. */
  lemma NumberedInScanOrder(files: seq<File>, m: nat, i: nat)
    requires IsHighest(TreeCodes(files), m) && i < |TreeCodes(files)|
    ensures |TreeCodes(Numbered(files))| == |TreeCodes(files)|
    ensures var before := TreeCodes(files);
            TreeCodes(Numbered(files))[i] ==
            if before[i] == PLACEHOLDER then Numeral(m + 1 + multiset(before[..i])[PLACEHOLDER], 0) else before[i]
  {
    var before := TreeCodes(files);
    HighestIs(before, m);
    ZerosCount(before, i);
    NumberedCodes(files);
    assert Fill(before, m + 1)[i] == FilledCode(before, m + 1, i);
  }

  // ----------------------------------------------------------- numbering by place

  ghost predicate SameLines(a: File, b: File) {
    && |a| == |b|
    && forall l :: 0 <= l < |a| ==> a[l].bareAssert == b[l].bareAssert && |a[l].codes| == |b[l].codes|
  }

  ghost predicate SameShape(a: seq<File>, b: seq<File>) {
    |a| == |b| && forall i :: 0 <= i < |a| ==> SameLines(a[i], b[i])
  }

  /** Where a code stands in the tree. */
  datatype Place = Place(file: nat, line: nat, code: nat)

  predicate In(p: Place, files: seq<File>) {
    p.file < |files| && p.line < |files[p.file]| && p.code < |files[p.file][p.line].codes|
  }

  function CodeAt(files: seq<File>, p: Place): Numeral
    requires In(p, files)
  {
    files[p.file][p.line].codes[p.code]
  }

  predicate Earlier(p: Place, q: Place) {
    p.file < q.file || (p.file == q.file && (p.line < q.line || (p.line == q.line && p.code < q.code)))
  }

  /** A placeholder became one of the numbers from `m + 1` up to `m + z`; another code stayed. */
  predicate NumberedAt(before: seq<File>, after: seq<File>, m: nat, z: nat, p: Place)
    requires In(p, before)
  {
    In(p, after) &&
    if CodeAt(before, p) == PLACEHOLDER then
      CodeAt(after, p).leadingZeros == 0 && m < CodeAt(after, p).value <= m + z
    else CodeAt(after, p) == CodeAt(before, p)
  }

  /** Of two placeholders the later one became the greater number. */
  predicate RisingAt(before: seq<File>, after: seq<File>, p: Place, q: Place)
    requires In(p, before) && In(q, before)
  {
    Earlier(p, q) && CodeAt(before, p) == PLACEHOLDER == CodeAt(before, q) ==>
      In(p, after) && In(q, after) && CodeAt(after, p).value < CodeAt(after, q).value
  }

  ghost predicate Numbers(before: seq<File>, after: seq<File>, m: nat, z: nat) {
    forall p {:trigger NumberedAt(before, after, m, z, p)} | In(p, before) :: NumberedAt(before, after, m, z, p)
  }

  ghost predicate Rises(before: seq<File>, after: seq<File>) {
    forall p, q {:trigger RisingAt(before, after, p, q)} | In(p, before) && In(q, before) ::
      RisingAt(before, after, p, q)
  }

  ghost predicate NumberedFrom(before: seq<File>, after: seq<File>, m: nat, z: nat) {
    SameShape(before, after) && Numbers(before, after, m, z) && Rises(before, after)
  }

  /** The placeholders before a place. */
  function Offset(files: seq<File>, p: Place): nat
    requires In(p, files)
  {
    var f := files[p.file];
    Zeros(CodesBefore(files, p.file)) + Zeros(LineCodes(f, p.line)) + ZerosBefore(f[p.line].codes, p.code)
  }

  lemma FilledAt(files: seq<File>, next: nat, p: Place)
    requires In(p, files)
    ensures In(p, FillTree(files, next))
    ensures CodeAt(FillTree(files, next), p) ==
            if CodeAt(files, p) == PLACEHOLDER then Show(next + Offset(files, p)) else CodeAt(files, p)
  {
    var f := FilledFile(files, next, p.file);
    assert FillTree(files, next)[p.file] == f;
    assert f[p.line] == FilledLine(files[p.file], next + Zeros(CodesBefore(files, p.file)), p.line);
  }

  /** Up to and with a placeholder there are at most as many of them as up to the end of its line. */
  lemma OffsetInLine(files: seq<File>, p: Place)
    requires In(p, files) && CodeAt(files, p) == PLACEHOLDER
    ensures Offset(files, p) < Zeros(CodesBefore(files, p.file)) + Zeros(LineCodes(files[p.file], p.line + 1))
  {
    var codes := files[p.file][p.line].codes;
    ZerosGrow(codes, p.code, |codes|);
    Append(LineCodes(files[p.file], p.line), codes);
  }

  lemma OffsetInFile(files: seq<File>, p: Place)
    requires In(p, files) && CodeAt(files, p) == PLACEHOLDER
    ensures Offset(files, p) < Zeros(CodesBefore(files, p.file + 1))
  {
    var f := files[p.file];
    OffsetInLine(files, p);
    ZerosInPrefix(f, p.line + 1, |f|);
    Append(CodesBefore(files, p.file), FileCodes(f));
  }

  lemma {:induction false} ZerosInTree(files: seq<File>, i: nat, n: nat)
    requires i <= n <= |files|
    ensures Zeros(CodesBefore(files, i)) <= Zeros(CodesBefore(files, n))
    decreases n
  {
    if i < n {
      ZerosInTree(files, i, n - 1);
      Append(CodesBefore(files, n - 1), FileCodes(files[n - 1]));
    }
  }

  lemma OffsetGrows(files: seq<File>, p: Place, q: Place)
    requires In(p, files) && In(q, files) && Earlier(p, q) && CodeAt(files, p) == PLACEHOLDER
    ensures Offset(files, p) < Offset(files, q)
  {
    if p.file < q.file {
      OffsetInFile(files, p);
      ZerosInTree(files, p.file + 1, q.file);
    } else if p.line < q.line {
      OffsetInLine(files, p);
      ZerosInPrefix(files[p.file], p.line + 1, q.line);
    } else {
      ZerosGrow(files[p.file][p.line].codes, p.code, q.code);
    }
  }

  lemma LinesKept(f: File, next: nat)
    ensures SameLines(f, FillFile(f, next))
  {
    var after := FillFile(f, next);
    assert forall l :: 0 <= l < |f| ==> after[l] == FilledLine(f, next, l);
  }

  lemma ShapeKept(files: seq<File>, next: nat)
    ensures SameShape(files, FillTree(files, next))
  {
    var after := FillTree(files, next);
    forall i | 0 <= i < |files| ensures SameLines(files[i], after[i]) {
      assert after[i] == FilledFile(files, next, i);
      LinesKept(files[i], next + Zeros(CodesBefore(files, i)));
    }
  }

  lemma FillNumbers(files: seq<File>, after: seq<File>, m: nat, z: nat, p: Place)
    requires after == FillTree(files, m + 1) && z == Zeros(TreeCodes(files)) && In(p, files)
    ensures NumberedAt(files, after, m, z, p)
  {
    FilledAt(files, m + 1, p);
    if CodeAt(files, p) == PLACEHOLDER {
      OffsetInFile(files, p);
      ZerosInTree(files, p.file + 1, |files|);
    }
  }

  lemma FillRises(files: seq<File>, after: seq<File>, m: nat, p: Place, q: Place)
    requires after == FillTree(files, m + 1) && In(p, files) && In(q, files)
    ensures RisingAt(files, after, p, q)
  {
    FilledAt(files, m + 1, p);
    FilledAt(files, m + 1, q);
    if Earlier(p, q) && CodeAt(files, p) == PLACEHOLDER {
      OffsetGrows(files, p, q);
    }
  }

  lemma AllNumbered(files: seq<File>, after: seq<File>, m: nat, z: nat)
    requires after == FillTree(files, m + 1) && z == Zeros(TreeCodes(files))
    ensures Numbers(files, after, m, z)
  {
    forall p | In(p, files) ensures NumberedAt(files, after, m, z, p) {
      FillNumbers(files, after, m, z, p);
    }
  }

  lemma AllRise(files: seq<File>, after: seq<File>, m: nat)
    requires after == FillTree(files, m + 1)
    ensures Rises(files, after)
  {
    forall p, q | In(p, files) && In(q, files) ensures RisingAt(files, after, p, q) {
      FillRises(files, after, m, p, q);
    }
  }

  /** The placeholders of the tree got the numbers after its greatest code `m`, as many as there are
      placeholders, in scan order; every other code, line and file has stayed. */
  lemma NumberedByPlace(files: seq<File>, m: nat)
    requires IsHighest(TreeCodes(files), m)
    ensures NumberedFrom(files, Numbered(files), m, multiset(TreeCodes(files))[PLACEHOLDER])
  {
    var codes, after := TreeCodes(files), Numbered(files);
    var z := multiset(codes)[PLACEHOLDER];
    assert z == Zeros(codes) by {
      ZerosCount(codes, |codes|);
      assert codes[..|codes|] == codes;
    }
    assert after == FillTree(files, m + 1) by {
      HighestIs(codes, m);
    }
    assert Numbers(files, after, m, z) by {
      AllNumbered(files, after, m, z);
    }
    assert Rises(files, after) by {
      AllRise(files, after, m);
    }
    ShapeKept(files, m + 1);
  }

  // ------------------------------------------------------------------ the scan order

  /** Where a place comes in the scan. */
  function IndexOf(files: seq<File>, p: Place): nat
    requires In(p, files)
  {
    |CodesBefore(files, p.file)| + |LineCodes(files[p.file], p.line)| + p.code
  }

  lemma {:induction false} LineInScan(f: File, l: nat, k: nat, n: nat)
    requires l < n <= |f| && k < |f[l].codes|
    ensures |LineCodes(f, l)| + k < |LineCodes(f, n)| && LineCodes(f, n)[|LineCodes(f, l)| + k] == f[l].codes[k]
    decreases n
  {
    if l < n - 1 {
      LineInScan(f, l, k, n - 1);
    }
  }

  lemma {:induction false} FileInScan(files: seq<File>, i: nat, x: nat, n: nat)
    requires i < n <= |files| && x < |FileCodes(files[i])|
    ensures |CodesBefore(files, i)| + x < |CodesBefore(files, n)|
    ensures CodesBefore(files, n)[|CodesBefore(files, i)| + x] == FileCodes(files[i])[x]
    decreases n
  {
    if i < n - 1 {
      FileInScan(files, i, x, n - 1);
    }
  }

  /** The scan meets every code of the tree. */
  lemma PlaceInScan(files: seq<File>, p: Place)
    requires In(p, files)
    ensures IndexOf(files, p) < |TreeCodes(files)| && TreeCodes(files)[IndexOf(files, p)] == CodeAt(files, p)
  {
    var f := files[p.file];
    LineInScan(f, p.line, p.code, |f|);
    FileInScan(files, p.file, |LineCodes(f, p.line)| + p.code, |files|);
  }

  lemma {:induction false} LineOfScan(f: File, x: nat, n: nat) returns (l: nat, k: nat)
    requires n <= |f| && x < |LineCodes(f, n)|
    ensures l < n && k < |f[l].codes| && x == |LineCodes(f, l)| + k
  {
    if x < |LineCodes(f, n - 1)| {
      l, k := LineOfScan(f, x, n - 1);
    } else {
      l, k := n - 1, x - |LineCodes(f, n - 1)|;
    }
  }

  /** The scan meets nothing else. */
  lemma {:induction false} ScanFromPlace(files: seq<File>, x: nat, n: nat) returns (p: Place)
    requires n <= |files| && x < |CodesBefore(files, n)|
    ensures In(p, files) && p.file < n && x == IndexOf(files, p)
  {
    if x < |CodesBefore(files, n - 1)| {
      p := ScanFromPlace(files, x, n - 1);
    } else {
      var f := files[n - 1];
      var l, k := LineOfScan(f, x - |CodesBefore(files, n - 1)|, |f|);
      p := Place(n - 1, l, k);
    }
  }

  lemma {:induction false} LinesGrow(f: File, l: nat, n: nat)
    requires l <= n <= |f|
    ensures |LineCodes(f, l)| <= |LineCodes(f, n)|
    decreases n
  {
    if l < n {
      LinesGrow(f, l, n - 1);
    }
  }

  lemma {:induction false} FilesGrow(files: seq<File>, i: nat, n: nat)
    requires i <= n <= |files|
    ensures |CodesBefore(files, i)| <= |CodesBefore(files, n)|
    decreases n
  {
    if i < n {
      FilesGrow(files, i, n - 1);
    }
  }

  /** It goes file by file, line by line, and through each line in its order, so it meets every
      place once. */
  lemma ScanInOrder(files: seq<File>, p: Place, q: Place)
    requires In(p, files) && In(q, files) && Earlier(p, q)
    ensures IndexOf(files, p) < IndexOf(files, q)
  {
    var f := files[p.file];
    if p.file < q.file {
      LineInScan(f, p.line, p.code, |f|);
      FilesGrow(files, p.file + 1, q.file);
    } else if p.line < q.line {
      LinesGrow(f, p.line + 1, q.line);
    }
  }

  // ---------------------------------------------------- what filling does to codes

  /** Filling from just above `m` raises the highest code by the number of placeholders. */
  lemma {:induction false} HighestFill(codes: seq<Numeral>, m: nat, n: nat)
    requires n <= |codes| && HighestOf(codes, n) <= m
    ensures Max(m, HighestOf(Fill(codes, m + 1), n)) == m + ZerosBefore(codes, n)
  {
    if n > 0 {
      HighestFill(codes, m, n - 1);
    }
  }

  lemma {:induction false} ZerosGrow(codes: seq<Numeral>, i: nat, j: nat)
    requires i < j <= |codes|
    ensures ZerosBefore(codes, i) + (if codes[i] == PLACEHOLDER then 1 else 0) <= ZerosBefore(codes, j)
    decreases j
  {
    if i < j - 1 {
      ZerosGrow(codes, i, j - 1);
    }
  }

  lemma FillNone(codes: seq<Numeral>, next: nat)
    requires Zeros(codes) == 0
    ensures Fill(codes, next) == codes
  {
    forall i | 0 <= i < |codes| ensures codes[i] != PLACEHOLDER {
      ZerosGrow(codes, i, |codes|);
    }
  }

  /** No two codes agree, placeholders excepted. */
  ghost predicate DistinctButPlaceholders(codes: seq<Numeral>, n: nat)
    requires n <= |codes|
  {
    forall i, j :: 0 <= i < j < n && codes[i] == codes[j] ==> codes[i] == PLACEHOLDER
  }

  /** After a fill from above the highest code no two codes agree, exactly when before it
      no two codes other than placeholders did. */
  lemma FillDistinct(codes: seq<Numeral>, next: nat)
    requires Highest(codes) < next
    ensures Distinct(Fill(codes, next)) <==> DistinctButPlaceholders(codes, |codes|)
  {
    var r := Fill(codes, next);
    forall i, j | 0 <= i < j < |codes|
      ensures r[i] == r[j] <==> codes[i] == codes[j] && codes[i] != PLACEHOLDER
    {
      HighestBounds(codes, |codes|, i);
      HighestBounds(codes, |codes|, j);
      ZerosGrow(codes, i, j);
    }
  }

  // --------------------------------------------------------------- the tree midway

  /** The tree once the files before position `i` have been rewritten. */
  ghost function Midway(tree: seq<File>, i: nat, next: nat): seq<File>
    requires i <= |tree|
  {
    FillTree(tree, next)[..i] + tree[i..]
  }

  /** Writing back the next file. */
  lemma MidwayNext(tree: seq<File>, i: nat, next: nat, files: seq<File>, f: File, first: nat, lines: File)
    requires i < |tree| && files == Midway(tree, i, next) && f == tree[i]
    requires first == next + Zeros(CodesBefore(tree, i)) && lines == FillFile(f, first)
    ensures files[i := lines] == Midway(tree, i + 1, next)
  {
    assert FillTree(tree, next)[i] == lines;
  }

  /** Filling leaves the bare asserts where they are. */
  lemma MidwayBare(tree: seq<File>, i: nat, next: nat)
    requires i <= |tree|
    ensures HasBare(Midway(tree, i, next)) <==> HasBare(tree)
  {
    var mid := Midway(tree, i, next);
    forall k | 0 <= k < |tree| ensures FileHasBare(mid[k]) <==> FileHasBare(tree[k]) {
      if k < i {
        assert mid[k] == FillFile(tree[k], next + Zeros(CodesBefore(tree, k)));
        assert forall j :: 0 <= j < |tree[k]| ==> mid[k][j].bareAssert == tree[k][j].bareAssert;
      }
    }
  }

  lemma {:induction false} SameCodesBefore(a: seq<File>, b: seq<File>, n: nat)
    requires n <= |a| && n <= |b| && forall k :: 0 <= k < n ==> a[k] == b[k]
    ensures CodesBefore(a, n) == CodesBefore(b, n)
  {
    if n > 0 {
      SameCodesBefore(a, b, n - 1);
    }
  }

  lemma HighestRewritten(tree: seq<File>, i: nat, m: nat)
    requires i <= |tree| && Highest(CodesBefore(tree, i)) <= m
    ensures Max(m, Highest(CodesBefore(Midway(tree, i, m + 1), i))) == m + Zeros(CodesBefore(tree, i))
  {
    SameCodesBefore(Midway(tree, i, m + 1), FillTree(tree, m + 1), i);
    FillTreeCodes(tree, m + 1, i);
    HighestFill(CodesBefore(tree, i), m, |CodesBefore(tree, i)|);
  }

  /** However much of the rest of the tree is read, the highest code seen, or `m`, is as many
      above `m` as there were placeholders in the files already rewritten. */
  lemma {:induction false} HighestMidway(tree: seq<File>, i: nat, m: nat, n: nat)
    requires i <= n <= |tree| && Highest(CodesBefore(tree, n)) <= m
    ensures Max(m, Highest(CodesBefore(Midway(tree, i, m + 1), n))) == m + Zeros(CodesBefore(tree, i))
    decreases n
  {
    var mid := Midway(tree, i, m + 1);
    if n == i {
      HighestRewritten(tree, i, m);
    } else {
      Append(CodesBefore(tree, n - 1), FileCodes(tree[n - 1]));
      HighestMidway(tree, i, m, n - 1);
      assert mid[n - 1] == tree[n - 1];
      Append(CodesBefore(mid, n - 1), FileCodes(tree[n - 1]));
    }
  }

  /** The next free code midway, although the codes handed out so far are known only from the
      files already rewritten. */
  lemma NextFreeMidway(tree: seq<File>, i: nat, m: nat, files: seq<File>)
    requires i <= |tree| && m == Highest(TreeCodes(tree)) && files == Midway(tree, i, m + 1)
    requires Zeros(CodesBefore(tree, i)) == 0 ==> files == tree
    ensures NextFree(files, [0]) == m + 1 + Zeros(CodesBefore(tree, i))
  {
    HighestMidway(tree, i, m, |tree|);
    assert MaxOf([0], 1) == 0;
  }

  // ------------------------------------------------------------------ duplicates

  lemma {:induction false} VisitCounts(codes: seq<Numeral>, n: nat)
    requires n <= |codes|
    ensures forall c :: c in Visit({}, 0, codes, n).0 <==> c != PLACEHOLDER && c in codes[..n]
    ensures Visit({}, 0, codes, n).1 == 0 <==> DistinctButPlaceholders(codes, n)
  {
    if n > 0 {
      var c := codes[n - 1];
      VisitCounts(codes, n - 1);
      assert codes[..n] == codes[..n - 1] + [c];
      if c in codes[..n - 1] {
        var i :| 0 <= i < n - 1 && codes[..n - 1][i] == c;
        assert codes[i] == codes[n - 1];
      }
      assert DistinctButPlaceholders(codes, n) ==> DistinctButPlaceholders(codes, n - 1);
    }
  }

  /** No duplicate was met exactly when the tree after the pass is free of duplicates, although
      the codes the pass hands out are never checked. */
  lemma DuplicatesFound(codes: seq<Numeral>)
    ensures Note({}, 0, codes).1 == 0 <==> Distinct(Fill(codes, Highest(codes) + 1))
  {
    VisitCounts(codes, |codes|);
    FillDistinct(codes, Highest(codes) + 1);
  }

  lemma {:induction false} ZerosInPrefix(f: File, i: nat, n: nat)
    requires i <= n <= |f|
    ensures Zeros(LineCodes(f, i)) <= Zeros(LineCodes(f, n))
    decreases n
  {
    if i < n {
      ZerosInPrefix(f, i, n - 1);
      Append(LineCodes(f, n - 1), f[n - 1].codes);
    }
  }

  lemma FillFileNone(f: File, next: nat)
    requires Zeros(FileCodes(f)) == 0
    ensures FillFile(f, next) == f
  {
    forall i | 0 <= i < |f| ensures FilledLine(f, next, i) == f[i] {
      ZerosInPrefix(f, i + 1, |f|);
      Append(LineCodes(f, i), f[i].codes);
      FillNone(f[i].codes, next + Zeros(LineCodes(f, i)));
    }
  }

  lemma {:induction false} MaxIs(ns: seq<nat>, n: nat)
    requires n <= |ns|
    ensures forall i :: 0 <= i < n ==> ns[i] <= MaxOf(ns, n)
    ensures MaxOf(ns, n) == 0 || MaxOf(ns, n) in ns[..n]
  {
    if n > 0 {
      MaxIs(ns, n - 1);
      assert ns[..n] == ns[..n - 1] + [ns[n - 1]];
    }
  }

  lemma NextFreeIs(files: seq<File>, lastCodes: seq<nat>)
    ensures IsNext(files, lastCodes, NextFree(files, lastCodes))
  {
    MaxIs(lastCodes, |lastCodes|);
    assert lastCodes[..|lastCodes|] == lastCodes;
    HighestIs(TreeCodes(files), Highest(TreeCodes(files)));
  }

  /** Handing out a code raises the next free one. */
  lemma HandedOut(lastCodes: seq<nat>, n: nat)
    ensures MaxOf(lastCodes + [n], |lastCodes| + 1) == Max(MaxOf(lastCodes, |lastCodes|), n)
  {
    SameMax(lastCodes, n, |lastCodes|);
  }

  lemma {:induction false} SameMax(ns: seq<nat>, n: nat, k: nat)
    requires k <= |ns|
    ensures MaxOf(ns + [n], k) == MaxOf(ns, k)
  {
    if k > 0 {
      SameMax(ns, n, k - 1);
    }
  }

  /** Where the pass stands before file `i`: no bare assert so far, the files passed rewritten,
      their codes noted, and the tree untouched if there was nothing to replace or there is a
      bare assert ahead. */
  ghost predicate Passed(tree: seq<File>, i: nat, files: seq<File>, seen: set<Numeral>, errors: nat)
    requires i <= |tree|
  {
    && files == Midway(tree, i, Highest(TreeCodes(tree)) + 1)
    && (forall k :: 0 <= k < i ==> !FileHasBare(tree[k]))
    && (Zeros(CodesBefore(tree, i)) == 0 || HasBare(tree) ==> files == tree)
    && (seen, errors) == Note({}, 0, CodesBefore(tree, i))
  }

  lemma PassStarts(tree: seq<File>)
    ensures Passed(tree, 0, tree, {}, 0)
  {
  }

  /** One more file passed. */
  lemma PassedNext(tree: seq<File>, i: nat, files: seq<File>, seen: set<Numeral>, errors: nat,
                   f: File, first: nat, lines: File)
    requires i < |tree| && Passed(tree, i, files, seen, errors) && f == tree[i]
    requires !FileHasBare(f) && (HasBare(tree) || Zeros(FileCodes(f)) == 0 ==> lines == f)
    requires first == Highest(TreeCodes(tree)) + 1 + Zeros(CodesBefore(tree, i)) && lines == FillFile(f, first)
    ensures var v := Note(seen, errors, FileCodes(f)); Passed(tree, i + 1, files[i := lines], v.0, v.1)
  {
    var before, codes, after := CodesBefore(tree, i), FileCodes(f), files[i := lines];
    assert CodesBefore(tree, i + 1) == before + codes;
    assert after == Midway(tree, i + 1, Highest(TreeCodes(tree)) + 1) by {
      MidwayNext(tree, i, Highest(TreeCodes(tree)) + 1, files, f, first, lines);
    }
    assert Zeros(before + codes) == Zeros(before) + Zeros(codes) by {
      Append(before, codes);
    }
    assert Note({}, 0, before + codes) == Note(seen, errors, codes) by {
      Append(before, codes);
    }
    if files == tree && lines == f {
      assert after == tree;
    }
  }

  lemma PassEnds(tree: seq<File>, files: seq<File>, seen: set<Numeral>, errors: nat)
    requires Passed(tree, |tree|, files, seen, errors)
    ensures !HasBare(tree) && files == Numbered(tree)
    ensures errors == 0 <==> Distinct(TreeCodes(files))
  {
    FillTreeCodes(tree, Highest(TreeCodes(tree)) + 1, |tree|);
    DuplicatesFound(TreeCodes(tree));
  }

  // -------------------------------------------------------------------- the pass

  class SourceTree {
    var files: seq<File>

    constructor (files: seq<File>)
      ensures this.files == files
    {
      this.files := files;
    }

    /** Re-reads the whole tree as it is on disk for the next free code.  Raises on a bare assert. */
    method GetNextCode(lastCodes: seq<nat>) returns (next: Option<nat>)
      ensures next == if HasBare(files) then None else Some(NextFree(files, lastCodes))
      ensures next.Some? ==> IsNext(files, lastCodes, next.value)
    {
      NextFreeIs(files, lastCodes);
      var highest := MaxOf(lastCodes, |lastCodes|);
      for i := 0 to |files|
        invariant highest == Max(MaxOf(lastCodes, |lastCodes|), Highest(CodesBefore(files, i)))
        invariant forall k :: 0 <= k < i ==> !FileHasBare(files[k])
      {
        var h := HighestInFile(files[i], highest);
        if h.None? {
          return None;
        }
        Append(CodesBefore(files, i), FileCodes(files[i]));
        highest := h.value;
      }
      return Some(highest + 1);
    }

    static method HighestInFile(f: File, start: nat) returns (h: Option<nat>)
      ensures h == if FileHasBare(f) then None else Some(Max(start, Highest(FileCodes(f))))
    {
      var highest := start;
      for i := 0 to |f|
        invariant forall k :: 0 <= k < i ==> !f[k].bareAssert
        invariant highest == Max(start, Highest(LineCodes(f, i)))
      {
        if f[i].bareAssert {
          return None;
        }
        var codes := f[i].codes;
        ghost var before := highest;
        for k := 0 to |codes|
          invariant highest == Max(before, HighestOf(codes, k))
        {
          if codes[k].value > highest {
            highest := codes[k].value;
          }
        }
        Append(LineCodes(f, i), codes);
      }
      return Some(highest);
    }

    /** One line of the pass.  A placeholder is answered by a scan of the whole tree, on disk as
        it was before the current file, together with the codes handed out for this file. */
    method AssignLine(line: Line, lastCodes: seq<nat>, seen: set<Numeral>, errors: nat)
      returns (raised: bool, out: Line, replaced: bool, lastCodes': seq<nat>, seen': set<Numeral>, errors': nat)
      ensures raised <==> line.bareAssert || (HasBare(files) && Zeros(line.codes) > 0)
      ensures !raised ==>
                && out == line.(codes := Fill(line.codes, NextFree(files, lastCodes)))
                && (replaced <==> Zeros(line.codes) > 0)
                && NextFree(files, lastCodes') == NextFree(files, lastCodes) + Zeros(line.codes)
                && (seen', errors') == Note(seen, errors, line.codes)
    {
      var codes := line.codes;
      raised, out, replaced, lastCodes', seen', errors' := line.bareAssert, line, false, lastCodes, seen, errors;
      if raised {
        return;
      }
      ghost var first := NextFree(files, lastCodes);
      var text: seq<Numeral> := [];
      for k := 0 to |codes|
        invariant text == Fill(codes, first)[..k]
        invariant NextFree(files, lastCodes') == first + ZerosBefore(codes, k)
        invariant (seen', errors') == Visit(seen, errors, codes, k)
        invariant replaced <==> ZerosBefore(codes, k) > 0
        invariant HasBare(files) ==> !replaced
      {
        var code := codes[k];
        if code == PLACEHOLDER {
          var next := GetNextCode(lastCodes');
          if next.None? {
            ZerosGrow(codes, k, |codes|);
            raised := true;
            return;
          }
          HandedOut(lastCodes', next.value);
          lastCodes' := lastCodes' + [next.value];
          code := Show(next.value);
          replaced := true;
        } else {
          if code in seen' {
            errors' := errors' + 1;
          }
          seen' := seen' + {code};
        }
        text := text + [code];
      }
      out := line.(codes := text);
    }

    /** One file of the pass, before it is written back. */
    method AssignFile(f: File, ghost first: nat, seen: set<Numeral>, errors: nat)
      returns (raised: bool, lines: File, needReplace: bool, seen': set<Numeral>, errors': nat)
      requires first == NextFree(files, [0])
      ensures raised <==> FileHasBare(f) || (HasBare(files) && Zeros(FileCodes(f)) > 0)
      ensures !raised ==>
                && lines == FillFile(f, first)
                && (!needReplace ==> lines == f)
                && (needReplace <==> Zeros(FileCodes(f)) > 0)
                && (seen', errors') == Note(seen, errors, FileCodes(f))
    {
      var lastCodes := [0];
      raised, lines, needReplace, seen', errors' := false, [], false, seen, errors;
      for i := 0 to |f|
        invariant forall k :: 0 <= k < i ==> !f[k].bareAssert
        invariant |lines| == i && forall k :: 0 <= k < i ==> lines[k] == FilledLine(f, first, k)
        invariant NextFree(files, lastCodes) == first + Zeros(LineCodes(f, i))
        invariant (seen', errors') == Note(seen, errors, LineCodes(f, i))
        invariant needReplace <==> Zeros(LineCodes(f, i)) > 0
        invariant HasBare(files) ==> !needReplace
      {
        Append(LineCodes(f, i), f[i].codes);
        var out, replaced;
        raised, out, replaced, lastCodes, seen', errors' := AssignLine(f[i], lastCodes, seen', errors');
        if raised {
          ZerosInPrefix(f, i + 1, |f|);
          return;
        }
        if replaced {
          needReplace := true;
        }
        assert out == FilledLine(f, first, i);
        lines := lines + [out];
      }
      if !needReplace {
        FillFileNone(f, first);
      }
    }

    /** The next file of the pass: read, numbered and, if any code was replaced, written back. */
    method PassFile(ghost tree: seq<File>, i: nat, seen: set<Numeral>, errors: nat)
      returns (raised: bool, seen': set<Numeral>, errors': nat)
      requires i < |tree| && Passed(tree, i, files, seen, errors)
      modifies this
      ensures raised ==> HasBare(tree) && files == tree
      ensures !raised ==> Passed(tree, i + 1, files, seen', errors')
    {
      ghost var m := Highest(TreeCodes(tree));
      ghost var first := m + 1 + Zeros(CodesBefore(tree, i));
      NextFreeMidway(tree, i, m, files);
      MidwayBare(tree, i, m + 1);
      var file := files[i];
      assert file == tree[i];
      var lines, needReplace;
      raised, lines, needReplace, seen', errors' := AssignFile(file, first, seen, errors);
      if !raised {
        PassedNext(tree, i, files, seen, errors, file, first, lines);
        if needReplace {
          files := files[i := lines];
        } else {
          assert files[i := lines] == files;
        }
      }
    }

    /** The whole pass.  A bare assert anywhere in the tree makes it raise with the tree untouched.
        Otherwise the placeholders get the numbers after the highest code, in scan order, nothing
        else changes, and the answer tells whether the tree is now free of duplicates. */
    method CheckErrorCodes() returns (ok: Option<bool>)
      modifies this
      ensures ok.None? <==> HasBare(old(files))
      ensures ok.None? ==> files == old(files)
      ensures ok.Some? ==>
                exists m :: && IsHighest(TreeCodes(old(files)), m)
                            && NumberedFrom(old(files), files, m, multiset(TreeCodes(old(files)))[PLACEHOLDER])
      ensures ok.Some? ==> files == Numbered(old(files))
      ensures ok.Some? ==> (ok.value <==> Distinct(TreeCodes(files)))
    {
      ghost var tree := files;
      var seen: set<Numeral>, errors := {}, 0;
      PassStarts(tree);
      for i := 0 to |files|
        invariant Passed(tree, i, files, seen, errors)
      {
        var raised;
        raised, seen, errors := PassFile(tree, i, seen, errors);
        if raised {
          return None;
        }
      }
      PassEnds(tree, files, seen, errors);
      HighestIs(TreeCodes(tree), Highest(TreeCodes(tree)));
      NumberedByPlace(tree, Highest(TreeCodes(tree)));
      return Some(errors == 0);
    }
  }
}
