/** The order of strings that the linter compares header names by: first difference decides. */
module StringOrder {
  predicate LessEqual(a: string, b: string) {
    if a == "" then true
    else if b == "" then false
    else if a[0] != b[0] then a[0] < b[0]
    else LessEqual(a[1..], b[1..])
  }

  lemma {:induction false} Total(a: string, b: string)
    ensures LessEqual(a, b) || LessEqual(b, a)
  {
    if a != "" && b != "" && a[0] == b[0] {
      Total(a[1..], b[1..]);
    }
  }

  lemma {:induction false} Transitive(a: string, b: string, c: string)
    requires LessEqual(a, b) && LessEqual(b, c)
    ensures LessEqual(a, c)
  {
    if a != "" && b != "" && c != "" && a[0] == b[0] == c[0] {
      Transitive(a[1..], b[1..], c[1..]);
    }
  }

  /** At the first difference the smaller character comes first. */
  lemma {:induction false} FirstDifference(a: string, b: string, i: nat)
    requires i < |a| && i < |b| && a[..i] == b[..i] && a[i] != b[i]
    ensures LessEqual(a, b) <==> a[i] < b[i]
    decreases i
  {
    if i > 0 {
      assert a[0] == a[..i][0] == b[..i][0] == b[0];
      assert a[1..][..i - 1] == a[..i][1..] == b[..i][1..] == b[1..][..i - 1];
      FirstDifference(a[1..], b[1..], i - 1);
    }
  }

  /** If there is none, the shorter string comes first. */
  lemma {:induction false} PrefixFirst(a: string, b: string)
    requires a <= b
    ensures LessEqual(a, b) && (LessEqual(b, a) <==> a == b)
  {
    if a != "" {
      PrefixFirst(a[1..], b[1..]);
    }
  }

  lemma {:induction false} Reflexive(a: string)
    ensures LessEqual(a, a)
  {
    if a != "" {
      Reflexive(a[1..]);
    }
  }
}

/** The include-order machine: which section of the include list the linter is in, and the
  greatest header name since that section began. */
module IncludeOrder {
  import opened StringOrder

  datatype Kind = CSystem | CppSystem | LikelyMine | PossiblyMine | Other

  predicate Mine(k: Kind) {
    k.LikelyMine? || k.PossiblyMine?
  }

  const INITIAL_SECTION := 0
  const MY_H_SECTION := 1
  const C_SECTION := 2
  const CPP_SECTION := 3
  const OTHER_H_SECTION := 4

  /** A header that is checked: its kind and its canonical name. */
  datatype Header = Header(kind: Kind, name: string)

  datatype State = State(section: int, lastHeader: string)

  const START := State(INITIAL_SECTION, "")

  predicate OrderError(section: int, k: Kind) {
    (k.CSystem? && section > C_SECTION) || (k.CppSystem? && section > CPP_SECTION)
  }

  function NextSection(section: int, k: Kind): int {
    if OrderError(section, k) then section
    else match k
      case CSystem => C_SECTION
      case CppSystem => CPP_SECTION
      case Other => OTHER_H_SECTION
      case _ => if section <= MY_H_SECTION then MY_H_SECTION else OTHER_H_SECTION
  }

  /** The header begins a new block: an order error or a new section forgets the last name. */
  predicate Resets(section: int, k: Kind) {
    OrderError(section, k) || NextSection(section, k) != section
  }

  function AfterOrder(s: State, k: Kind): State {
    State(NextSection(s.section, k), if Resets(s.section, k) then "" else s.lastHeader)
  }

  function Step(s: State, h: Header): State {
    var t := AfterOrder(s, h.kind);
    if LessEqual(t.lastHeader, h.name) then t.(lastHeader := h.name) else t
  }

  function Run(hs: seq<Header>, n: nat): State
    requires n <= |hs|
  {
    if n == 0 then START else Step(Run(hs, n - 1), hs[n - 1])
  }

  // ------------------------------------------------------------------ the sections

  ghost predicate Has(hs: seq<Header>, n: nat, k: Kind)
    requires n <= |hs|
  {
    exists x :: 0 <= x < n && hs[x].kind == k
  }

  /** An own header has come after one that is not. */
  ghost predicate LateMine(hs: seq<Header>, n: nat)
    requires n <= |hs|
  {
    exists x, y :: 0 <= x < y < n && !Mine(hs[x].kind) && Mine(hs[y].kind)
  }

  ghost predicate InOthers(hs: seq<Header>, n: nat)
    requires n <= |hs|
  {
    Has(hs, n, Other) || LateMine(hs, n)
  }

  /** The section told from the kinds met, in whatever order: 4 from an other header or a late own
      one on, else 3 from a C++ header on, else 2 from a C header on, else 1 from any header on. */
  lemma {:induction false} SectionIs(hs: seq<Header>, n: nat)
    requires n <= |hs|
    ensures Run(hs, n).section ==
            if InOthers(hs, n) then 4 else if Has(hs, n, CppSystem) then 3 else if Has(hs, n, CSystem) then 2
            else if n > 0 then 1 else 0
  {
    if n > 0 {
      SectionIs(hs, n - 1);
      KindsStep(hs, n);
    }
  }

  lemma KindsStep(hs: seq<Header>, n: nat)
    requires 0 < n <= |hs|
    ensures forall k :: Has(hs, n, k) <==> Has(hs, n - 1, k) || hs[n - 1].kind == k
    ensures var foreign := Has(hs, n - 1, CSystem) || Has(hs, n - 1, CppSystem) || Has(hs, n - 1, Other);
            LateMine(hs, n) <==> LateMine(hs, n - 1) || (foreign && Mine(hs[n - 1].kind))
  {
    if x :| 0 <= x < n - 1 && !Mine(hs[x].kind) && Mine(hs[n - 1].kind) {
      assert LateMine(hs, n);
      assert hs[x].kind == CSystem || hs[x].kind == CppSystem || hs[x].kind == Other;
    }
    if x, y :| 0 <= x < y < n - 1 && !Mine(hs[x].kind) && Mine(hs[y].kind) {
      assert LateMine(hs, n);
    }
  }

  /** A header is out of order exactly if it is a C header after a C++ one, an other one or a late own
      one, or a C++ header after one of the last two. */
  lemma OrderErrorIff(hs: seq<Header>, n: nat)
    requires n < |hs|
    ensures OrderErrorAt(hs, n) <==>
            || (hs[n].kind.CSystem? && (Has(hs, n, CppSystem) || InOthers(hs, n)))
            || (hs[n].kind.CppSystem? && InOthers(hs, n))
  {
    SectionIs(hs, n);
  }

  lemma {:induction false} SectionGrows(hs: seq<Header>, m: nat, n: nat)
    requires m <= n <= |hs|
    ensures INITIAL_SECTION <= Run(hs, m).section <= Run(hs, n).section <= OTHER_H_SECTION
    decreases n
  {
    if n > 0 {
      if m == n {
        SectionGrows(hs, n - 1, n - 1);
      } else {
        SectionGrows(hs, m, n - 1);
      }
    }
  }

  predicate OrderErrorAt(hs: seq<Header>, x: nat)
    requires x < |hs|
  {
    OrderError(Run(hs, x).section, hs[x].kind)
  }

  ghost predicate NoOrderError(hs: seq<Header>, n: nat)
    requires n <= |hs|
  {
    forall x {:trigger OrderErrorAt(hs, x)} :: 0 <= x < n ==> !OrderErrorAt(hs, x)
  }

  /** Own headers, then C headers, then C++ headers, then own and other headers. */
  ghost predicate Split(hs: seq<Header>, n: nat, i: nat, j: nat, k: nat)
    requires n <= |hs|
  {
    && i <= j <= k <= n
    && (forall x :: 0 <= x < i ==> Mine(hs[x].kind))
    && (forall x :: i <= x < j ==> hs[x].kind.CSystem?)
    && (forall x :: j <= x < k ==> hs[x].kind.CppSystem?)
    && (forall x :: k <= x < n ==> Mine(hs[x].kind) || hs[x].kind.Other?)
  }

  function SectionOf(n: nat, i: nat, j: nat, k: nat): int {
    if k < n then OTHER_H_SECTION else if j < n then CPP_SECTION else if i < n then C_SECTION
    else if n > 0 then MY_H_SECTION else INITIAL_SECTION
  }

  /** One more header without an error moves the three borders along. */
  lemma SplitStep(hs: seq<Header>, n: nat, i: nat, j: nat, k: nat) returns (i': nat, j': nat, k': nat)
    requires n < |hs| && Split(hs, n, i, j, k) && !OrderError(SectionOf(n, i, j, k), hs[n].kind)
    ensures Split(hs, n + 1, i', j', k')
    ensures SectionOf(n + 1, i', j', k') == NextSection(SectionOf(n, i, j, k), hs[n].kind)
  {
    i', j', k' := i, j, k;
    match hs[n].kind {
      case CSystem => j', k' := n + 1, n + 1;
      case CppSystem => k' := n + 1;
      case Other =>
      case _ =>
        if SectionOf(n, i, j, k) <= MY_H_SECTION {
          i', j', k' := n + 1, n + 1, n + 1;
        }
    }
  }

  lemma {:induction false} SplitOfRun(hs: seq<Header>, n: nat) returns (i: nat, j: nat, k: nat)
    requires n <= |hs| && NoOrderError(hs, n)
    ensures Split(hs, n, i, j, k) && Run(hs, n).section == SectionOf(n, i, j, k)
  {
    if n == 0 {
      i, j, k := 0, 0, 0;
    } else {
      assert !OrderErrorAt(hs, n - 1);
      i, j, k := SplitOfRun(hs, n - 1);
      i, j, k := SplitStep(hs, n - 1, i, j, k);
    }
  }

  lemma {:induction false} RunOfSplit(hs: seq<Header>, n: nat, m: nat, i: nat, j: nat, k: nat)
    requires m <= n <= |hs| && Split(hs, n, i, j, k)
    ensures NoOrderError(hs, m)
    ensures m <= i ==> Run(hs, m).section <= MY_H_SECTION
    ensures m <= j ==> Run(hs, m).section <= C_SECTION
    ensures m <= k ==> Run(hs, m).section <= CPP_SECTION
    decreases m
  {
    if m > 0 {
      RunOfSplit(hs, n, m - 1, i, j, k);
      assert !OrderErrorAt(hs, m - 1);
    }
  }

  /** No order error is reported exactly for the lists of the promised shape. */
  lemma NoOrderErrorIff(hs: seq<Header>)
    ensures NoOrderError(hs, |hs|) <==> exists i, j, k :: Split(hs, |hs|, i, j, k)
  {
    if NoOrderError(hs, |hs|) {
      var i, j, k := SplitOfRun(hs, |hs|);
    }
    forall i, j, k | Split(hs, |hs|, i, j, k) ensures NoOrderError(hs, |hs|) {
      RunOfSplit(hs, |hs|, |hs|, i, j, k);
    }
  }

  // -------------------------------------------------------------- the alphabet

  predicate AlphaErrorAt(hs: seq<Header>, x: nat)
    requires x < |hs|
  {
    !LessEqual(AfterOrder(Run(hs, x), hs[x].kind).lastHeader, hs[x].name)
  }

  /** Header `z` is not out of order and brings no new section. */
  predicate Stays(hs: seq<Header>, z: nat)
    requires z < |hs|
  {
    !OrderErrorAt(hs, z) && Run(hs, z).section == Run(hs, z + 1).section
  }

  /** No header from `x + 1` up to `n` is out of order or brings a new section. */
  ghost predicate Together(hs: seq<Header>, x: nat, n: nat)
    requires n < |hs|
  {
    forall z {:trigger Stays(hs, z)} :: x < z <= n ==> Stays(hs, z)
  }

  lemma TogetherStep(hs: seq<Header>, x: nat, n: nat)
    requires x < n < |hs|
    ensures Together(hs, x, n) <==> Together(hs, x, n - 1) && !Resets(Run(hs, n).section, hs[n].kind)
  {
    assert Stays(hs, n) <==> !Resets(Run(hs, n).section, hs[n].kind);
    if Together(hs, x, n) {
      forall z | x < z <= n - 1 ensures Stays(hs, z) {
      }
    }
  }

  /** The last name remembered is the greatest of those met together with the last header. */
  ghost predicate Greatest(hs: seq<Header>, n: nat, last: string)
    requires n < |hs|
  {
    && (forall x {:trigger Together(hs, x, n)} :: 0 <= x <= n && Together(hs, x, n) ==> LessEqual(hs[x].name, last))
    && exists x {:trigger Together(hs, x, n)} :: 0 <= x <= n && Together(hs, x, n) && hs[x].name == last
  }

  lemma FirstOfBlock(hs: seq<Header>, n: nat)
    requires n < |hs| && (n == 0 || Resets(Run(hs, n).section, hs[n].kind))
    ensures Together(hs, n, n) && forall x {:trigger Together(hs, x, n)} :: 0 <= x < n ==> !Together(hs, x, n)
    ensures Run(hs, n + 1).lastHeader == hs[n].name
  {
    forall x | 0 <= x < n ensures !Together(hs, x, n) {
      TogetherStep(hs, x, n);
    }
    assert AfterOrder(Run(hs, n), hs[n].kind).lastHeader == "";
    assert LessEqual("", hs[n].name);
  }

  lemma {:induction false} LastIsGreatest(hs: seq<Header>, n: nat)
    requires n < |hs|
    ensures Greatest(hs, n, Run(hs, n + 1).lastHeader)
  {
    var s, h := Run(hs, n), hs[n];
    Reflexive(h.name);
    if n == 0 || Resets(s.section, h.kind) {
      FirstOfBlock(hs, n);
    } else {
      LastIsGreatest(hs, n - 1);
      NextOfBlock(hs, n, s.lastHeader);
    }
  }

  lemma NextOfBlock(hs: seq<Header>, n: nat, last: string)
    requires 0 < n < |hs| && !Resets(Run(hs, n).section, hs[n].kind) && Greatest(hs, n - 1, last)
    ensures Greatest(hs, n, if LessEqual(last, hs[n].name) then hs[n].name else last)
  {
    var h, top := hs[n], if LessEqual(last, hs[n].name) then hs[n].name else last;
    Total(last, h.name);
    Reflexive(h.name);
    assert Together(hs, n, n);
    forall x | 0 <= x <= n && Together(hs, x, n) ensures LessEqual(hs[x].name, top) {
      if x < n {
        TogetherStep(hs, x, n);
        if top == h.name {
          Transitive(hs[x].name, last, h.name);
        }
      }
    }
    if !LessEqual(last, h.name) {
      var m := n - 1;
      var x :| 0 <= x <= m && Together(hs, x, m) && hs[x].name == last;
      TogetherStep(hs, x, n);
    }
  }

  /** An earlier header has a greater name, and from that one to this none is out of order or brings
      a new section. */
  ghost predicate Overtaken(hs: seq<Header>, n: nat)
    requires n < |hs|
  {
    exists x {:trigger Together(hs, x, n)} :: 0 <= x < n && Together(hs, x, n) && !LessEqual(hs[x].name, hs[n].name)
  }

  lemma ReportedOvertaken(hs: seq<Header>, n: nat, last: string)
    requires 0 < n < |hs| && !Resets(Run(hs, n).section, hs[n].kind) && Greatest(hs, n - 1, last)
    requires !LessEqual(last, hs[n].name)
    ensures Overtaken(hs, n)
  {
    var m := n - 1;
    var x :| 0 <= x <= m && Together(hs, x, m) && hs[x].name == last;
    TogetherStep(hs, x, n);
  }

  lemma InOrderNotOvertaken(hs: seq<Header>, n: nat, last: string)
    requires 0 < n < |hs| && !Resets(Run(hs, n).section, hs[n].kind) && Greatest(hs, n - 1, last)
    requires LessEqual(last, hs[n].name)
    ensures !Overtaken(hs, n)
  {
    forall x | 0 <= x < n && Together(hs, x, n) ensures LessEqual(hs[x].name, hs[n].name) {
      TogetherStep(hs, x, n);
      Transitive(hs[x].name, last, hs[n].name);
    }
  }

  /** A header is reported exactly when it is overtaken in this way. */
  lemma AlphaErrorIff(hs: seq<Header>, n: nat)
    requires n < |hs|
    ensures AlphaErrorAt(hs, n) <==> Overtaken(hs, n)
  {
    var last := Run(hs, n).lastHeader;
    if n == 0 || Resets(Run(hs, n).section, hs[n].kind) {
      FirstOfBlock(hs, n);
    } else {
      LastIsGreatest(hs, n - 1);
      if AlphaErrorAt(hs, n) {
        ReportedOvertaken(hs, n, last);
      } else {
        InOrderNotOvertaken(hs, n, last);
      }
    }
  }

  /** From `lo` up to header `hi` the names are sorted. */
  ghost predicate Sorted(hs: seq<Header>, lo: nat, hi: nat)
    requires hi < |hs|
  {
    forall x, y :: lo <= x < y <= hi ==> LessEqual(hs[x].name, hs[y].name)
  }

  lemma TogetherParts(hs: seq<Header>, lo: nat, x: nat, y: nat, hi: nat)
    requires lo <= x <= y <= hi < |hs| && Together(hs, lo, hi)
    ensures Together(hs, x, y)
  {
    forall z | x < z <= y ensures Stays(hs, z) {
    }
  }

  /** Where the section stays and nothing is out of order, there is no alphabetical report on a
      header because of one of the headers before it if and only if their names are sorted. */
  lemma BlockSortedIff(hs: seq<Header>, lo: nat, hi: nat)
    requires lo <= hi < |hs| && Together(hs, lo, hi) && (lo == 0 || !Together(hs, lo - 1, hi))
    ensures (forall y :: lo <= y <= hi ==> !AlphaErrorAt(hs, y)) <==> Sorted(hs, lo, hi)
  {
    forall y | lo <= y <= hi
      ensures AlphaErrorAt(hs, y) <==> exists x :: lo <= x < y && !LessEqual(hs[x].name, hs[y].name)
    {
      ReportedInBlock(hs, lo, y, hi);
    }
    if Sorted(hs, lo, hi) {
    } else {
      var x, y :| lo <= x < y <= hi && !LessEqual(hs[x].name, hs[y].name);
      assert AlphaErrorAt(hs, y);
    }
  }

  lemma ReportedInBlock(hs: seq<Header>, lo: nat, y: nat, hi: nat)
    requires lo <= y <= hi < |hs| && Together(hs, lo, hi) && (lo == 0 || !Together(hs, lo - 1, hi))
    ensures AlphaErrorAt(hs, y) <==> exists x :: lo <= x < y && !LessEqual(hs[x].name, hs[y].name)
  {
    AlphaErrorIff(hs, y);
    forall x | 0 <= x < y ensures Together(hs, x, y) <==> lo <= x {
      if lo <= x {
        TogetherParts(hs, lo, x, y, hi);
      } else if Together(hs, x, y) {
        JoinTogether(hs, x, lo, y, hi);
      }
    }
    if x :| lo <= x < y && !LessEqual(hs[x].name, hs[y].name) {
      assert Together(hs, x, y);
    }
  }

  lemma JoinTogether(hs: seq<Header>, x: nat, lo: nat, y: nat, hi: nat)
    requires x < lo <= y <= hi < |hs| && Together(hs, x, y) && Together(hs, lo, hi)
    ensures Together(hs, lo - 1, hi)
  {
    forall z | lo - 1 < z <= hi ensures Stays(hs, z) {
    }
  }

  // ---------------------------------------------------------------- the state object

  datatype Report = AlreadyIncluded | Checked(orderError: bool, alphaError: bool)

  class IncludeState {
    const canonical: string -> string
    var included: set<string>
    var section: int
    var lastHeader: string
    /** The headers checked so far. */
    ghost var checked: seq<Header>

    ghost predicate Valid()
      reads this
    {
      State(section, lastHeader) == Run(checked, |checked|)
    }

    constructor (canonical: string -> string)
      ensures Valid() && checked == [] && included == {} && this.canonical == canonical
    {
      this.canonical := canonical;
      included, section, lastHeader, checked := {}, INITIAL_SECTION, "", [];
    }

    method CheckNextIncludeOrder(k: Kind) returns (error: bool)
      modifies `section, `lastHeader
      ensures error <==> OrderError(old(section), k)
      ensures State(section, lastHeader) == AfterOrder(State(old(section), old(lastHeader)), k)
    {
      var last := section;
      if k.CSystem? {
        if section <= C_SECTION {
          section := C_SECTION;
        } else {
          lastHeader := "";
          return true;
        }
      } else if k.CppSystem? {
        if section <= CPP_SECTION {
          section := CPP_SECTION;
        } else {
          lastHeader := "";
          return true;
        }
      } else if Mine(k) {
        if section <= MY_H_SECTION {
          section := MY_H_SECTION;
        } else {
          section := OTHER_H_SECTION;
        }
      } else {
        section := OTHER_H_SECTION;
      }
      if last != section {
        lastHeader := "";
      }
      return false;
    }

    method IsInAlphabeticalOrder(path: string) returns (ok: bool)
      modifies `lastHeader
      ensures ok <==> LessEqual(old(lastHeader), canonical(path))
      ensures lastHeader == if ok then canonical(path) else old(lastHeader)
    {
      var name := canonical(path);
      if !LessEqual(lastHeader, name) {
        return false;
      }
      lastHeader := name;
      return true;
    }

    /** One include line.  What is reported is told from the headers checked before it. */
    method Include(path: string, k: Kind) returns (r: Report)
      requires Valid()
      modifies this
      ensures Valid()
      ensures path in old(included) ==>
                r == AlreadyIncluded && included == old(included) && checked == old(checked)
      ensures path !in old(included) ==>
                var hs, n := checked, |old(checked)|;
                && included == old(included) + {path}
                && hs == old(checked) + [Header(k, canonical(path))]
                && r.Checked?
                && (r.orderError <==> OrderErrorAt(hs, n))
                && (r.alphaError <==> Overtaken(hs, n))
    {
      if path in included {
        return AlreadyIncluded;
      }
      included := included + {path};
      NextHeader(checked, Header(k, canonical(path)));
      checked := checked + [Header(k, canonical(path))];
      var orderError := CheckNextIncludeOrder(k);
      var ok := IsInAlphabeticalOrder(path);
      return Checked(orderError, !ok);
    }
  }

  /** What the machine says of one more header. */
  lemma NextHeader(hs: seq<Header>, h: Header)
    ensures var more, n, s := hs + [h], |hs|, Run(hs, |hs|);
            && Run(more, n + 1) == Step(s, h)
            && (OrderErrorAt(more, n) <==> OrderError(s.section, h.kind))
            && (Overtaken(more, n) <==> !LessEqual(AfterOrder(s, h.kind).lastHeader, h.name))
  {
    var more := hs + [h];
    SameRun(hs, more, |hs|);
    AlphaErrorIff(more, |hs|);
    assert more[|hs|] == h;
  }

  lemma {:induction false} SameRun(a: seq<Header>, b: seq<Header>, n: nat)
    requires n <= |a| && a <= b
    ensures Run(b, n) == Run(a, n)
  {
    if n > 0 {
      SameRun(a, b, n - 1);
    }
  }
}
