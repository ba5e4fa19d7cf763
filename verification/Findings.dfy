/**
 The final list of findings: sorted by position and rule, with repeats of a rule
 at one position dropped, and exactly when that list does not depend on the
 order in which rules ran and matches came.
 */
module Findings {
  import opened Common
  import opened StableSort

  datatype Severity = Info | Warning | Error

  datatype Span = Span(startLine: nat, startCol: nat, endLine: nat, endCol: nat)

  datatype Finding = Finding(rule: string, cwe: string, severity: Severity, span: Span)

  /** Dictionary order. */
  predicate Leq(a: string, b: string) {
    a == [] || (b != [] && (a[0] < b[0] || (a[0] == b[0] && Leq(a[1..], b[1..]))))
  }

  lemma {:induction false} LeqTotal(a: string, b: string)
    ensures Leq(a, b) || Leq(b, a)
    ensures Leq(a, b) && Leq(b, a) ==> a == b
  {
    if a != [] && b != [] && a[0] == b[0] {
      LeqTotal(a[1..], b[1..]);
      assert a == [a[0]] + a[1..] && b == [b[0]] + b[1..];
    }
  }

  lemma {:induction false} LeqTransitive(a: string, b: string, c: string)
    requires Leq(a, b) && Leq(b, c)
    ensures Leq(a, c)
  {
    if a != [] && a[0] == b[0] == c[0] {
      LeqTransitive(a[1..], b[1..], c[1..]);
    }
  }

  /** Position first, then rule. */
  predicate Before(a: Finding, b: Finding) {
    if a.span.startLine != b.span.startLine then a.span.startLine < b.span.startLine
    else if a.span.startCol != b.span.startCol then a.span.startCol < b.span.startCol
    else Leq(a.rule, b.rule)
  }

  /** One rule at one position. */
  predicate SameKey(a: Finding, b: Finding) {
    a.rule == b.rule && a.span.startLine == b.span.startLine && a.span.startCol == b.span.startCol
  }

  lemma BeforeIsTotal()
    ensures TotalPreorder(Before)
    ensures forall a, b :: Before(a, b) && Before(b, a) <==> SameKey(a, b)
  {
    forall a, b ensures (Before(a, b) || Before(b, a)) && (Before(a, b) && Before(b, a) <==> SameKey(a, b)) {
      LeqTotal(a.rule, b.rule);
      if SameKey(a, b) {
        LeqTotal(a.rule, a.rule);
      }
    }
    forall a, b, c | Before(a, b) && Before(b, c) ensures Before(a, c) {
      if Leq(a.rule, b.rule) && Leq(b.rule, c.rule) {
        LeqTransitive(a.rule, b.rule, c.rule);
      }
    }
  }

  /** Drop every element that repeats the key of the one kept before it. */
  function Dedup(fs: seq<Finding>): seq<Finding> {
    if fs == [] then []
    else
      var kept := Dedup(Init(fs));
      if kept != [] && SameKey(Last(fs), Last(kept)) then kept else kept + [Last(fs)]
  }

  function OrderFindings(fs: seq<Finding>): seq<Finding> {
    Dedup(Sort(fs, Before))
  }

  /** The findings of one rule at one position, in the order they came. */
  function Alike(fs: seq<Finding>, key: Finding): seq<Finding> {
    if fs == [] then [] else Alike(Init(fs), key) + if SameKey(Last(fs), key) then [Last(fs)] else []
  }

  // --------------------------------------------------------------- stability

  lemma {:induction false} AlikeAreTies(fs: seq<Finding>, key: Finding)
    ensures Alike(fs, key) == Ties(fs, key, Before)
  {
    if fs != [] {
      BeforeIsTotal();
      AlikeAreTies(Init(fs), key);
      assert SameKey(Last(fs), key) <==> Before(Last(fs), key) && Before(key, Last(fs));
    }
  }

  lemma SortKeepsAlike(fs: seq<Finding>, key: Finding)
    ensures Alike(Sort(fs, Before), key) == Alike(fs, key)
  {
    BeforeIsTotal();
    SortIsStable(fs, key, Before);
    AlikeAreTies(fs, key);
    AlikeAreTies(Sort(fs, Before), key);
  }

  lemma {:induction false} AlikeMembers(fs: seq<Finding>, key: Finding)
    ensures forall f :: f in Alike(fs, key) <==> f in fs && SameKey(f, key)
  {
    if fs != [] {
      AlikeMembers(Init(fs), key);
      assert fs == Init(fs) + [Last(fs)];
    }
  }

  // ----------------------------------------------------------- deduplication

  ghost predicate StrictlyOrdered(fs: seq<Finding>) {
    forall i, j | 0 <= i < j < |fs| :: Before(fs[i], fs[j]) && !SameKey(fs[i], fs[j])
  }

  /** The first of its rule at its position. */
  predicate IsFirst(fs: seq<Finding>, f: Finding) {
    Alike(fs, f) != [] && Alike(fs, f)[0] == f
  }

  /** Of an ordered list, deduplication keeps the first of each key and nothing else. */
  lemma {:induction false} DedupKeepsFirsts(fs: seq<Finding>)
    requires Ordered(fs, Before)
    ensures StrictlyOrdered(Dedup(fs)) && forall f :: f in Dedup(fs) <==> IsFirst(fs, f)
    ensures fs != [] ==> Dedup(fs) != [] && SameKey(Last(Dedup(fs)), Last(fs))
  {
    if fs != [] {
      var rest, last := Init(fs), Last(fs);
      var kept := Dedup(rest);
      DedupKeepsFirsts(rest);
      KeptAreMembers(rest);
      LastRepeats(fs);
      forall f ensures f in Dedup(fs) <==> IsFirst(fs, f) {
        FirstsOfLonger(fs, f);
        assert f in kept <==> IsFirst(rest, f);
      }
      BeforeIsTotal();
      forall i | 0 <= i < |kept| ensures Before(kept[i], last) && (Dedup(fs) != kept ==> !SameKey(kept[i], last)) {
        assert kept[i] in rest;
      }
    }
  }

  /** One more element is a first exactly when no earlier one has its key, and changes nothing for the others. */
  lemma FirstsOfLonger(fs: seq<Finding>, f: Finding)
    requires fs != []
    ensures var repeats := exists g :: g in Init(fs) && SameKey(g, Last(fs));
            IsFirst(fs, f) <==> IsFirst(Init(fs), f) || (!repeats && f == Last(fs))
  {
    var rest, last := Init(fs), Last(fs);
    AlikeMembers(rest, f);
    if Alike(rest, f) != [] {
      assert Alike(rest, f)[0] in rest;
    }
  }

  lemma {:induction false} KeptAreMembers(fs: seq<Finding>)
    ensures forall f | f in Dedup(fs) :: f in fs
  {
    if fs != [] {
      KeptAreMembers(Init(fs));
      assert fs == Init(fs) + [Last(fs)];
    }
  }

  /** In an ordered list the last element's key occurs before it only right before it. */
  lemma LastRepeats(fs: seq<Finding>)
    requires fs != [] && Ordered(fs, Before)
    ensures (exists f :: f in Init(fs) && SameKey(f, Last(fs))) <==> |fs| > 1 && SameKey(fs[|fs| - 2], Last(fs))
  {
    BeforeIsTotal();
    if f :| f in Init(fs) && SameKey(f, Last(fs)) {
      var i :| 0 <= i < |fs| - 1 && fs[i] == f;
      assert i == |fs| - 2 || Before(fs[i], fs[|fs| - 2]);
      assert Before(fs[|fs| - 2], Last(fs));
    } else if |fs| > 1 {
      assert fs[|fs| - 2] in Init(fs);
    }
  }

  /**
   The list is strictly increasing in position and rule, and holds, for every
   rule and position with a finding, the one that came first.
   */
  lemma OrderedAndFirst(fs: seq<Finding>)
    ensures StrictlyOrdered(OrderFindings(fs)) && forall f :: f in OrderFindings(fs) <==> IsFirst(fs, f)
  {
    BeforeIsTotal();
    SortOrders(fs, Before);
    DedupKeepsFirsts(Sort(fs, Before));
    forall f ensures f in OrderFindings(fs) <==> IsFirst(fs, f) {
      SortKeepsAlike(fs, f);
    }
  }

  /** The two agree in their first `k` characters, and there `a` ends or has the smaller character. */
  predicate ComesAt(a: string, b: string, k: nat) {
    k <= |a| && k < |b| && a[..k] == b[..k] && (k == |a| || a[k] < b[k])
  }

  /** `a` comes before `b` in the dictionary. */
  ghost predicate Earlier(a: string, b: string) {
    exists k: nat :: ComesAt(a, b, k)
  }

  lemma {:induction false} ComesBefore(a: string, b: string, k: nat)
    requires ComesAt(a, b, k)
    ensures Leq(a, b) && a != b
  {
    if k > 0 {
      assert a[0] == a[..k][0] == b[..k][0] == b[0];
      assert a[1..][..k - 1] == a[..k][1..] && b[1..][..k - 1] == b[..k][1..];
      ComesBefore(a[1..], b[1..], k - 1);
    }
  }

  lemma {:induction false} FirstDifference(a: string, b: string) returns (k: nat)
    requires Leq(a, b) && a != b
    ensures ComesAt(a, b, k)
  {
    if a == [] || a[0] != b[0] {
      k := 0;
    } else {
      assert a == [a[0]] + a[1..] && b == [b[0]] + b[1..];
      var m := FirstDifference(a[1..], b[1..]);
      k := m + 1;
      assert a[..k] == [a[0]] + a[1..][..m] && b[..k] == [b[0]] + b[1..][..m];
    }
  }

  lemma EarlierIff(a: string, b: string)
    ensures Earlier(a, b) <==> Leq(a, b) && a != b
  {
    hide Leq, ComesAt;
    if Earlier(a, b) {
      var k: nat :| ComesAt(a, b, k);
      ComesBefore(a, b, k);
    }
    if Leq(a, b) && a != b {
      var k := FirstDifference(a, b);
    }
  }

  /** In the list, lines come first, then columns, then rules by the dictionary. */
  lemma ListOrder(fs: seq<Finding>, i: nat, j: nat)
    requires i < j < |OrderFindings(fs)|
    ensures var (a, b) := (OrderFindings(fs)[i], OrderFindings(fs)[j]);
            || a.span.startLine < b.span.startLine
            || (a.span.startLine == b.span.startLine && a.span.startCol < b.span.startCol)
            || (a.span.startLine == b.span.startLine && a.span.startCol == b.span.startCol && Earlier(a.rule, b.rule))
  {
    OrderedAndFirst(fs);
    EarlierIff(OrderFindings(fs)[i].rule, OrderFindings(fs)[j].rule);
  }

  /** The list holds a finding exactly when no earlier one has its rule, line and column. */
  lemma ListHoldsIff(fs: seq<Finding>, f: Finding)
    ensures f in OrderFindings(fs)
            <==> exists i :: 0 <= i < |fs| && fs[i] == f && forall j | 0 <= j < i ::
                   || fs[j].rule != f.rule
                   || fs[j].span.startLine != f.span.startLine || fs[j].span.startCol != f.span.startCol
  {
    OrderedAndFirst(fs);
    FirstIff(fs, f);
  }

  lemma {:induction false} FirstIff(fs: seq<Finding>, f: Finding)
    ensures IsFirst(fs, f) <==> exists i :: 0 <= i < |fs| && fs[i] == f && forall j | 0 <= j < i :: !SameKey(fs[j], f)
  {
    if fs != [] {
      FirstIff(Init(fs), f);
      FirstsOfLonger(fs, f);
      var n := |fs| - 1;
      assert forall i | 0 <= i < n :: Init(fs)[i] == fs[i];
      if IsFirst(Init(fs), f) {
        var i :| 0 <= i < n && Init(fs)[i] == f && forall j | 0 <= j < i :: !SameKey(Init(fs)[j], f);
        assert fs[i] == f && forall j | 0 <= j < i :: !SameKey(fs[j], f);
      }
      if i :| 0 <= i < |fs| && fs[i] == f && forall j | 0 <= j < i :: !SameKey(fs[j], f) {
        if i < n {
          assert Init(fs)[i] == f && forall j | 0 <= j < i :: !SameKey(Init(fs)[j], f);
        } else {
          assert f == Last(fs);
          assert forall g | g in Init(fs) :: !SameKey(g, Last(fs));
        }
      }
      if !IsFirst(Init(fs), f) && IsFirst(fs, f) {
        assert fs[n] == f;
        forall j | 0 <= j < n ensures !SameKey(fs[j], f) {
          assert fs[j] in Init(fs);
        }
      }
    }
  }

  // ----------------------------------------------------- independence of order

  /** No rule has two different findings at one position. */
  ghost predicate OnePerPlace(fs: seq<Finding>) {
    forall f, g | f in fs && g in fs && SameKey(f, g) :: f == g
  }

  lemma {:induction false} SameMembersSameList(a: seq<Finding>, b: seq<Finding>)
    requires StrictlyOrdered(a) && StrictlyOrdered(b) && forall f :: f in a <==> f in b
    ensures a == b
  {
    HasMember(a);
    HasMember(b);
    if a != [] && b != [] {
      assert Last(a) in b && Last(b) in a;
      LastIsGreatest(a, Last(b));
      LastIsGreatest(b, Last(a));
      BeforeIsTotal();
      InitMembers(a);
      InitMembers(b);
      SameMembersSameList(Init(a), Init(b));
      assert a == Init(a) + [Last(a)] && b == Init(b) + [Last(b)];
    }
  }

  lemma HasMember(fs: seq<Finding>)
    ensures fs == [] || exists f :: f in fs
  {
    if fs != [] {
      assert fs[0] in fs;
    }
  }

  lemma LastIsGreatest(fs: seq<Finding>, f: Finding)
    requires StrictlyOrdered(fs) && f in fs
    ensures f == Last(fs) || (Before(f, Last(fs)) && !SameKey(f, Last(fs)))
  {
    var i :| 0 <= i < |fs| && fs[i] == f;
  }

  lemma InitMembers(fs: seq<Finding>)
    requires fs != [] && StrictlyOrdered(fs)
    ensures forall f :: f in Init(fs) <==> f in fs && f != Last(fs)
  {
    assert fs == Init(fs) + [Last(fs)];
    forall f | f in Init(fs) ensures f != Last(fs) {
      var i :| 0 <= i < |fs| - 1 && fs[i] == f;
      assert !SameKey(fs[i], Last(fs));
    }
  }

  /** The same findings in any order give the same list. */
  ghost predicate OrderIrrelevant(fs: seq<Finding>) {
    forall gs | multiset(gs) == multiset(fs) :: OrderFindings(gs) == OrderFindings(fs)
  }

  /**
   The list is the same whatever order the rules ran in and the matches came in,
   if and only if no rule has two different findings that start at one place.
   */
  lemma OrderIrrelevantIff(fs: seq<Finding>)
    ensures OrderIrrelevant(fs) <==> OnePerPlace(fs)
  {
    hide OrderFindings;
    if OnePerPlace(fs) {
      forall gs | multiset(gs) == multiset(fs) ensures OrderFindings(gs) == OrderFindings(fs) {
        OnePerPlaceSame(fs, gs);
      }
    } else {
      var f, g :| f in fs && g in fs && SameKey(f, g) && f != g;
      var rest := TwoToTheFront(fs, f, g);
      var a, b := [f] + ([g] + rest), [g] + ([f] + rest);
      EitherFirst(f, g, rest);
      assert OrderFindings(a) != OrderFindings(fs) || OrderFindings(b) != OrderFindings(fs);
    }
  }

  /**
   Nested subscripts are such findings: in `a[strlen(s) - 1][strlen(t) - 1]` the
   rule on indices at the end of a buffer matches the whole expression and its
   first part, which start at one place and end at two.
   */
  lemma NestedSubscriptsDependOnOrder(line: nat, column: nat)
    ensures var part := BufferEnd(Span(line, column, line, column + 16));
            var whole := BufferEnd(Span(line, column, line, column + 31));
            OrderFindings([part, whole]) == [part] && OrderFindings([whole, part]) == [whole]
  {
    var part := BufferEnd(Span(line, column, line, column + 16));
    var whole := BufferEnd(Span(line, column, line, column + 31));
    LeqTotal(part.rule, part.rule);
    SortKeepsOrdered([part, whole], Before);
    SortKeepsOrdered([whole, part], Before);
    assert Init([part, whole]) == [part] && Init([whole, part]) == [whole] && Init([part]) == [] && Init([whole]) == [];
    assert Dedup([part]) == [part] && Dedup([whole]) == [whole];
  }

  function BufferEnd(span: Span): Finding {
    Finding("index-at-" + "buffer-size", "CWE-193", Warning, span)
  }

  function Remove(fs: seq<Finding>, i: nat): (r: seq<Finding>)
    requires i < |fs|
    ensures multiset(fs) == multiset{fs[i]} + multiset(r)
  {
    assert fs == fs[..i] + [fs[i]] + fs[i + 1..];
    fs[..i] + fs[i + 1..]
  }

  lemma TwoToTheFront(fs: seq<Finding>, f: Finding, g: Finding) returns (rest: seq<Finding>)
    requires f in fs && g in fs && f != g
    ensures multiset(fs) == multiset{f, g} + multiset(rest)
  {
    var i :| 0 <= i < |fs| && fs[i] == f;
    var others := Remove(fs, i);
    assert g in multiset(fs) && g in multiset(others);
    var j :| 0 <= j < |others| && others[j] == g;
    rest := Remove(others, j);
  }

  /** Two different findings of one rule at one place, taken in either order, give different lists. */
  lemma EitherFirst(f: Finding, g: Finding, rest: seq<Finding>)
    requires SameKey(f, g) && f != g
    ensures OrderFindings([f] + ([g] + rest)) != OrderFindings([g] + ([f] + rest))
  {
    hide Alike, OrderFindings, StrictlyOrdered;
    var a, b := [f] + ([g] + rest), [g] + ([f] + rest);
    OrderedAndFirst(a);
    OrderedAndFirst(b);
    FirstOfAlike([f], [g] + rest, f);
    FirstOfAlike([g], [f] + rest, f);
    assert f in OrderFindings(a) && f !in OrderFindings(b);
  }

  lemma {:induction false} FirstOfAlike(first: seq<Finding>, rest: seq<Finding>, key: Finding)
    requires |first| == 1 && SameKey(first[0], key)
    ensures Alike(first + rest, key) != [] && Alike(first + rest, key)[0] == first[0]
  {
    if rest == [] {
      assert first + rest == first;
    } else {
      assert Init(first + rest) == first + Init(rest);
      FirstOfAlike(first, Init(rest), key);
    }
  }

  lemma OnePerPlaceSame(fs: seq<Finding>, gs: seq<Finding>)
    requires OnePerPlace(fs) && multiset(gs) == multiset(fs)
    ensures OrderFindings(gs) == OrderFindings(fs)
  {
    forall f ensures f in gs <==> f in fs {
      assert f in gs <==> f in multiset(gs);
      assert f in fs <==> f in multiset(fs);
    }
    OrderedAndFirst(fs);
    OrderedAndFirst(gs);
    forall f ensures IsFirst(fs, f) <==> IsFirst(gs, f) {
      AlikeMembers(fs, f);
      AlikeMembers(gs, f);
      assert IsFirst(fs, f) <==> f in fs by {
        if Alike(fs, f) != [] {
          assert Alike(fs, f)[0] in Alike(fs, f);
        }
      }
      assert IsFirst(gs, f) <==> f in gs by {
        if Alike(gs, f) != [] {
          assert Alike(gs, f)[0] in Alike(gs, f);
        }
      }
    }
    SameMembersSameList(OrderFindings(gs), OrderFindings(fs));
  }
}
