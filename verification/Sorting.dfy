/** Specialist references in display order, start offsets in increasing order, and why such lists are unique. */
module Sorting {
  import opened Base

  datatype Ref = Ref(id: string, name: string)

  /** By name, then by id. */
  predicate RefLeq(a: Ref, b: Ref) {
    if a.name == b.name then StringLeq(a.id, b.id) else StringLeq(a.name, b.name)
  }

  lemma RefLeqTotal(a: Ref, b: Ref)
    ensures RefLeq(a, b) || RefLeq(b, a)
  {
    StringLeqTotal(a.id, b.id);
    StringLeqTotal(a.name, b.name);
  }

  lemma RefLeqAntisymmetric(a: Ref, b: Ref)
    requires RefLeq(a, b) && RefLeq(b, a)
    ensures a == b
  {
    if a.name == b.name {
      StringLeqAntisymmetric(a.id, b.id);
    } else {
      StringLeqAntisymmetric(a.name, b.name);
    }
  }

  lemma RefLeqTransitive(a: Ref, b: Ref, c: Ref)
    requires RefLeq(a, b) && RefLeq(b, c)
    ensures RefLeq(a, c)
  {
    if a.name == b.name == c.name {
      StringLeqTransitive(a.id, b.id, c.id);
    } else if a.name != b.name && b.name != c.name {
      StringLeqTransitive(a.name, b.name, c.name);
      if a.name == c.name {
        StringLeqAntisymmetric(a.name, b.name);
      }
    }
  }

  ghost predicate SortedRefs(s: seq<Ref>) {
    forall i, j :: 0 <= i < j < |s| ==> RefLeq(s[i], s[j])
  }

  function Inserted(s: seq<Ref>, r: Ref): seq<Ref> {
    if s == [] || RefLeq(r, s[0]) then [r] + s else [s[0]] + Inserted(s[1..], r)
  }

  lemma {:induction false} InsertedSorted(s: seq<Ref>, r: Ref)
    requires SortedRefs(s)
    ensures SortedRefs(Inserted(s, r)) && multiset(Inserted(s, r)) == multiset(s) + multiset{r}
  {
    if s == [] || RefLeq(r, s[0]) {
      forall j | 0 <= j < |s| ensures RefLeq(r, s[j]) {
        if j > 0 {
          RefLeqTransitive(r, s[0], s[j]);
        }
      }
    } else {
      RefLeqTotal(r, s[0]);
      InsertedSorted(s[1..], r);
      assert s == [s[0]] + s[1..];
      var rest := Inserted(s[1..], r);
      forall j | 0 <= j < |rest| ensures RefLeq(s[0], rest[j]) {
        assert rest[j] in multiset(rest);
        assert rest[j] == r || rest[j] in s[1..];
      }
    }
  }

  method SortRefs(refs: seq<Ref>) returns (sorted: seq<Ref>)
    ensures SortedRefs(sorted) && multiset(sorted) == multiset(refs)
  {
    sorted := [];
    for i := 0 to |refs|
      invariant SortedRefs(sorted) && multiset(sorted) == multiset(refs[..i])
    {
      assert refs[..i + 1] == refs[..i] + [refs[i]];
      InsertedSorted(sorted, refs[i]);
      sorted := Inserted(sorted, refs[i]);
    }
    assert refs[..|refs|] == refs;
  }

  lemma SortedRefsSameHead(a: seq<Ref>, b: seq<Ref>)
    requires SortedRefs(a) && SortedRefs(b) && multiset(a) == multiset(b)
    requires a != [] && b != []
    ensures a[0] == b[0]
  {
    assert a[0] in multiset(b) && b[0] in multiset(a);
    var i :| 0 <= i < |b| && b[i] == a[0];
    var j :| 0 <= j < |a| && a[j] == b[0];
    if i > 0 && j > 0 {
      RefLeqAntisymmetric(a[0], b[0]);
    }
  }

  lemma {:induction false} SortedRefsUnique(a: seq<Ref>, b: seq<Ref>)
    requires SortedRefs(a) && SortedRefs(b) && multiset(a) == multiset(b)
    ensures a == b
  {
    assert |a| == |multiset(a)| == |multiset(b)| == |b|;
    if a != [] {
      SortedRefsSameHead(a, b);
      assert a == [a[0]] + a[1..] && b == [a[0]] + b[1..];
      assert multiset(a[1..]) == multiset(a) - multiset{a[0]} == multiset(b[1..]);
      SortedRefsUnique(a[1..], b[1..]);
    }
  }

  // ---- Increasing offsets ----

  ghost predicate Increasing(s: seq<int>) {
    forall i, j :: 0 <= i < j < |s| ==> s[i] < s[j]
  }

  function InsertedOffset(s: seq<int>, t: int): seq<int> {
    if s == [] || t < s[0] then [t] + s else [s[0]] + InsertedOffset(s[1..], t)
  }

  lemma {:induction false} InsertedOffsetIncreasing(s: seq<int>, t: int)
    requires Increasing(s) && t !in s
    ensures Increasing(InsertedOffset(s, t))
    ensures forall x :: x in InsertedOffset(s, t) <==> x in s || x == t
  {
    if s != [] && !(t < s[0]) {
      InsertedOffsetIncreasing(s[1..], t);
      assert s == [s[0]] + s[1..];
      var rest := InsertedOffset(s[1..], t);
      forall j | 0 <= j < |rest| ensures s[0] < rest[j] {
        assert rest[j] in rest;
      }
    }
  }

  lemma HasMember(s: set<int>)
    ensures s == {} || exists t :: t in s
  {
    assert (forall t :: t !in s) ==> s == {};
  }

  /** Which element comes next is not specified, as in a loop over the keys of a map. */
  method AnyOffset(offsets: set<int>) returns (t: int)
    requires offsets != {}
    ensures t in offsets
  {
    HasMember(offsets);
    t :| t in offsets;
  }

  /** The elements of a set in increasing order, whatever order the set hands them out in. */
  method SortedOffsets(offsets: set<int>) returns (sorted: seq<int>)
    ensures Increasing(sorted)
    ensures forall t :: t in sorted <==> t in offsets
  {
    sorted := [];
    var todo := offsets;
    while todo != {}
      invariant todo <= offsets && Increasing(sorted)
      invariant forall t :: t in sorted <==> t in offsets && t !in todo
      decreases todo
    {
      var t := AnyOffset(todo);
      InsertedOffsetIncreasing(sorted, t);
      sorted := InsertedOffset(sorted, t);
      todo := todo - {t};
    }
  }

  lemma HeadIsMember(s: seq<int>)
    ensures s != [] ==> s[0] in s
  {
  }

  lemma {:induction false} IncreasingUnique(a: seq<int>, b: seq<int>)
    requires Increasing(a) && Increasing(b)
    requires forall t :: t in a <==> t in b
    ensures a == b
  {
    HeadIsMember(a);
    HeadIsMember(b);
    if a != [] {
      assert a == [a[0]] + a[1..] && b == [b[0]] + b[1..];
      assert a[0] == b[0];
      assert forall t :: t in a[1..] <==> t in a && t != a[0];
      assert forall t :: t in b[1..] <==> t in b && t != b[0];
      IncreasingUnique(a[1..], b[1..]);
    }
  }
}
