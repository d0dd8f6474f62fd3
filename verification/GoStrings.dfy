/** Strings as Go orders them, and the insertion sort of cmd/azure-codegen/main.go. */
module GoStrings {

  /** Byte-wise lexicographic order. */
  predicate Leq(a: string, b: string) {
    a == [] || (b != [] && (a[0] < b[0] || (a[0] == b[0] && Leq(a[1..], b[1..]))))
  }

  lemma {:induction false} LeqSelf(a: string)
    ensures Leq(a, a)
  {
    if a != [] {
      LeqSelf(a[1..]);
    }
  }

  lemma {:induction false} LeqTotal(a: string, b: string)
    ensures Leq(a, b) || Leq(b, a)
  {
    if a != [] && b != [] {
      LeqTotal(a[1..], b[1..]);
    }
  }

  lemma {:induction false} LeqAntisymmetric(a: string, b: string)
    requires Leq(a, b) && Leq(b, a)
    ensures a == b
  {
    if a != [] && b != [] {
      LeqAntisymmetric(a[1..], b[1..]);
      assert a == [a[0]] + a[1..] && b == [b[0]] + b[1..];
    }
  }

  lemma {:induction false} LeqTransitive(a: string, b: string, c: string)
    requires Leq(a, b) && Leq(b, c)
    ensures Leq(a, c)
  {
    if a != [] && a[0] == b[0] && b[0] == c[0] {
      LeqTransitive(a[1..], b[1..], c[1..]);
    }
  }

  /** At the first difference the smaller character comes first, and a prefix before
      what it begins. */
  ghost predicate Ascends(a: string, b: string) {
    a <= b || exists k: nat :: FirstLess(a, b, k)
  }

  ghost predicate FirstLess(a: string, b: string, k: nat) {
    k < |a| && k < |b| && a[..k] == b[..k] && a[k] < b[k]
  }

  lemma {:induction false} LeqMeans(a: string, b: string)
    ensures Leq(a, b) <==> Ascends(a, b)
  {
    hide Ascends;
    if a == [] || b == [] || a[0] != b[0] {
      HeadsDiffer(a, b);
    } else {
      LeqMeans(a[1..], b[1..]);
      assert a == [a[0]] + a[1..] && b == [a[0]] + b[1..];
      SameHeads(a[0], a[1..], b[1..]);
    }
  }

  lemma HeadsDiffer(a: string, b: string)
    requires a == [] || b == [] || a[0] != b[0]
    ensures Ascends(a, b) <==> a == [] || (b != [] && a[0] < b[0])
  {
    if a != [] && b != [] {
      forall k | 0 < k < |a| && k < |b| ensures a[..k] != b[..k] {
        assert a[..k][0] == a[0] && b[..k][0] == b[0];
      }
      assert FirstLess(a, b, 0) <==> a[0] < b[0];
    }
  }

  lemma SameHeads(c: char, s: string, t: string)
    ensures Ascends([c] + s, [c] + t) <==> Ascends(s, t)
  {
    hide FirstLess;
    var a, b := [c] + s, [c] + t;
    NotAtHead(c, s, t);
    if k: nat :| FirstLess(s, t, k) {
      LessBehind(c, s, t, k);
      assert FirstLess(a, b, k + 1);
    }
    if k: nat :| FirstLess(a, b, k) {
      assert k > 0;
      LessBehind(c, s, t, k - 1);
      assert FirstLess(s, t, k - 1);
    }
  }

  lemma NotAtHead(c: char, s: string, t: string)
    ensures !FirstLess([c] + s, [c] + t, 0)
    ensures [c] + s <= [c] + t <==> s <= t
  {
    assert ([c] + s)[1..] == s && ([c] + t)[1..] == t;
    if |s| <= |t| {
      assert ([c] + t)[..1 + |s|] == [c] + t[..|s|];
    }
  }

  lemma LessBehind(c: char, s: string, t: string, k: nat)
    ensures FirstLess([c] + s, [c] + t, k + 1) <==> FirstLess(s, t, k)
  {
    var a, b := [c] + s, [c] + t;
    if k < |s| && k < |t| {
      assert a[..k + 1] == [c] + s[..k] && b[..k + 1] == [c] + t[..k];
      assert s[..k] == a[..k + 1][1..] && t[..k] == b[..k + 1][1..];
    }
  }

  ghost predicate Sorted(s: seq<string>) {
    forall i, j :: 0 <= i < j < |s| ==> Leq(s[i], s[j])
  }

  /** Everything up to and including `i` is in order, except that the element at
      `j` may still be too far right. */
  ghost predicate Inserting(s: seq<string>, i: nat, j: nat)
    requires j <= i < |s|
  {
    && (forall p, q :: 0 <= p < q <= i && q != j ==> Leq(s[p], s[q]))
  }

  function Swap(s: seq<string>, j: nat): (r: seq<string>)
    requires 0 < j < |s|
    ensures |r| == |s|
  {
    s[j - 1 := s[j]][j := s[j - 1]]
  }

  lemma SwapKeeps(s: seq<string>, j: nat)
    requires 0 < j < |s|
    ensures multiset(Swap(s, j)) == multiset(s)
  {
    var r := Swap(s, j);
    assert s == s[..j - 1] + [s[j - 1], s[j]] + s[j + 1..];
    assert r == s[..j - 1] + [s[j], s[j - 1]] + s[j + 1..];
  }

  lemma SwapInserts(s: seq<string>, i: nat, j: nat)
    requires 0 < j <= i < |s| && Inserting(s, i, j) && !Leq(s[j - 1], s[j])
    ensures Inserting(Swap(s, j), i, j - 1)
  {
    hide Leq;
    LeqTotal(s[j - 1], s[j]);
    var r := Swap(s, j);
    forall p, q | 0 <= p < q <= i && q != j - 1 ensures Leq(r[p], r[q]) {
      if q == j {
        if p < j - 1 {
          assert Leq(s[p], s[j - 1]);
        }
      } else if q > j {
        assert Leq(s[if p == j - 1 then j else if p == j then j - 1 else p], s[q]);
      } else {
        assert Leq(s[p], s[q]);
      }
    }
  }

  lemma Inserted(s: seq<string>, i: nat, j: nat)
    requires j <= i < |s| && Inserting(s, i, j) && (j == 0 || Leq(s[j - 1], s[j]))
    ensures Sorted(s[..i + 1])
  {
    hide Leq;
    forall p, q | 0 <= p < q < i + 1 ensures Leq(s[p], s[q]) {
      if q == j && p < j - 1 {
        assert Leq(s[p], s[j - 1]);
        LeqTransitive(s[p], s[j - 1], s[j]);
      }
    }
  }

  method SortStrings(a: array<string>)
    modifies a
    ensures Sorted(a[..])
    ensures multiset(a[..]) == multiset(old(a[..]))
  {
    hide Leq, Swap;
    var i := 1;
    while i < a.Length
      invariant 1 <= i && (i <= a.Length || a.Length == 0)
      invariant Sorted(a[..if i <= a.Length then i else 0])
      invariant multiset(a[..]) == multiset(old(a[..]))
    {
      var j := i;
      StartInsert(a[..], i);
      while j > 0 && !Leq(a[j - 1], a[j])
        invariant 0 <= j <= i
        invariant Inserting(a[..], i, j)
        invariant multiset(a[..]) == multiset(old(a[..]))
      {
        ghost var before := a[..];
        SwapKeeps(before, j);
        SwapInserts(before, i, j);
        a[j - 1], a[j] := a[j], a[j - 1];
        assert a[..] == Swap(before, j) by { SwapIs(before, j); }
        j := j - 1;
      }
      Inserted(a[..], i, j);
      assert a[..][..i + 1] == a[..i + 1];
      i := i + 1;
    }
    assert a.Length > 0 ==> a[..a.Length] == a[..];
  }

  lemma SwapIs(s: seq<string>, j: nat)
    requires 0 < j < |s|
    ensures Swap(s, j) == s[j - 1 := s[j]][j := s[j - 1]]
  {
  }

  lemma StartInsert(s: seq<string>, i: nat)
    requires i < |s| && Sorted(s[..i])
    ensures Inserting(s, i, i)
  {
    hide Leq;
    forall p, q | 0 <= p < q < i ensures Leq(s[p], s[q]) {
      assert Leq(s[..i][p], s[..i][q]);
    }
  }

  /** The keys of a map, in order: the map's own iteration order does not show. */
  method SortedKeys<V>(m: map<string, V>) returns (keys: seq<string>)
    ensures Sorted(keys)
    ensures forall x :: x in keys <==> x in m
    ensures NoRepeats(keys)
  {
    var left := m.Keys;
    var listed: seq<string> := [];
    while left != {}
      invariant left <= m.Keys
      invariant forall x :: x in listed <==> x in m.Keys - left
      invariant NoRepeats(listed)
      decreases left
    {
      var k :| k in left;
      OneMore(listed, k);
      listed, left := listed + [k], left - {k};
    }
    var a := new string[|listed|](i requires 0 <= i < |listed| => listed[i]);
    assert a[..] == listed;
    SortStrings(a);
    keys := a[..];
    SameElements(listed, keys);
  }

  ghost predicate NoRepeats<T>(s: seq<T>) {
    forall i, j :: 0 <= i < j < |s| ==> s[i] != s[j]
  }

  lemma OneMore<T>(s: seq<T>, x: T)
    requires NoRepeats(s) && x !in s
    ensures NoRepeats(s + [x])
    ensures forall y :: y in s + [x] <==> y in s || y == x
  {
  }

  /** A rearrangement has the same elements, as often. */
  lemma SameElements<T>(a: seq<T>, b: seq<T>)
    requires multiset(a) == multiset(b)
    ensures forall x :: x in a <==> x in b
    ensures NoRepeats(a) ==> NoRepeats(b)
  {
    forall x ensures x in a <==> x in b {
      assert x in multiset(a) <==> x in a;
      assert x in multiset(b) <==> x in b;
    }
    if NoRepeats(a) {
      forall i, j | 0 <= i < j < |b| ensures b[i] != b[j] {
        if b[i] == b[j] {
          TwiceCounts(b, i, j);
          OnceCounts(a, b[i]);
        }
      }
    }
  }

  lemma TwiceCounts<T>(s: seq<T>, i: nat, j: nat)
    requires i < j < |s| && s[i] == s[j]
    ensures multiset(s)[s[i]] >= 2
  {
    assert s == s[..i] + [s[i]] + s[i + 1..j] + [s[j]] + s[j + 1..];
  }

  lemma {:induction false} OnceCounts<T>(s: seq<T>, x: T)
    requires NoRepeats(s)
    ensures multiset(s)[x] <= 1
  {
    if s != [] {
      OnceCounts(s[1..], x);
      assert s == [s[0]] + s[1..];
      assert s[0] !in s[1..];
    }
  }

  // ----- sorting as a function

  function Insert(x: string, s: seq<string>): seq<string> {
    if s == [] || Leq(x, s[0]) then [x] + s else [s[0]] + Insert(x, s[1..])
  }

  function Sort(s: seq<string>): seq<string> {
    if s == [] then [] else Insert(s[0], Sort(s[1..]))
  }

  lemma {:induction false} InsertSorts(x: string, s: seq<string>)
    requires Sorted(s)
    ensures Sorted(Insert(x, s))
    ensures multiset(Insert(x, s)) == multiset(s) + multiset{x}
  {
    hide Leq;
    if s == [] {
    } else if Leq(x, s[0]) {
      forall i | 0 <= i < |s| ensures Leq(x, s[i]) {
        if i > 0 {
          LeqTransitive(x, s[0], s[i]);
        }
      }
    } else {
      LeqTotal(x, s[0]);
      InsertSorts(x, s[1..]);
      var t := Insert(x, s[1..]);
      assert s == [s[0]] + s[1..];
      forall i | 0 <= i < |t| ensures Leq(s[0], t[i]) {
        assert t[i] in multiset(t);
        assert t[i] == x || t[i] in s[1..];
      }
    }
  }

  lemma {:induction false} SortSorts(s: seq<string>)
    ensures Sorted(Sort(s)) && multiset(Sort(s)) == multiset(s)
  {
    if s != [] {
      SortSorts(s[1..]);
      InsertSorts(s[0], Sort(s[1..]));
      assert s == [s[0]] + s[1..];
    }
  }

  /** Two sorted lists with the same elements are the same list: sorting has one
      result, however it is done. */
  lemma {:induction false} SortedUnique(a: seq<string>, b: seq<string>)
    requires Sorted(a) && Sorted(b) && multiset(a) == multiset(b)
    ensures a == b
  {
    hide Leq, Sorted;
    assert |a| == |multiset(a)| && |b| == |multiset(b)|;
    if a != [] {
      SameHead(a, b);
      SortedTail(a);
      SortedTail(b);
      SortedUnique(a[1..], b[1..]);
      assert a == [a[0]] + a[1..] && b == [b[0]] + b[1..];
    }
  }

  lemma SortedTail(s: seq<string>)
    requires s != [] && Sorted(s)
    ensures Sorted(s[1..]) && multiset(s[1..]) == multiset(s) - multiset{s[0]}
  {
    hide Leq;
    assert s == [s[0]] + s[1..];
  }

  lemma SameHead(a: seq<string>, b: seq<string>)
    requires a != [] && b != [] && Sorted(a) && Sorted(b) && multiset(a) == multiset(b)
    ensures a[0] == b[0]
  {
    hide Leq, Sorted;
    assert a[0] in multiset(b) && b[0] in multiset(a);
    Least(a, b[0]);
    Least(b, a[0]);
    LeqAntisymmetric(a[0], b[0]);
  }

  lemma Least(s: seq<string>, x: string)
    requires Sorted(s) && x in s
    ensures Leq(s[0], x)
  {
    hide Leq;
    LeqSelf(x);
  }

  /** Two sorted listings of the same names are the same. */
  lemma SameListing(a: seq<string>, b: seq<string>)
    requires Sorted(a) && Sorted(b) && NoRepeats(a) && NoRepeats(b) && forall x :: x in a <==> x in b
    ensures a == b
  {
    hide Sorted, NoRepeats;
    forall x ensures multiset(a)[x] == multiset(b)[x] {
      OnceCounts(a, x);
      OnceCounts(b, x);
      assert x in a <==> x in multiset(a);
      assert x in b <==> x in multiset(b);
    }
    assert multiset(a) == multiset(b);
    SortedUnique(a, b);
  }
}
