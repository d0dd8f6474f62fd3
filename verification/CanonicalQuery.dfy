/** The canonical query string of internal/sigv4verifier/canonical.go identifies a
    query's pairs exactly. */
module CanonicalQuery {
  import opened Sequences
  import opened GoStrings
  import opened UriText

  /** url.Values */
  type Query = map<string, seq<string>>

  /** How often the query has the pair. */
  function Count(q: Query, k: string, v: string): nat {
    if k in q then multiset(q[k])[v] else 0
  }

  ghost predicate SamePairs(p: Query, q: Query) {
    forall k, v :: Count(p, k, v) == Count(q, k, v)
  }

  ghost predicate QueryIsBytes(q: Query) {
    forall k :: k in q ==> IsBytes(k) && forall i :: 0 <= i < |q[k]| ==> IsBytes(q[k][i])
  }

  datatype Pair = Pair(key: string, value: string)

  function PairText(p: Pair): string {
    Encode(p.key, true) + "=" + Encode(p.value, true)
  }

  function PairsOf(k: string, vs: seq<string>): seq<Pair> {
    seq(|vs|, i requires 0 <= i < |vs| => Pair(k, vs[i]))
  }

  /** The pairs in the order of the keys, each key's values sorted. */
  function Pairs(q: Query, keys: seq<string>): seq<Pair>
    requires forall i :: 0 <= i < |keys| ==> keys[i] in q
  {
    if keys == [] then [] else PairsOf(keys[0], Sort(q[keys[0]])) + Pairs(q, keys[1..])
  }

  function Texts(ps: seq<Pair>): seq<string> {
    seq(|ps|, i requires 0 <= i < |ps| => PairText(ps[i]))
  }

  ghost predicate Listing(keys: seq<string>, q: Query) {
    Sorted(keys) && NoRepeats(keys) && forall k :: k in keys <==> k in q
  }

  /** The canonical string of a query: its keys in order. */
  ghost predicate IsCanonical(q: Query, text: string) {
    exists keys :: Listing(keys, q) && text == Join(Texts(Pairs(q, keys)), '&')
  }

  // ----- building it

  method AwsUriEncode(s: string, encodeSlash: bool) returns (out: string)
    ensures out == Encode(s, encodeSlash)
  {
    hide EncodeByte;
    out := [];
    var i := 0;
    while i < |s|
      invariant 0 <= i <= |s|
      invariant out + Encode(s[i..], encodeSlash) == Encode(s, encodeSlash)
    {
      assert s[i..][1..] == s[i + 1..];
      Assoc(out, EncodeByte(s[i], encodeSlash), Encode(s[i + 1..], encodeSlash));
      out := out + EncodeByte(s[i], encodeSlash);
      i := i + 1;
    }
    assert out + [] == out;
  }

  /** sort.Strings on a copy. */
  method SortedCopy(vs: seq<string>) returns (sorted: seq<string>)
    ensures sorted == Sort(vs)
  {
    var a := new string[|vs|](i requires 0 <= i < |vs| => vs[i]);
    assert a[..] == vs;
    SortStrings(a);
    sorted := a[..];
    SortSorts(vs);
    SortedUnique(sorted, Sort(vs));
  }

  method CanonicalQueryString(q: Query) returns (text: string)
    ensures IsCanonical(q, text)
  {
    hide Sort, Texts, PairsOf, Pairs, Sorted, Encode;
    var keys := SortedKeys(q);
    assert Listing(keys, q);
    var parts: seq<string> := [];
    var i := 0;
    NoKeys(q, keys);
    while i < |keys|
      invariant 0 <= i <= |keys|
      invariant forall j :: 0 <= j < |keys| ==> keys[j] in q
      invariant parts + Texts(Pairs(q, keys[i..])) == Texts(Pairs(q, keys))
    {
      var vs := SortedCopy(q[keys[i]]);
      ghost var before := parts;
      NoPairs(before, keys[i], vs);
      var j := 0;
      while j < |vs|
        invariant 0 <= j <= |vs|
        invariant parts == before + Texts(PairsOf(keys[i], vs[..j]))
      {
        var k := AwsUriEncode(keys[i], true);
        var v := AwsUriEncode(vs[j], true);
        OnePair(before, keys[i], vs, j);
        parts := parts + [k + "=" + v];
        j := j + 1;
      }
      assert vs[..|vs|] == vs;
      OneKey(q, keys, i, before);
      i := i + 1;
    }
    AllKeys(q, keys, i, parts);
    text := Join(parts, '&');
  }

  lemma NoKeys(q: Query, keys: seq<string>)
    requires forall k :: k in keys ==> k in q
    ensures forall j :: 0 <= j < |keys| ==> keys[j] in q
    ensures [] + Texts(Pairs(q, keys[0..])) == Texts(Pairs(q, keys))
  {
    assert keys[0..] == keys;
  }

  lemma AllKeys(q: Query, keys: seq<string>, i: nat, parts: seq<string>)
    requires i == |keys|
    ensures parts + Texts(Pairs(q, keys[i..])) == parts
  {
  }

  lemma NoPairs(before: seq<string>, k: string, vs: seq<string>)
    ensures before + Texts(PairsOf(k, vs[..0])) == before
  {
  }

  /** One more pair of the current key. */
  lemma OnePair(before: seq<string>, k: string, vs: seq<string>, j: nat)
    requires j < |vs|
    ensures before + Texts(PairsOf(k, vs[..j + 1]))
         == (before + Texts(PairsOf(k, vs[..j]))) + [Encode(k, true) + "=" + Encode(vs[j], true)]
  {
    hide Encode;
    var text := PairText(Pair(k, vs[j]));
    assert Texts(PairsOf(k, vs[..j + 1])) == Texts(PairsOf(k, vs[..j])) + [text];
  }

  /** One more key. */
  lemma OneKey(q: Query, keys: seq<string>, i: nat, before: seq<string>)
    requires i < |keys| && forall j :: 0 <= j < |keys| ==> keys[j] in q
    ensures (before + Texts(PairsOf(keys[i], Sort(q[keys[i]])))) + Texts(Pairs(q, keys[i + 1..]))
         == before + Texts(Pairs(q, keys[i..]))
  {
    hide Texts, PairsOf, Sort;
    var ps := PairsOf(keys[i], Sort(q[keys[i]]));
    assert keys[i..][1..] == keys[i + 1..];
    TextsAppend(ps, Pairs(q, keys[i + 1..]));
    Assoc(before, Texts(ps), Texts(Pairs(q, keys[i + 1..])));
  }

  lemma TextsAppend(a: seq<Pair>, b: seq<Pair>)
    ensures Texts(a + b) == Texts(a) + Texts(b)
  {
    hide PairText;
  }

  // ----- the text determines the pairs

  lemma NoSeparators(s: string)
    ensures '&' !in Encode(s, true) && '=' !in Encode(s, true)
  {
    EncodeAlphabet(s, true);
  }

  lemma PairTextInjective(p: Pair, r: Pair)
    requires IsBytes(p.key) && IsBytes(p.value) && IsBytes(r.key) && IsBytes(r.value) && PairText(p) == PairText(r)
    ensures p == r
  {
    hide Encode;
    NoSeparators(p.key);
    NoSeparators(r.key);
    SplitFirst(Encode(p.key, true), Encode(p.value, true), '=');
    SplitFirst(Encode(r.key, true), Encode(r.value, true), '=');
    NoSeparators(p.value);
    NoSeparators(r.value);
    SplitNone(Encode(p.value, true), '=');
    SplitNone(Encode(r.value, true), '=');
    var a, b := [Encode(p.key, true), Encode(p.value, true)], [Encode(r.key, true), Encode(r.value, true)];
    assert Split(PairText(p), '=') == a && Split(PairText(r), '=') == b;
    assert a[0] == b[0] && a[1] == b[1];
    EncodeInjective(p.key, r.key, true);
    EncodeInjective(p.value, r.value, true);
  }

  /** The joined text of some pairs; no pairs give the empty text, and only they. */
  lemma JoinedTextSplits(ps: seq<Pair>)
    ensures ps == [] <==> Join(Texts(ps), '&') == []
    ensures ps != [] ==> Split(Join(Texts(ps), '&'), '&') == Texts(ps)
  {
    hide PairText;
    if ps != [] {
      var ts := Texts(ps);
      forall i | 0 <= i < |ts| ensures '&' !in ts[i] && ts[i] != [] {
        PairTextClean(ps[i]);
      }
      var n := |ts| - 1;
      assert ts == ts[..n] + [ts[n]];
      SplitOfJoin(ts[..n], ts[n], '&');
      SplitNone(ts[n], '&');
      if |ts| > 1 {
        assert |Join(ts, '&')| > 0;
      }
    }
  }

  lemma PairTextClean(p: Pair)
    ensures '&' !in PairText(p) && PairText(p) != []
  {
    NoSeparators(p.key);
    NoSeparators(p.value);
  }

  ghost predicate PairsAreBytes(ps: seq<Pair>) {
    forall i :: 0 <= i < |ps| ==> IsBytes(ps[i].key) && IsBytes(ps[i].value)
  }

  lemma TextDeterminesPairs(ps: seq<Pair>, rs: seq<Pair>)
    requires PairsAreBytes(ps) && PairsAreBytes(rs) && Join(Texts(ps), '&') == Join(Texts(rs), '&')
    ensures ps == rs
  {
    hide PairText, Join, Split, IsBytes;
    JoinedTextSplits(ps);
    JoinedTextSplits(rs);
    if ps != [] {
      assert Texts(ps) == Texts(rs);
      assert |Texts(ps)| == |ps| && |Texts(rs)| == |rs|;
      forall i | 0 <= i < |ps| ensures ps[i] == rs[i] {
        assert Texts(ps)[i] == Texts(rs)[i];
        PairTextInjective(ps[i], rs[i]);
      }
    }
  }

  // ----- the pairs determine the bag, and the bag the pairs

  lemma {:induction false} PairsCount(q: Query, keys: seq<string>, k: string, v: string)
    requires NoRepeats(keys) && forall i :: 0 <= i < |keys| ==> keys[i] in q
    ensures multiset(Pairs(q, keys))[Pair(k, v)] == if k in keys then Count(q, k, v) else 0
  {
    if keys != [] {
      var vs := Sort(q[keys[0]]);
      PairsCount(q, keys[1..], k, v);
      PairsOfCount(keys[0], vs, k, v);
      SortSorts(q[keys[0]]);
      assert keys == [keys[0]] + keys[1..];
      assert keys[0] !in keys[1..];
    }
  }

  lemma {:induction false} PairsOfCount(key: string, vs: seq<string>, k: string, v: string)
    ensures multiset(PairsOf(key, vs))[Pair(k, v)] == if k == key then multiset(vs)[v] else 0
  {
    if vs != [] {
      PairsOfCount(key, vs[1..], k, v);
      assert vs == [vs[0]] + vs[1..];
      assert PairsOf(key, vs) == [Pair(key, vs[0])] + PairsOf(key, vs[1..]);
    }
  }

  /** Keys without values add nothing. */
  function Used(q: Query, keys: seq<string>): (used: seq<string>)
    requires forall i :: 0 <= i < |keys| ==> keys[i] in q
  {
    if keys == [] then []
    else if q[keys[0]] == [] then Used(q, keys[1..])
    else [keys[0]] + Used(q, keys[1..])
  }

  lemma {:induction false} UsedListing(q: Query, keys: seq<string>)
    requires Sorted(keys) && NoRepeats(keys) && forall i :: 0 <= i < |keys| ==> keys[i] in q
    ensures var used := Used(q, keys);
      && (forall k :: k in used <==> k in keys && q[k] != [])
      && Sorted(used) && NoRepeats(used)
      && (forall i :: 0 <= i < |used| ==> used[i] in q)
      && Pairs(q, used) == Pairs(q, keys)
  {
    hide Leq;
    if keys != [] {
      assert keys == [keys[0]] + keys[1..];
      UsedListing(q, keys[1..]);
      var used, rest := Used(q, keys), Used(q, keys[1..]);
      if q[keys[0]] != [] {
        assert used[1..] == rest;
        forall i | 0 <= i < |rest| ensures Leq(keys[0], rest[i]) && keys[0] != rest[i] {
          assert rest[i] in rest && rest[i] in keys[1..];
        }
      } else {
        assert PairsOf(keys[0], Sort([])) == [];
      }
      forall i | 0 <= i < |used| ensures used[i] in q {
        assert used[i] in used && used[i] in keys;
      }
    }
  }

  lemma {:induction false} SamePairsSameList(p: Query, q: Query, keys: seq<string>)
    requires SamePairs(p, q) && forall i :: 0 <= i < |keys| ==> keys[i] in p && keys[i] in q
    ensures Pairs(p, keys) == Pairs(q, keys)
  {
    hide Sort;
    if keys != [] {
      var k := keys[0];
      assert multiset(p[k]) == multiset(q[k]) by {
        forall v ensures multiset(p[k])[v] == multiset(q[k])[v] {
          assert Count(p, k, v) == Count(q, k, v);
        }
      }
      SortSorts(p[k]);
      SortSorts(q[k]);
      SortedUnique(Sort(p[k]), Sort(q[k]));
      SamePairsSameList(p, q, keys[1..]);
    }
  }

  lemma UsedInBoth(p: Query, q: Query, k: string)
    requires SamePairs(p, q) && k in p && p[k] != []
    ensures k in q && q[k] != []
  {
    assert p[k][0] in multiset(p[k]);
    assert Count(p, k, p[k][0]) == Count(q, k, p[k][0]);
  }

  lemma SameBagSamePairs(p: Query, q: Query, ps: seq<string>, qs: seq<string>)
    requires Listing(ps, p) && Listing(qs, q) && SamePairs(p, q)
    ensures Pairs(p, ps) == Pairs(q, qs)
  {
    hide Sorted, NoRepeats, Count;
    UsedListing(p, ps);
    UsedListing(q, qs);
    var up, uq := Used(p, ps), Used(q, qs);
    forall k ensures k in up <==> k in uq {
      if k in up {
        UsedInBoth(p, q, k);
      }
      if k in uq {
        UsedInBoth(q, p, k);
      }
    }
    SameListing(up, uq);
    SamePairsSameList(p, q, up);
  }

  lemma {:induction false} PairsBytes(q: Query, keys: seq<string>)
    requires QueryIsBytes(q) && forall i :: 0 <= i < |keys| ==> keys[i] in q
    ensures PairsAreBytes(Pairs(q, keys))
  {
    hide IsBytes, Sort;
    if keys != [] {
      PairsBytes(q, keys[1..]);
      var vs := Sort(q[keys[0]]);
      SortSorts(q[keys[0]]);
      SameElements(q[keys[0]], vs);
      forall i | 0 <= i < |vs| ensures IsBytes(vs[i]) {
        assert vs[i] in q[keys[0]];
      }
    }
  }

  lemma SameTextSamePairs(p: Query, q: Query, ps: seq<string>, qs: seq<string>)
    requires QueryIsBytes(p) && QueryIsBytes(q) && Listing(ps, p) && Listing(qs, q)
    requires Join(Texts(Pairs(p, ps)), '&') == Join(Texts(Pairs(q, qs)), '&')
    ensures SamePairs(p, q)
  {
    hide Sorted, NoRepeats, Texts, Join, QueryIsBytes, PairsAreBytes, Pairs;
    PairsBytes(p, ps);
    PairsBytes(q, qs);
    TextDeterminesPairs(Pairs(p, ps), Pairs(q, qs));
    forall k, v ensures Count(p, k, v) == Count(q, k, v) {
      PairsCount(p, ps, k, v);
      PairsCount(q, qs, k, v);
    }
  }

  // ----- the order of the pairs

  /** Ascending by key, and by value under one key. */
  ghost predicate Ascending(ps: seq<Pair>) {
    forall i, j :: 0 <= i < j < |ps| ==>
      if ps[i].key == ps[j].key then Leq(ps[i].value, ps[j].value) else Leq(ps[i].key, ps[j].key)
  }

  /** A canonical string is the text of exactly the query's pairs, each as often, in
      ascending order. */
  lemma CanonicalAscends(q: Query, text: string)
    requires IsCanonical(q, text)
    ensures exists ps ::
      && Ascending(ps) && text == Join(Texts(ps), '&')
      && forall k, v :: multiset(ps)[Pair(k, v)] == Count(q, k, v)
  {
    hide Sorted, NoRepeats, Texts, Join, Pairs, Ascending, Count;
    var keys :| Listing(keys, q) && text == Join(Texts(Pairs(q, keys)), '&');
    var ps := Pairs(q, keys);
    PairsAscend(q, keys);
    forall k, v ensures multiset(ps)[Pair(k, v)] == Count(q, k, v) {
      PairsCount(q, keys, k, v);
      NotCounted(q, k, v);
    }
  }

  lemma NotCounted(q: Query, k: string, v: string)
    ensures k !in q ==> Count(q, k, v) == 0
  {
  }

  lemma {:induction false} PairsAscend(q: Query, keys: seq<string>)
    requires Sorted(keys) && NoRepeats(keys) && forall i :: 0 <= i < |keys| ==> keys[i] in q
    ensures Ascending(Pairs(q, keys))
    ensures forall p :: p in Pairs(q, keys) ==> p.key in keys
  {
    hide Leq;
    if keys != [] {
      var vs, rest := Sort(q[keys[0]]), Pairs(q, keys[1..]);
      PairsAscend(q, keys[1..]);
      SortSorts(q[keys[0]]);
      var front := PairsOf(keys[0], vs);
      forall p | p in rest ensures p.key != keys[0] && Leq(keys[0], p.key) {
        var i :| 0 <= i < |keys[1..]| && keys[1..][i] == p.key;
        assert keys[i + 1] == p.key;
      }
      AscendAppend(front, rest);
    }
  }

  lemma AscendAppend(a: seq<Pair>, b: seq<Pair>)
    requires Ascending(a) && Ascending(b)
    requires forall p, r :: p in a && r in b ==> p.key != r.key && Leq(p.key, r.key)
    ensures Ascending(a + b)
  {
    hide Leq;
  }

  /** Two queries have the same canonical string if and only if they have the same
      pairs, each as often. */
  lemma CanonicalIffSamePairs(p: Query, q: Query, s: string, t: string)
    requires QueryIsBytes(p) && QueryIsBytes(q) && IsCanonical(p, s) && IsCanonical(q, t)
    ensures s == t <==> SamePairs(p, q)
  {
    hide Sorted, NoRepeats, Texts, Join, QueryIsBytes, Pairs, SamePairs;
    var ps :| Listing(ps, p) && s == Join(Texts(Pairs(p, ps)), '&');
    var qs :| Listing(qs, q) && t == Join(Texts(Pairs(q, qs)), '&');
    if SamePairs(p, q) {
      SameBagSamePairs(p, q, ps, qs);
    }
    if s == t {
      SameTextSamePairs(p, q, ps, qs);
    }
  }
}
