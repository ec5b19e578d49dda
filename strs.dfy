/**
 * String and path helpers shared by every part of the chassis model: Go's
 * strings.HasPrefix, strings.Split and strings.Join on ".", the byte-wise
 * string order used by sort.Strings, in-place sorting, and the prefix filter
 * that both chassis packages use for FlattenWithPrefix.
 *
 * Strings are sequences of Unicode scalar values. Go compares strings byte by
 * byte on their UTF-8 encoding, which orders them exactly as their code points,
 * so comparing characters here gives the same order.
 */
module Strs {

  datatype Option<+T> = None | Some(value: T)

  /** Go's strings.HasPrefix. */
  predicate HasPrefix(s: string, p: string) {
    |p| <= |s| && s[..|p|] == p
  }

  /** The "exact or descendant" rule: `s` names `p` itself or something below it. */
  predicate AtOrUnder(s: string, p: string) {
    s == p || HasPrefix(s, p + ".")
  }

  predicate DotFree(s: string) {
    forall i :: 0 <= i < |s| ==> s[i] != '.'
  }

  /** Go's strings.Split(s, "."), defined one character at a time. */
  function Split(s: string): (parts: seq<string>)
    ensures |parts| >= 1
  {
    if s == [] then [""]
    else
      var p := Split(s[..|s| - 1]);
      var c := s[|s| - 1];
      if c == '.' then p + [""]
      else p[..|p| - 1] + [p[|p| - 1] + [c]]
  }

  /** No part of a split holds a dot. */
  lemma {:induction false} SplitDotFree(s: string)
    ensures forall i :: 0 <= i < |Split(s)| ==> DotFree(Split(s)[i])
  {
    if s != [] {
      SplitDotFree(s[..|s| - 1]);
    }
  }

  /** Go's strings.Join(parts, "."). */
  function Join(parts: seq<string>): string {
    if |parts| == 0 then ""
    else if |parts| == 1 then parts[0]
    else Join(parts[..|parts| - 1]) + "." + parts[|parts| - 1]
  }

  lemma {:induction false} JoinSplit(s: string)
    ensures Join(Split(s)) == s
  {
    if s != [] {
      var init := s[..|s| - 1];
      var p := Split(init);
      JoinSplit(init);
      if s[|s| - 1] == '.' {
        assert (p + [""])[..|p|] == p;
      } else if |p| > 1 {
        assert (p[..|p| - 1] + [p[|p| - 1] + [s[|s| - 1]]])[..|p| - 1] == p[..|p| - 1];
      }
      assert init + [s[|s| - 1]] == s;
    }
  }

  /** Join splits off its first part as well as its last. */
  lemma {:induction false} JoinFirst(parts: seq<string>)
    requires |parts| >= 2
    ensures Join(parts) == parts[0] + "." + Join(parts[1..])
  {
    if |parts| > 2 {
      JoinFirst(parts[..|parts| - 1]);
      assert parts[..|parts| - 1][1..] == parts[1..][..|parts[1..]| - 1];
    } else {
      assert parts[..1] == [parts[0]];
    }
  }

  /** Splitting "a.b...": the first part of a path is everything before its first dot. */
  lemma {:induction false} SplitAppendFree(s: string, t: string)
    requires DotFree(t)
    ensures var p := Split(s);
      Split(s + t) == p[..|p| - 1] + [p[|p| - 1] + t]
    decreases |t|
  {
    var p := Split(s);
    if t == [] {
      assert s + t == s;
      assert p[|p| - 1] + t == p[|p| - 1];
      assert p == p[..|p| - 1] + [p[|p| - 1] + t];
    } else {
      var t' := t[..|t| - 1];
      var c := t[|t| - 1];
      SplitAppendFree(s, t');
      assert s + t == (s + t') + [c] && t' + [c] == t;
      SplitSnoc(s + t', c);
      LastGrows(Split(s + t'), p[..|p| - 1], p[|p| - 1], t', c);
    }
  }

  /** Appending a character other than a dot grows the last part. */
  lemma SplitSnoc(s: string, c: char)
    requires c != '.'
    ensures var q := Split(s);
      Split(s + [c]) == q[..|q| - 1] + [q[|q| - 1] + [c]]
  {
    assert (s + [c])[..|s|] == s;
  }

  /** A prefix one longer is the shorter prefix and the next element. */
  lemma SliceNext<T>(s: seq<T>, k: nat)
    requires 0 < k <= |s|
    ensures s[..k] == s[..k - 1] + [s[k - 1]]
  {
  }

  /** Growing the last element of `front + [last + t]` by one character. */
  lemma LastGrows(q: seq<string>, front: seq<string>, last: string, t: string, c: char)
    requires q == front + [last + t]
    ensures q[..|q| - 1] + [q[|q| - 1] + [c]] == front + [last + (t + [c])]
  {
    assert q[..|q| - 1] == front;
    assert (last + t) + [c] == last + (t + [c]);
  }

  lemma SplitAppendDot(s: string)
    ensures Split(s + ".") == Split(s) + [""]
  {
    assert (s + ".")[..|s|] == s;
  }

  /** A dot followed by a dot-free tail adds exactly that tail as one more part. */
  lemma SplitDotThen(s: string, t: string)
    requires DotFree(t)
    ensures Split(s + "." + t) == Split(s) + [t]
  {
    SplitAppendDot(s);
    SplitAppendFree(s + ".", t);
    var p := Split(s + ".");
    assert p[..|p| - 1] == Split(s);
    assert p[|p| - 1] + t == t;
  }

  /** Splitting a join of dot-free parts gives the parts back. */
  lemma {:induction false} SplitJoin(parts: seq<string>)
    requires |parts| >= 1
    requires forall i :: 0 <= i < |parts| ==> DotFree(parts[i])
    ensures Split(Join(parts)) == parts
  {
    if |parts| == 1 {
      SplitAppendFree([], parts[0]);
      assert [] + parts[0] == parts[0];
    } else {
      var init := parts[..|parts| - 1];
      SplitJoin(init);
      SplitDotThen(Join(init), parts[|parts| - 1]);
      assert init + [parts[|parts| - 1]] == parts;
    }
  }

  // ---------------------------------------------------------------------------
  // String order (sort.Strings)

  /** `a` sorts no later than `b` in Go's byte-wise string order. */
  predicate Below(a: string, b: string) {
    |a| == 0 || (|b| > 0 && (a[0] < b[0] || (a[0] == b[0] && Below(a[1..], b[1..]))))
  }

  lemma BelowRefl(a: string)
    ensures Below(a, a)
  {
  }

  lemma BelowTotal(a: string, b: string)
    ensures Below(a, b) || Below(b, a)
  {
  }

  lemma BelowAntisym(a: string, b: string)
    requires Below(a, b) && Below(b, a)
    ensures a == b
  {
    if |a| > 0 && |b| > 0 {
      BelowAntisym(a[1..], b[1..]);
      assert a == [a[0]] + a[1..];
      assert b == [b[0]] + b[1..];
    }
  }

  lemma BelowTrans(a: string, b: string, c: string)
    requires Below(a, b) && Below(b, c)
    ensures Below(a, c)
  {
    if |a| > 0 && |b| > 0 && |c| > 0 && a[0] == b[0] && b[0] == c[0] {
      BelowTrans(a[1..], b[1..], c[1..]);
    }
  }

  /** A prefix sorts before every extension of it. */
  lemma BelowPrefix(a: string, b: string)
    requires HasPrefix(b, a)
    ensures Below(a, b)
  {
    if |a| > 0 {
      assert b[1..][..|a| - 1] == a[1..];
      BelowPrefix(a[1..], b[1..]);
    }
  }

  predicate SortedBy<T>(s: seq<T>, key: T -> string) {
    forall i, j :: 0 <= i < j < |s| ==> Below(key(s[i]), key(s[j]))
  }

  predicate Sorted(s: seq<string>) {
    forall i, j :: 0 <= i < j < |s| ==> Below(s[i], s[j])
  }

  /** Ascending with no repeated element: what dedupe-then-sort produces. */
  predicate StrictlySorted(s: seq<string>) {
    Sorted(s) && forall i, j :: 0 <= i < j < |s| ==> s[i] != s[j]
  }

  /** No element occurs twice. */
  predicate Distinct(s: seq<string>) {
    forall i, j :: 0 <= i < j < |s| ==> s[i] != s[j]
  }

  /** A sequence has no repeats exactly when each of its elements occurs once in its multiset. */
  lemma {:induction false} DistinctCount(s: seq<string>)
    ensures Distinct(s) <==> forall x :: x in s ==> multiset(s)[x] == 1
  {
    if s != [] {
      var init := s[..|s| - 1];
      var last := s[|s| - 1];
      assert s == init + [last];
      assert multiset(s) == multiset(init) + multiset{last};
      DistinctCount(init);
      if Distinct(s) {
        assert Distinct(init) && last !in init;
      } else {
        var i, j :| 0 <= i < j < |s| && s[i] == s[j];
        assert multiset(s) == multiset(s[..j]) + multiset{s[j]} + multiset(s[j + 1..]) by {
          assert s == s[..j] + [s[j]] + s[j + 1..];
        }
        assert s[..j][i] == s[i];
        assert multiset(s[..j])[s[i]] >= 1;
        assert multiset(s)[s[j]] >= 2;
        assert s[j] in s;
      }
    }
  }

  /** Two strictly ascending sequences with the same elements are the same. */
  lemma StrictlySortedUnique(a: seq<string>, b: seq<string>)
    requires StrictlySorted(a) && StrictlySorted(b)
    requires forall x :: x in a <==> x in b
    ensures a == b
  {
    DistinctCount(a);
    DistinctCount(b);
    assert multiset(a) == multiset(b) by {
      forall x ensures multiset(a)[x] == multiset(b)[x] {
        if x !in a { assert x !in b; }
      }
    }
    SortedUnique(a, b);
  }

  /**
   * Sorts `a` in place, ascending by `key`; this is both Go's sort.Strings
   * (key the identity) and sort.Slice with a "less by name" comparison.
   */
  method SortBy<T(==)>(a: array<T>, key: T -> string)
    modifies a
    ensures SortedBy(a[..], key)
    ensures multiset(a[..]) == old(multiset(a[..]))
  {
    var i := 0;
    while i < a.Length
      invariant 0 <= i <= a.Length
      invariant SortedBy(a[..i], key)
      invariant multiset(a[..]) == old(multiset(a[..]))
    {
      InsertLast(a, i, key);
      i := i + 1;
    }
    assert a[..a.Length] == a[..];
  }

  /** Mid-way through one insertion step: `s[..i+1]` is in order except for the element at `j`. */
  predicate Sifting<T>(s: seq<T>, key: T -> string, i: int, j: int)
    requires 0 <= j <= i < |s|
  {
    && (forall x, y :: 0 <= x < y <= i && x != j && y != j ==> Below(key(s[x]), key(s[y])))
    && (forall y :: j < y <= i ==> Below(key(s[j]), key(s[y])))
  }

  /** Swapping the moving element with its left neighbour keeps the insertion step in shape. */
  lemma SiftStep<T>(s: seq<T>, key: T -> string, i: int, j: int)
    requires 0 < j <= i < |s|
    requires Sifting(s, key, i, j)
    requires !Below(key(s[j - 1]), key(s[j]))
    ensures Sifting(s[j - 1 := s[j]][j := s[j - 1]], key, i, j - 1)
  {
    BelowTotal(key(s[j - 1]), key(s[j]));
  }

  /** Once the moving element is no smaller than its left neighbour, the prefix is sorted. */
  lemma SiftDone<T>(s: seq<T>, key: T -> string, i: int, j: int)
    requires 0 <= j <= i < |s|
    requires Sifting(s, key, i, j)
    requires j == 0 || Below(key(s[j - 1]), key(s[j]))
    ensures SortedBy(s[..i + 1], key)
  {
    if j > 0 {
      forall x | 0 <= x < j - 1
        ensures Below(key(s[x]), key(s[j]))
      {
        BelowTrans(key(s[x]), key(s[j - 1]), key(s[j]));
      }
    }
  }

  /** One step of insertion sort: moves a[i] down into the sorted a[..i]. */
  method InsertLast<T(==)>(a: array<T>, i: int, key: T -> string)
    requires 0 <= i < a.Length
    requires SortedBy(a[..i], key)
    modifies a
    ensures SortedBy(a[..i + 1], key)
    ensures multiset(a[..]) == old(multiset(a[..]))
  {
    var j := i;
    while j > 0 && !Below(key(a[j - 1]), key(a[j]))
      invariant 0 <= j <= i
      invariant multiset(a[..]) == old(multiset(a[..]))
      invariant Sifting(a[..], key, i, j)
    {
      SiftStep(a[..], key, i, j);
      a[j - 1], a[j] := a[j], a[j - 1];
      j := j - 1;
    }
    SiftDone(a[..], key, i, j);
  }

  /** sort.Strings: sorts the slice in place. */
  method SortStrings(a: array<string>)
    modifies a
    ensures Sorted(a[..])
    ensures multiset(a[..]) == old(multiset(a[..]))
  {
    SortBy(a, (s: string) => s);
  }

  /** sort.Strings on a fresh copy of `s`. */
  method SortedCopy(s: seq<string>) returns (r: seq<string>)
    ensures Sorted(r) && multiset(r) == multiset(s)
  {
    var a := new string[|s|](k => if 0 <= k < |s| then s[k] else "");
    assert a[..] == s;
    SortStrings(a);
    r := a[..];
  }

  /** A sorted sequence is fixed by its elements: sorting has exactly one outcome. */
  lemma {:induction false} SortedUnique(a: seq<string>, b: seq<string>)
    requires Sorted(a) && Sorted(b) && multiset(a) == multiset(b)
    ensures a == b
  {
    if a != [] {
      assert |a| == |multiset(a)| == |multiset(b)| == |b|;
      SortedHead(a, b);
      assert a == [a[0]] + a[1..];
      assert b == [b[0]] + b[1..];
      assert multiset(a[1..]) == multiset(a) - multiset{a[0]};
      assert multiset(b[1..]) == multiset(b) - multiset{b[0]};
      SortedTail(a);
      SortedTail(b);
      SortedUnique(a[1..], b[1..]);
    }
  }

  lemma SortedTail(a: seq<string>)
    requires Sorted(a) && a != []
    ensures Sorted(a[1..])
  {
    forall i, j | 0 <= i < j < |a| - 1 ensures Below(a[1..][i], a[1..][j]) {
      assert a[1..][i] == a[i + 1] && a[1..][j] == a[j + 1];
    }
  }

  /** The first element of a sorted sequence is fixed by its elements. */
  lemma SortedHead(a: seq<string>, b: seq<string>)
    requires Sorted(a) && Sorted(b) && multiset(a) == multiset(b) && a != [] && b != []
    ensures a[0] == b[0]
  {
    assert a[0] in multiset(b);
    var j :| 0 <= j < |b| && b[j] == a[0];
    assert b[0] in multiset(a);
    var k :| 0 <= k < |a| && a[k] == b[0];
    if j > 0 { assert Below(b[0], b[j]); } else { BelowRefl(b[0]); }
    if k > 0 { assert Below(a[0], a[k]); } else { BelowRefl(a[0]); }
    BelowAntisym(a[0], b[0]);
  }

  /** Inserts `x` into a sorted sequence, keeping it sorted. */
  function Insert(x: string, s: seq<string>): (r: seq<string>)
    requires Sorted(s)
    ensures Sorted(r)
    ensures multiset(r) == multiset(s) + multiset{x}
  {
    if s == [] then [x]
    else if Below(x, s[0]) then
      InsertFront(x, s);
      [x] + s
    else
      BelowTotal(x, s[0]);
      SortedTail(s);
      var t := Insert(x, s[1..]);
      InsertBehind(x, s, t);
      [s[0]] + t
  }

  /** A lower bound of a sorted sequence can go in front of it. */
  lemma ConsSorted(x: string, s: seq<string>)
    requires Sorted(s) && forall j :: 0 <= j < |s| ==> Below(x, s[j])
    ensures Sorted([x] + s)
  {
    forall i, j | 0 <= i < j < |s| + 1 ensures Below(([x] + s)[i], ([x] + s)[j]) {
      if i > 0 {
        assert ([x] + s)[i] == s[i - 1];
      }
    }
  }

  lemma InsertFront(x: string, s: seq<string>)
    requires Sorted(s) && s != [] && Below(x, s[0])
    ensures Sorted([x] + s)
  {
    forall j | 0 < j < |s| ensures Below(x, s[j]) { BelowTrans(x, s[0], s[j]); }
    ConsSorted(x, s);
  }

  lemma InsertBehind(x: string, s: seq<string>, t: seq<string>)
    requires Sorted(s) && s != [] && Below(s[0], x)
    requires Sorted(t) && multiset(t) == multiset(s[1..]) + multiset{x}
    ensures Sorted([s[0]] + t) && multiset([s[0]] + t) == multiset(s) + multiset{x}
  {
    assert s == [s[0]] + s[1..];
    forall j | 0 <= j < |t| ensures Below(s[0], t[j]) {
      assert t[j] in multiset(t);
      if t[j] != x {
        assert t[j] in multiset(s[1..]);
        var k :| 0 <= k < |s[1..]| && s[1..][k] == t[j];
        assert Below(s[0], s[k + 1]);
      }
    }
    ConsSorted(s[0], t);
  }

  /** The ascending sequence holding exactly the elements of `m`. */
  ghost function SortedOf(m: multiset<string>): (r: seq<string>)
    ensures Sorted(r)
    ensures multiset(r) == m
    decreases |m|
  {
    if m == multiset{} then []
    else
      var x :| x in m;
      Insert(x, SortedOf(m - multiset{x}))
  }

  // ---------------------------------------------------------------------------
  // Queries over flattened path lists

  /** The elements of `s` that satisfy `keep`, in their order. */
  function Filter<T>(s: seq<T>, keep: T -> bool): seq<T>
  {
    if s == [] then []
    else
      var rest := Filter(s[..|s| - 1], keep);
      if keep(s[|s| - 1]) then rest + [s[|s| - 1]] else rest
  }

  /** Filtering by two tests that agree on the elements gives the same result. */
  lemma {:induction false} FilterAgree<T>(s: seq<T>, f: T -> bool, g: T -> bool)
    requires forall x :: x in s ==> f(x) == g(x)
    ensures Filter(s, f) == Filter(s, g)
  {
    if s != [] {
      FilterAgree(s[..|s| - 1], f, g);
    }
  }

  /** `sub` is `s` with some elements left out, the rest in the same order. */
  predicate SubsequenceOf<T(==)>(sub: seq<T>, s: seq<T>)
    decreases |s|
  {
    if sub == [] then true
    else if s == [] then false
    else if sub[|sub| - 1] == s[|s| - 1] then SubsequenceOf(sub[..|sub| - 1], s[..|s| - 1])
    else SubsequenceOf(sub, s[..|s| - 1])
  }

  lemma FilterSpec<T>(s: seq<T>, keep: T -> bool)
    ensures forall x :: x in Filter(s, keep) <==> x in s && keep(x)
    ensures SubsequenceOf(Filter(s, keep), s)
  {
    FilterIn(s, keep);
    FilterSub(s, keep);
  }

  lemma {:induction false} FilterIn<T>(s: seq<T>, keep: T -> bool)
    ensures forall x :: x in Filter(s, keep) <==> x in s && keep(x)
  {
    if s != [] {
      var init := s[..|s| - 1];
      FilterIn(init, keep);
      assert s == init + [s[|s| - 1]];
    }
  }

  lemma {:induction false} FilterSub<T>(s: seq<T>, keep: T -> bool)
    ensures SubsequenceOf(Filter(s, keep), s)
  {
    if s != [] {
      var init := s[..|s| - 1];
      FilterSub(init, keep);
      var r := Filter(s, keep);
      if keep(s[|s| - 1]) {
        assert r[..|r| - 1] == Filter(init, keep);
      } else if r != [] {
        FilterIn(init, keep);
        assert r[|r| - 1] in r;
      }
    }
  }

  lemma {:induction false} SubsequenceIn<T>(sub: seq<T>, s: seq<T>)
    requires SubsequenceOf(sub, s)
    ensures forall x :: x in sub ==> x in s
    decreases |s|
  {
    if sub != [] {
      var init := s[..|s| - 1];
      assert s == init + [s[|s| - 1]];
      if sub[|sub| - 1] == s[|s| - 1] {
        SubsequenceIn(sub[..|sub| - 1], init);
        assert sub == sub[..|sub| - 1] + [sub[|sub| - 1]];
      } else {
        SubsequenceIn(sub, init);
      }
    }
  }

  /** Leaving elements out of a sorted sequence keeps it sorted. */
  lemma {:induction false} SubsequenceSorted(sub: seq<string>, s: seq<string>)
    requires SubsequenceOf(sub, s) && Sorted(s)
    ensures Sorted(sub)
    decreases |s|
  {
    if sub != [] {
      var init := s[..|s| - 1];
      assert Sorted(init);
      if sub[|sub| - 1] == s[|s| - 1] {
        var front := sub[..|sub| - 1];
        SubsequenceSorted(front, init);
        SubsequenceIn(front, init);
        forall i, j | 0 <= i < j < |sub| ensures Below(sub[i], sub[j]) {
          if j == |sub| - 1 {
            assert sub[i] in front;
            var k :| 0 <= k < |init| && init[k] == sub[i];
          } else {
            assert sub[i] == front[i] && sub[j] == front[j];
          }
        }
      } else {
        SubsequenceSorted(sub, init);
      }
    }
  }

  /** The paths FlattenWithPrefix keeps for a non-empty prefix, in their order. */
  function PrefixFilter(all: seq<string>, prefix: string): seq<string>
  {
    Filter(all, (x: string) => AtOrUnder(x, prefix))
  }

  lemma PrefixFilterSpec(all: seq<string>, prefix: string)
    ensures forall x :: x in PrefixFilter(all, prefix) <==> x in all && AtOrUnder(x, prefix)
    ensures SubsequenceOf(PrefixFilter(all, prefix), all)
    ensures Sorted(all) ==> Sorted(PrefixFilter(all, prefix))
  {
    FilterSpec(all, (x: string) => AtOrUnder(x, prefix));
    if Sorted(all) {
      SubsequenceSorted(PrefixFilter(all, prefix), all);
    }
  }

  /** The loop of FlattenWithPrefix in both chassis packages. */
  method FilterByPrefix(all: seq<string>, prefix: string) returns (filtered: seq<string>)
    ensures prefix == "" ==> filtered == all
    ensures prefix != "" ==> filtered == PrefixFilter(all, prefix)
  {
    if prefix == "" {
      return all;
    }
    filtered := [];
    var i := 0;
    while i < |all|
      invariant 0 <= i <= |all|
      invariant filtered == PrefixFilter(all[..i], prefix)
    {
      var path := all[i];
      assert all[..i + 1][..i] == all[..i];
      if path == prefix || HasPrefix(path, prefix + ".") {
        filtered := filtered + [path];
      }
      i := i + 1;
    }
    assert all[..|all|] == all;
  }

  /** A linear search: the loop of Exists in both chassis packages, and strings.Contains for one character. */
  method Contains<T(==)>(all: seq<T>, s: T) returns (found: bool)
    ensures found <==> s in all
  {
    var i := 0;
    while i < |all|
      invariant 0 <= i <= |all|
      invariant s !in all[..i]
    {
      if all[i] == s {
        return true;
      }
      i := i + 1;
    }
    return false;
  }

  // ---------------------------------------------------------------------------
  // Go maps are iterated in an unspecified order; facts collected from every
  // key of a map are therefore summed as a multiset.

  /** The multiset union of `f(k, m[k])` over the keys `keys` of `m`. */
  ghost function SumOver<K, V>(m: map<K, V>, keys: set<K>, f: (K, V) -> multiset<string>): multiset<string>
    requires keys <= m.Keys
    decreases keys
  {
    if keys == {} then multiset{}
    else
      var k :| k in keys;
      f(k, m[k]) + SumOver(m, keys - {k}, f)
  }

  /** Any key may be taken first. */
  lemma {:induction false} SumOverPick<K, V>(m: map<K, V>, keys: set<K>, f: (K, V) -> multiset<string>, y: K)
    requires keys <= m.Keys && y in keys
    ensures SumOver(m, keys, f) == f(y, m[y]) + SumOver(m, keys - {y}, f)
    decreases keys
  {
    var x :| x in keys && SumOver(m, keys, f) == f(x, m[x]) + SumOver(m, keys - {x}, f);
    if x != y {
      SumOverPick(m, keys - {x}, f, y);
      SumOverPick(m, keys - {y}, f, x);
      assert keys - {x} - {y} == keys - {y} - {x};
    }
  }

  /** Only the entries under `keys` matter. */
  lemma {:induction false} SumOverAgree<K, V>(m: map<K, V>, m': map<K, V>, keys: set<K>, f: (K, V) -> multiset<string>)
    requires keys <= m.Keys && keys <= m'.Keys
    requires forall k :: k in keys ==> m[k] == m'[k]
    ensures SumOver(m, keys, f) == SumOver(m', keys, f)
    decreases keys
  {
    if keys != {} {
      var x :| x in keys && SumOver(m, keys, f) == f(x, m[x]) + SumOver(m, keys - {x}, f);
      SumOverPick(m', keys, f, x);
      SumOverAgree(m, m', keys - {x}, f);
    }
  }

  /** Setting one key replaces its share of the sum and leaves the other keys' shares alone. */
  lemma SumOverUpdate<K, V>(m: map<K, V>, k: K, v: V, f: (K, V) -> multiset<string>)
    ensures SumOver(m[k := v], m[k := v].Keys, f) == f(k, v) + SumOver(m, m.Keys - {k}, f)
    ensures k in m ==> SumOver(m, m.Keys, f) == f(k, m[k]) + SumOver(m, m.Keys - {k}, f)
    ensures k !in m ==> SumOver(m, m.Keys, f) == SumOver(m, m.Keys - {k}, f)
  {
    var m' := m[k := v];
    SumOverPick(m', m'.Keys, f, k);
    assert m'.Keys - {k} == m.Keys - {k};
    SumOverAgree(m', m, m.Keys - {k}, f);
    if k in m {
      SumOverPick(m, m.Keys, f, k);
    } else {
      assert m.Keys - {k} == m.Keys;
    }
  }
}
