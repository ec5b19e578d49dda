/**
 * The order-preserving chassis of pkg/chassis/chassis.go: chassis.yaml kept
 * as a YAML node tree, flattened in document order, and the algebra of dotted
 * paths (parent, ancestors, children, descendants) built on top of it.
 *
 * The document is `root-key: {layer: [items]}`. An item is a scalar (a leaf
 * named by its text) or a mapping whose keys are names and whose values may be
 * nested sequences of items.
 */
module ChassisTree {
  import opened Strs
  import opened YamlTree

  /** The parsed chassis: the pointer to the document node may be nil. */
  datatype Chassis = Chassis(node: Option<YNode>)

  // ---------------------------------------------------------------------------
  // Flatten, as a pre-order walk in document order

  /** What flattenSequence emits for the first `n` items of sequence node `node`: each item's paths in turn. */
  function SeqPaths(prefix: string, node: YNode, n: nat): seq<string>
    requires node.Sequence? && n <= |node.items|
    decreases node, n
  {
    if n == 0 then []
    else
      SeqPaths(prefix, node, n - 1) +
        match node.items[n - 1]
        case Scalar(v) => [prefix + "." + v]
        case Mapping(pairs) => KeyPaths(prefix, node.items[n - 1], |pairs|)
        case _ => []
  }

  /** For the first `n` keys of mapping node `node`: each key's path, then the paths below it when its value is a sequence. */
  function KeyPaths(prefix: string, node: YNode, n: nat): seq<string>
    requires node.Mapping? && n <= |node.pairs|
    decreases node, n
  {
    if n == 0 then []
    else
      var p := node.pairs[n - 1];
      var newPrefix := prefix + "." + Value(p.key);
      KeyPaths(prefix, node, n - 1) + [newPrefix] +
        (if p.val.Sequence? then SeqPaths(newPrefix, p.val, |p.val.items|) else [])
  }

  /** For the first `n` root keys: each key, then its layers when its value is a mapping. */
  function RootPaths(root: YNode, n: nat): seq<string>
    requires root.Mapping? && n <= |root.pairs|
  {
    if n == 0 then []
    else
      var p := root.pairs[n - 1];
      RootPaths(root, n - 1) + [Value(p.key)] +
        (if p.val.Mapping? then KeyPaths(Value(p.key), p.val, |p.val.pairs|) else [])
  }

  /** Flatten's result: nothing without a document or with a root that is not a mapping. */
  function DocPaths(c: Chassis): seq<string> {
    if c.node.None? || |Content(c.node.value)| == 0 then []
    else
      var root := Content(c.node.value)[0];
      if root.Mapping? then RootPaths(root, |root.pairs|) else []
  }

  /** Every path flattenSequence emits, at any depth, lies below its prefix. */
  lemma {:induction false} SeqPathsUnder(prefix: string, node: YNode, n: nat)
    requires node.Sequence? && n <= |node.items|
    ensures forall x :: x in SeqPaths(prefix, node, n) ==> HasPrefix(x, prefix + ".")
    decreases node, n
  {
    if n > 0 {
      SeqPathsUnder(prefix, node, n - 1);
      var item := node.items[n - 1];
      if item.Mapping? {
        KeyPathsUnder(prefix, item, |item.pairs|);
      } else if item.Scalar? {
        assert (prefix + "." + item.value)[..|prefix + "."|] == prefix + ".";
      }
    }
  }

  lemma {:induction false} KeyPathsUnder(prefix: string, node: YNode, n: nat)
    requires node.Mapping? && n <= |node.pairs|
    ensures forall x :: x in KeyPaths(prefix, node, n) ==> HasPrefix(x, prefix + ".")
    decreases node, n
  {
    if n > 0 {
      KeyPathsUnder(prefix, node, n - 1);
      var p := node.pairs[n - 1];
      var newPrefix := prefix + "." + Value(p.key);
      assert newPrefix[..|prefix + "."|] == prefix + ".";
      if p.val.Sequence? {
        SeqPathsUnder(newPrefix, p.val, |p.val.items|);
        forall x | x in SeqPaths(newPrefix, p.val, |p.val.items|) ensures HasPrefix(x, prefix + ".") {
          assert x[..|newPrefix + "."|] == newPrefix + ".";
          assert x[..|prefix + "."|] == (newPrefix + ".")[..|prefix + "."|];
        }
      }
    }
  }

  /** An empty document, or one whose root is not a mapping, flattens to nothing; otherwise the first path is the first root key. */
  lemma DocPathsStart(c: Chassis)
    ensures c.node.None? || Content(c.node.value) == [] ==> DocPaths(c) == []
    ensures c.node.Some? && Content(c.node.value) != [] && !Content(c.node.value)[0].Mapping? ==> DocPaths(c) == []
    ensures DocPaths(c) != [] ==> var root := Content(c.node.value)[0];
      root.Mapping? && root.pairs != [] && DocPaths(c)[0] == Value(root.pairs[0].key)
  {
    if DocPaths(c) != [] {
      var root := Content(c.node.value)[0];
      RootPathsFirst(root, |root.pairs|);
    }
  }

  lemma {:induction false} RootPathsFirst(root: YNode, n: nat)
    requires root.Mapping? && n <= |root.pairs|
    ensures RootPaths(root, n) != [] <==> n > 0
    ensures n > 0 ==> RootPaths(root, n)[0] == Value(root.pairs[0].key)
  {
    if n > 1 {
      RootPathsFirst(root, n - 1);
    }
  }

  /** flattenSequence: the items of a sequence node, in order, recursing into sequence-valued keys. */
  method FlattenSequence(prefix: string, node: YNode) returns (paths: seq<string>)
    requires node.Sequence?
    ensures paths == SeqPaths(prefix, node, |node.items|)
    decreases node
  {
    var items := Content(node);
    paths := [];
    var i := 0;
    while i < |items|
      invariant 0 <= i <= |items|
      invariant paths == SeqPaths(prefix, node, i)
    {
      var item := items[i];
      match item {
        case Scalar(v) => {
          paths := paths + [prefix + "." + v];
        }
        case Mapping(pairs) => {
          var more := FlattenMapping(prefix, item);
          paths := paths + more;
        }
        case _ => {}
      }
      i := i + 1;
    }
  }

  /** The loop of flattenSequence over one mapping item's keys. */
  method FlattenMapping(prefix: string, node: YNode) returns (paths: seq<string>)
    requires node.Mapping?
    ensures paths == KeyPaths(prefix, node, |node.pairs|)
    decreases node
  {
    var pairs := node.pairs;
    paths := [];
    var k := 0;
    while k < |pairs|
      invariant 0 <= k <= |pairs|
      invariant paths == KeyPaths(prefix, node, k)
    {
      var key := Value(pairs[k].key);
      var value := pairs[k].val;
      var newPrefix := prefix + "." + key;
      paths := paths + [newPrefix];
      if value.Sequence? {
        var more := FlattenSequence(newPrefix, value);
        paths := paths + more;
      }
      k := k + 1;
    }
  }

  /** Flatten: root keys, their layers, and each layer's sequence, in document order. */
  method Flatten(c: Chassis) returns (paths: seq<string>)
    ensures paths == DocPaths(c)
  {
    if c.node.None? || |Content(c.node.value)| == 0 {
      return [];
    }
    paths := [];
    var rootNode := Content(c.node.value)[0];
    if !rootNode.Mapping? {
      return [];
    }
    var i := 0;
    while i < |rootNode.pairs|
      invariant 0 <= i <= |rootNode.pairs|
      invariant paths == RootPaths(rootNode, i)
    {
      var rootKey := Value(rootNode.pairs[i].key);
      var rootValue := rootNode.pairs[i].val;
      paths := paths + [rootKey];
      if rootValue.Mapping? {
        // the layer loop is the loop of flattenSequence's mapping case, with the root key as prefix
        var layers := FlattenMapping(rootKey, rootValue);
        paths := paths + layers;
      }
      i := i + 1;
    }
  }

  // ---------------------------------------------------------------------------
  // Path algebra

  /** A dot-free tail of `init` stays dot-free with a non-dot character appended. */
  lemma DotFreeSnoc(init: string, c: char, k: nat)
    requires k <= |init| && c != '.'
    ensures DotFree(init[k..] + [c]) <==> DotFree(init[k..])
    ensures (init + [c])[k..] == init[k..] + [c]
  {
    var t := init[k..] + [c];
    if DotFree(init[k..]) {
      forall i | 0 <= i < |t| ensures t[i] != '.' {
        if i < |init[k..]| { assert t[i] == init[k..][i]; }
      }
    }
    if DotFree(t) {
      forall i | 0 <= i < |init[k..]| ensures init[k..][i] != '.' {
        assert t[i] == init[k..][i];
      }
    }
  }

  /** strings.LastIndex(s, "."), -1 when there is no dot. */
  function LastDot(s: string): (r: int)
    ensures -1 <= r < |s|
    ensures r == -1 <==> DotFree(s)
    ensures r >= 0 ==> s[r] == '.' && DotFree(s[r + 1..])
  {
    if s == [] then -1
    else if s[|s| - 1] == '.' then |s| - 1
    else
      var r := LastDot(s[..|s| - 1]);
      DotFreeSnoc(s[..|s| - 1], s[|s| - 1], r + 1);
      assert s == s[..|s| - 1] + [s[|s| - 1]];
      r
  }

  /**
   * Parent: the path with its last segment and that segment's dot removed;
   * "" when the path has no dot.
   */
  function Parent(p: string): (r: string)
    ensures DotFree(p) ==> r == ""
    ensures !DotFree(p) ==> HasPrefix(p, r + ".") && DotFree(p[|r| + 1..])
  {
    var idx := LastDot(p);
    if idx == -1 then "" else p[..idx]
  }

  /** IsDescendantOf: `p` lies strictly below `a`. */
  predicate IsDescendantOf(p: string, a: string) {
    HasPrefix(p, a + ".")
  }

  lemma DescendantIrreflexive(p: string)
    ensures !IsDescendantOf(p, p)
  {
  }

  lemma DescendantTransitive(p: string, q: string, a: string)
    requires IsDescendantOf(p, q) && IsDescendantOf(q, a)
    ensures IsDescendantOf(p, a)
  {
    assert p[..|a + "."|] == p[..|q + "."|][..|a + "."|];
  }

  /** The dot ending a proper prefix `x` of `p` lies at or before `p`'s last dot. */
  lemma DescendantOfParent(p: string, x: string)
    requires !DotFree(p) && IsDescendantOf(p, x)
    ensures x == Parent(p) || IsDescendantOf(Parent(p), x)
  {
    var q := Parent(p);
    assert p[|x|] == '.';
    assert |x| <= |q|;
    if |x| < |q| {
      assert q[..|x + "."|] == p[..|x + "."|];
    } else {
      assert x == p[..|x|] == q;
    }
  }

  /** Ancestors' result: the parent, its parent, and so on until Parent gives "". */
  function AncestorChain(p: string): seq<string>
    decreases |p|
  {
    var q := Parent(p);
    if q == "" then [] else [q] + AncestorChain(q)
  }

  /** The ancestors are exactly the non-empty paths that `p` lies below. */
  lemma {:induction false} AncestorsSpec(p: string, x: string)
    ensures x in AncestorChain(p) <==> x != "" && IsDescendantOf(p, x)
    decreases |p|
  {
    var q := Parent(p);
    if q == "" {
      if x != "" && IsDescendantOf(p, x) {
        assert p[|x|] == '.';
        if !DotFree(p) {
          DescendantOfParent(p, x);
        }
      }
    } else {
      AncestorsSpec(q, x);
      if x == q {
      } else if x != "" && IsDescendantOf(q, x) {
        DescendantTransitive(p, q, x);
      } else if x != "" && IsDescendantOf(p, x) {
        DescendantOfParent(p, x);
      }
    }
  }

  /** Nearest first: each ancestor lies below every later one. */
  lemma {:induction false} AncestorsNearestFirst(p: string)
    ensures forall i, j :: 0 <= i < j < |AncestorChain(p)| ==> IsDescendantOf(AncestorChain(p)[i], AncestorChain(p)[j])
    decreases |p|
  {
    var q := Parent(p);
    if q != "" {
      AncestorsNearestFirst(q);
      var c := AncestorChain(p);
      var rest := AncestorChain(q);
      assert c == [q] + rest;
      forall i, j | 0 <= i < j < |c| ensures IsDescendantOf(c[i], c[j]) {
        assert c[j] == rest[j - 1];
        if i == 0 {
          assert c[j] in rest;
          AncestorsSpec(q, c[j]);
        } else {
          assert c[i] == rest[i - 1];
        }
      }
    }
  }

  /** The number of dots in `s`. */
  function Dots(s: string): nat {
    if s == [] then 0 else Dots(s[..|s| - 1]) + (if s[|s| - 1] == '.' then 1 else 0)
  }

  lemma {:induction false} DotsAppend(a: string, b: string)
    ensures Dots(a + b) == Dots(a) + Dots(b)
    decreases |b|
  {
    if b == [] {
      assert a + b == a;
    } else {
      DotsAppend(a, b[..|b| - 1]);
      assert (a + b)[..|a + b| - 1] == a + b[..|b| - 1];
    }
  }

  lemma {:induction false} DotsFree(s: string)
    requires DotFree(s)
    ensures Dots(s) == 0
  {
    if s != [] {
      DotsFree(s[..|s| - 1]);
    }
  }

  /**
   * There is one ancestor per dot, except that a leading dot ends the chain
   * (Parent of ".a" is ""), so it counts for nothing.
   */
  lemma {:induction false} AncestorsCount(p: string)
    ensures |AncestorChain(p)| == Dots(p) - (if |p| > 0 && p[0] == '.' then 1 else 0)
    decreases |p|
  {
    var q := Parent(p);
    if DotFree(p) {
      DotsFree(p);
    } else {
      var t := p[|q| + 1..];
      assert p == q + "." + t;
      DotsFree(t);
      DotsAppend(q + ".", t);
      DotsAppend(q, ".");
      assert Dots(".") == 1 by { assert "."[..0] == ""; }
      if q != "" {
        AncestorsCount(q);
        assert q[0] == p[0];
      }
    }
  }

  /** A leading dot is where the chain and the dot count part ways. */
  lemma LeadingDotAncestors()
    ensures AncestorChain(".a") == [] && Dots(".a") == 1
  {
    assert Parent(".a") == "";
    assert ".a"[..1] == ".";
    assert Dots(".") == 1 by { assert "."[..0] == ""; }
  }

  /** Children's test: `x` is `p`, a dot, and one more segment. */
  predicate IsChild(x: string, p: string) {
    HasPrefix(x, p + ".") && DotFree(x[|p| + 1..])
  }

  /** A direct child is exactly a path with a dot whose parent is `p`. */
  lemma ChildIffParent(x: string, p: string)
    ensures IsChild(x, p) <==> !DotFree(x) && Parent(x) == p
  {
    if IsChild(x, p) {
      assert x[|p|] == '.';
      var idx := LastDot(x);
      assert idx >= |p|;
      assert idx <= |p|;
    }
  }

  /** ChildrenMap's result for the paths seen so far: each non-empty parent to its children, in order. */
  function ChildrenMapOf(paths: seq<string>): map<string, seq<string>> {
    if paths == [] then map[]
    else FileUnder(ChildrenMapOf(paths[..|paths| - 1]), paths[|paths| - 1])
  }

  /** `m` with `x` appended under its parent, when it has one. */
  function FileUnder(m: map<string, seq<string>>, x: string): map<string, seq<string>> {
    var parent := Parent(x);
    if parent != "" then m[parent := (if parent in m then m[parent] else []) + [x]] else m
  }

  lemma ChildrenMapNext(paths: seq<string>, i: nat)
    requires i < |paths|
    ensures ChildrenMapOf(paths[..i + 1]) == FileUnder(ChildrenMapOf(paths[..i]), paths[i])
  {
    assert paths[..i + 1][..i] == paths[..i];
  }

  /** The paths whose parent is `k`, in order. */
  function WithParent(paths: seq<string>, k: string): seq<string> {
    Filter(paths, (x: string) => Parent(x) == k)
  }

  /** ChildrenMap files every path under its non-empty parent, in order, and has no other key. */
  lemma {:induction false} ChildrenMapSpec(paths: seq<string>, k: string)
    ensures k in ChildrenMapOf(paths) <==> k != "" && WithParent(paths, k) != []
    ensures k in ChildrenMapOf(paths) ==> ChildrenMapOf(paths)[k] == WithParent(paths, k)
  {
    if paths != [] {
      ChildrenMapSpec(paths[..|paths| - 1], k);
    }
  }

  /** The keys of ChildrenMap are the non-empty parents of flattened paths. */
  lemma ChildrenMapKeys(paths: seq<string>, k: string)
    ensures k in ChildrenMapOf(paths) <==> k != "" && exists x :: x in paths && Parent(x) == k
  {
    ChildrenMapSpec(paths, k);
    FilterSpec(paths, (x: string) => Parent(x) == k);
    if k != "" && exists x :: x in paths && Parent(x) == k {
      var x :| x in paths && Parent(x) == k;
      assert x in WithParent(paths, k);
    }
  }

  /** For a non-empty path, ChildrenMap and Children agree. */
  lemma ChildrenMapIsChildren(paths: seq<string>, k: string)
    requires k != ""
    ensures WithParent(paths, k) == Filter(paths, (x: string) => IsChild(x, k))
  {
    forall x | x in paths ensures (Parent(x) == k) == IsChild(x, k) {
      ChildIffParent(x, k);
    }
    FilterAgree(paths, (x: string) => Parent(x) == k, (x: string) => IsChild(x, k));
  }

  /** Exists: whether `p` is a flattened path. */
  method Exists(c: Chassis, p: string) returns (found: bool)
    ensures found <==> p in DocPaths(c)
  {
    var all := Flatten(c);
    found := Contains(all, p);
  }

  /** Root: the first flattened path, which is the first root key, or "". */
  method Root(c: Chassis) returns (r: string)
    ensures DocPaths(c) == [] ==> r == ""
    ensures DocPaths(c) != [] ==> r == Value(Content(c.node.value)[0].pairs[0].key)
  {
    var paths := Flatten(c);
    DocPathsStart(c);
    if |paths| > 0 {
      return paths[0];
    }
    return "";
  }

  /** Children: the flattened paths one segment below `p`, in flatten order. */
  method Children(c: Chassis, p: string) returns (children: seq<string>)
    ensures children == Filter(DocPaths(c), (x: string) => IsChild(x, p))
  {
    var all := Flatten(c);
    children := [];
    var prefix := p + ".";
    var i := 0;
    while i < |all|
      invariant 0 <= i <= |all|
      invariant children == Filter(all[..i], (x: string) => IsChild(x, p))
    {
      var path := all[i];
      assert all[..i + 1][..i] == all[..i];
      if HasPrefix(path, prefix) {
        var remainder := path[|prefix|..];
        var hasDot := Contains(remainder, '.');
        if !hasDot {
          children := children + [path];
        }
      }
      i := i + 1;
    }
    assert all[..i] == all;
  }

  /** ChildrenMap: every flattened path filed under its non-empty parent. */
  method ChildrenMap(c: Chassis) returns (result: map<string, seq<string>>)
    ensures result == ChildrenMapOf(DocPaths(c))
  {
    var all := Flatten(c);
    result := map[];
    var i := 0;
    while i < |all|
      invariant 0 <= i <= |all|
      invariant result == ChildrenMapOf(all[..i])
    {
      var path := all[i];
      ChildrenMapNext(all, i);
      var parent := Parent(path);
      if parent != "" {
        result := result[parent := (if parent in result then result[parent] else []) + [path]];
      }
      i := i + 1;
    }
    assert all[..i] == all;
  }

  /** Ancestors: repeated Parent until it gives "". */
  method Ancestors(p: string) returns (ancestors: seq<string>)
    ensures ancestors == AncestorChain(p)
  {
    ancestors := [];
    var current := p;
    while true
      invariant ancestors + AncestorChain(current) == AncestorChain(p)
      decreases |current|
    {
      var parent := Parent(current);
      if parent == "" {
        break;
      }
      ancestors := ancestors + [parent];
      current := parent;
    }
  }

  /** AncestorsMap: each flattened path to its ancestors. */
  method AncestorsMap(c: Chassis) returns (result: map<string, seq<string>>)
    ensures forall x :: x in result <==> x in DocPaths(c)
    ensures forall x :: x in result ==> result[x] == AncestorChain(x)
  {
    var all := Flatten(c);
    result := map[];
    var i := 0;
    while i < |all|
      invariant 0 <= i <= |all|
      invariant forall x :: x in result <==> x in all[..i]
      invariant forall x :: x in result ==> result[x] == AncestorChain(x)
    {
      var path := all[i];
      assert all[..i + 1] == all[..i] + [path];
      var anc := Ancestors(path);
      result := result[path := anc];
      i := i + 1;
    }
    assert all[..i] == all;
  }

  /** FlattenWithPrefix: the paths equal to `prefix` or below it, in flatten order; all of them for "". */
  method FlattenWithPrefix(c: Chassis, prefix: string) returns (filtered: seq<string>)
    ensures prefix == "" ==> filtered == DocPaths(c)
    ensures prefix != "" ==> filtered == PrefixFilter(DocPaths(c), prefix)
    ensures forall x :: x in filtered <==> x in DocPaths(c) && (prefix == "" || AtOrUnder(x, prefix))
  {
    var all := Flatten(c);
    filtered := FilterByPrefix(all, prefix);
    PrefixFilterSpec(all, prefix);
  }
}
