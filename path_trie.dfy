/**
 * The display tree of the list commands (actions/list/list.go and
 * action/list.go, which carry the same splitPath and buildTree): a chassis
 * path is cut into its non-empty segments, and the segments of every path are
 * threaded into a trie whose root has the empty name. Siblings have distinct
 * names and keep the order in which they were first inserted; action/list.go
 * sorts each node's children by name before printing it.
 *
 * Go builds the trie through pointers, walking a `current` pointer down and
 * appending to `current.children`. Here the trie is a value and `current` is
 * its address: the child indices from the root.
 */
module PathTrie {
  import opened Strs

  // ---------------------------------------------------------------------------
  // splitPath

  /** The segments of a path with the empty ones dropped. */
  function Segments(path: string): seq<string> {
    Filter(Split(path), (x: string) => x != "")
  }

  /** Every segment is non-empty and dot-free, and leading, trailing and repeated dots leave nothing behind. */
  lemma SegmentsSpec(path: string)
    ensures forall x :: x in Segments(path) ==> x != "" && DotFree(x)
    ensures forall x :: x in Segments(path) <==> x in Split(path) && x != ""
  {
    FilterSpec(Split(path), (x: string) => x != "");
    SplitDotFree(path);
    forall x | x in Segments(path) ensures DotFree(x) {
      var i :| 0 <= i < |Split(path)| && Split(path)[i] == x;
    }
  }

  lemma {:induction false} FilterKeepsAll<T>(s: seq<T>, keep: T -> bool)
    requires forall x :: x in s ==> keep(x)
    ensures Filter(s, keep) == s
  {
    if s != [] {
      FilterKeepsAll(s[..|s| - 1], keep);
    }
  }

  /** With no empty segment to drop, joining the segments with "." gives back the path. */
  lemma SegmentsJoin(path: string)
    requires "" !in Split(path)
    ensures Join(Segments(path)) == path
  {
    FilterKeepsAll(Split(path), (x: string) => x != "");
    JoinSplit(path);
  }

  /** splitPath: a character loop collecting the non-empty runs between dots. */
  method SplitPath(path: string) returns (parts: seq<string>)
    ensures parts == Segments(path)
  {
    parts := [];
    var current := "";
    var i := 0;
    while i < |path|
      invariant 0 <= i <= |path|
      invariant var sp := Split(path[..i]);
        current == sp[|sp| - 1] && parts == Filter(sp[..|sp| - 1], (x: string) => x != "")
    {
      ghost var sp := Split(path[..i]);
      assert path[..i + 1][..i] == path[..i];
      var c := path[i];
      if c == '.' {
        assert Split(path[..i + 1]) == sp + [""];
        assert (sp + [""])[..|sp|] == sp;
        assert sp == sp[..|sp| - 1] + [current];
        if current != "" {
          parts := parts + [current];
          current := "";
        }
      } else {
        assert Split(path[..i + 1]) == sp[..|sp| - 1] + [current + [c]];
        current := current + [c];
      }
      i := i + 1;
    }
    ghost var sp := Split(path);
    assert path[..i] == path;
    assert sp == sp[..|sp| - 1] + [current];
    if current != "" {
      parts := parts + [current];
    }
  }

  // ---------------------------------------------------------------------------
  // buildTree

  datatype Trie = Node(name: string, children: seq<Trie>)

  function NameOf(t: Trie): string {
    t.name
  }

  /** The index of the first child named `name`, or the number of children when there is none. */
  function FindChild(children: seq<Trie>, name: string): (i: nat)
    ensures i <= |children|
    ensures i < |children| ==> children[i].name == name
    ensures forall j :: 0 <= j < i ==> children[j].name != name
  {
    if children == [] then 0
    else if children[0].name == name then 0
    else 1 + FindChild(children[1..], name)
  }

  /** The tree after threading one path's segments into it. */
  function Insert(t: Trie, parts: seq<string>): (r: Trie)
    ensures r.name == t.name
    decreases |parts|
  {
    if parts == [] then t
    else
      var i := FindChild(t.children, parts[0]);
      if i < |t.children| then Node(t.name, t.children[i := Insert(t.children[i], parts[1..])])
      else Node(t.name, t.children + [Insert(Node(parts[0], []), parts[1..])])
  }

  /** buildTree's result: each path inserted in turn into a root with the empty name. */
  function TreeOf(paths: seq<string>): (t: Trie)
    ensures t.name == ""
  {
    if paths == [] then Node("", [])
    else Insert(TreeOf(paths[..|paths| - 1]), Segments(paths[|paths| - 1]))
  }

  /** `q` names a chain of children starting below `t`. */
  predicate HasChain(t: Trie, q: seq<string>)
    decreases |q|
  {
    q == [] || exists c :: c in t.children && c.name == q[0] && HasChain(c, q[1..])
  }

  predicate PrefixOf(q: seq<string>, p: seq<string>) {
    |q| <= |p| && p[..|q|] == q
  }

  /** Sibling names are distinct at every level. */
  predicate UniqueNames(t: Trie) {
    && (forall i, j :: 0 <= i < j < |t.children| ==> t.children[i].name != t.children[j].name)
    && (forall i :: 0 <= i < |t.children| ==> UniqueNames(t.children[i]))
  }

  /** `u` is `t` with children appended, at any level: nothing removed or reordered. */
  predicate Extends(t: Trie, u: Trie) {
    && t.name == u.name
    && |t.children| <= |u.children|
    && (forall i :: 0 <= i < |t.children| ==> Extends(t.children[i], u.children[i]))
  }

  lemma {:induction false} ExtendsRefl(t: Trie)
    ensures Extends(t, t)
  {
    forall i | 0 <= i < |t.children| ensures Extends(t.children[i], t.children[i]) {
      ExtendsRefl(t.children[i]);
    }
  }

  /** After inserting a path, its segments are a chain from the root. */
  lemma {:induction false} InsertChain(t: Trie, parts: seq<string>)
    ensures HasChain(Insert(t, parts), parts)
    decreases |parts|
  {
    if parts != [] {
      var r := Insert(t, parts);
      var i := FindChild(t.children, parts[0]);
      InsertChain(if i < |t.children| then t.children[i] else Node(parts[0], []), parts[1..]);
      var c := if i < |t.children| then r.children[i] else r.children[|t.children|];
      assert c in r.children && c.name == parts[0];
    }
  }

  /** Inserting a path keeps every chain that was there. */
  lemma {:induction false} InsertKeepsChain(t: Trie, parts: seq<string>, q: seq<string>)
    requires HasChain(t, q)
    ensures HasChain(Insert(t, parts), q)
    decreases |parts|
  {
    if parts != [] && q != [] {
      var r := Insert(t, parts);
      var i := FindChild(t.children, parts[0]);
      var c :| c in t.children && c.name == q[0] && HasChain(c, q[1..]);
      var k :| 0 <= k < |t.children| && t.children[k] == c;
      if k == i {
        InsertKeepsChain(c, parts[1..], q[1..]);
        assert r.children[k] in r.children;
      } else {
        assert r.children[k] == c;
        assert r.children[k] in r.children;
      }
    }
  }

  /** Every chain after an insert was already there or is a prefix of the inserted segments. */
  lemma {:induction false} InsertOnlyChain(t: Trie, parts: seq<string>, q: seq<string>)
    requires HasChain(Insert(t, parts), q)
    ensures HasChain(t, q) || PrefixOf(q, parts)
    decreases |parts|
  {
    if parts != [] && q != [] {
      var r := Insert(t, parts);
      var i := FindChild(t.children, parts[0]);
      var c :| c in r.children && c.name == q[0] && HasChain(c, q[1..]);
      var k :| 0 <= k < |r.children| && r.children[k] == c;
      if k < |t.children| && k != i {
        assert t.children[k] == c;
      } else if k < |t.children| {
        InsertOnlyChain(t.children[k], parts[1..], q[1..]);
        if HasChain(t.children[k], q[1..]) {
          assert t.children[k] in t.children;
        } else {
          assert q == [parts[0]] + q[1..];
        }
      } else {
        InsertOnlyChain(Node(parts[0], []), parts[1..], q[1..]);
        assert q == [parts[0]] + q[1..];
      }
    }
  }

  /** A new child goes at the end; existing children keep their places, at every level. */
  lemma {:induction false} InsertExtends(t: Trie, parts: seq<string>)
    ensures Extends(t, Insert(t, parts))
    decreases |parts|
  {
    ExtendsRefl(t);
    if parts != [] {
      var r := Insert(t, parts);
      var i := FindChild(t.children, parts[0]);
      forall j | 0 <= j < |t.children| ensures Extends(t.children[j], r.children[j]) {
        if j == i {
          InsertExtends(t.children[j], parts[1..]);
        } else {
          ExtendsRefl(t.children[j]);
        }
      }
    }
  }

  /** Inserting keeps sibling names distinct, the fresh chain included. */
  lemma {:induction false} InsertUnique(t: Trie, parts: seq<string>)
    requires UniqueNames(t)
    ensures UniqueNames(Insert(t, parts))
    decreases |parts|
  {
    if parts != [] {
      var i := FindChild(t.children, parts[0]);
      if i < |t.children| {
        InsertUnique(t.children[i], parts[1..]);
      } else {
        InsertUnique(Node(parts[0], []), parts[1..]);
      }
    }
  }

  /** Inserting a path whose chain is already present leaves the tree as it was. */
  lemma {:induction false} InsertPresent(t: Trie, parts: seq<string>)
    requires UniqueNames(t) && HasChain(t, parts)
    ensures Insert(t, parts) == t
    decreases |parts|
  {
    if parts != [] {
      var c :| c in t.children && c.name == parts[0] && HasChain(c, parts[1..]);
      var k :| 0 <= k < |t.children| && t.children[k] == c;
      var i := FindChild(t.children, parts[0]);
      assert i == k;
      InsertPresent(c, parts[1..]);
      assert t.children[i := c] == t.children;
    }
  }

  /** After buildTree every input path's segments are a chain from the root. */
  lemma {:induction false} TreeChains(paths: seq<string>)
    ensures forall p :: p in paths ==> HasChain(TreeOf(paths), Segments(p))
  {
    if paths != [] {
      var init := paths[..|paths| - 1];
      var last := paths[|paths| - 1];
      TreeChains(init);
      InsertChain(TreeOf(init), Segments(last));
      forall p | p in paths ensures HasChain(TreeOf(paths), Segments(p)) {
        if p != last {
          assert paths == init + [last];
          InsertKeepsChain(TreeOf(init), Segments(last), Segments(p));
        }
      }
    }
  }

  /** And it holds nothing else: every chain is a prefix of some input path's segments. */
  lemma {:induction false} TreeOnlyChains(paths: seq<string>, q: seq<string>)
    requires HasChain(TreeOf(paths), q) && q != []
    ensures exists p :: p in paths && PrefixOf(q, Segments(p))
  {
    if paths != [] {
      var init := paths[..|paths| - 1];
      var last := paths[|paths| - 1];
      assert paths == init + [last];
      InsertOnlyChain(TreeOf(init), Segments(last), q);
      if HasChain(TreeOf(init), q) {
        TreeOnlyChains(init, q);
        var p :| p in init && PrefixOf(q, Segments(p));
        assert p in paths;
      } else {
        assert last in paths;
      }
    }
  }

  lemma {:induction false} TreeUnique(paths: seq<string>)
    ensures UniqueNames(TreeOf(paths))
  {
    if paths != [] {
      TreeUnique(paths[..|paths| - 1]);
      InsertUnique(TreeOf(paths[..|paths| - 1]), Segments(paths[|paths| - 1]));
    }
  }

  /** Listing a path a second time changes nothing. */
  lemma TreeRepeat(paths: seq<string>, p: string)
    requires p in paths
    ensures TreeOf(paths + [p]) == TreeOf(paths)
  {
    assert (paths + [p])[..|paths|] == paths;
    TreeChains(paths);
    TreeUnique(paths);
    InsertPresent(TreeOf(paths), Segments(p));
  }

  // Addresses stand for the `current` pointer of buildTree.

  predicate ValidAddr(t: Trie, addr: seq<nat>)
    decreases |addr|
  {
    addr == [] || (addr[0] < |t.children| && ValidAddr(t.children[addr[0]], addr[1..]))
  }

  /** The node at an address. */
  function At(t: Trie, addr: seq<nat>): Trie
    requires ValidAddr(t, addr)
    decreases |addr|
  {
    if addr == [] then t else At(t.children[addr[0]], addr[1..])
  }

  /** `t` with the node at an address replaced by `s`. */
  function Graft(t: Trie, addr: seq<nat>, s: Trie): Trie
    requires ValidAddr(t, addr)
    decreases |addr|
  {
    if addr == [] then s else Node(t.name, t.children[addr[0] := Graft(t.children[addr[0]], addr[1..], s)])
  }

  lemma {:induction false} GraftAt(t: Trie, addr: seq<nat>)
    requires ValidAddr(t, addr)
    ensures Graft(t, addr, At(t, addr)) == t
    decreases |addr|
  {
    if addr != [] {
      GraftAt(t.children[addr[0]], addr[1..]);
      assert t.children[addr[0] := t.children[addr[0]]] == t.children;
    }
  }

  /** Replacing twice at one address keeps the second; the address stays valid and holds what was put there. */
  lemma {:induction false} GraftGraft(t: Trie, addr: seq<nat>, s: Trie, x: Trie)
    requires ValidAddr(t, addr)
    ensures ValidAddr(Graft(t, addr, s), addr) && At(Graft(t, addr, s), addr) == s
    ensures Graft(Graft(t, addr, s), addr, x) == Graft(t, addr, x)
    decreases |addr|
  {
    if addr != [] {
      GraftGraft(t.children[addr[0]], addr[1..], s, x);
    }
  }

  /** One step down from an address: replacing child `j` there is a replacement one level deeper. */
  lemma {:induction false} GraftDeeper(t: Trie, addr: seq<nat>, j: nat, x: Trie)
    requires ValidAddr(t, addr) && j < |At(t, addr).children|
    ensures ValidAddr(t, addr + [j]) && At(t, addr + [j]) == At(t, addr).children[j]
    ensures Graft(t, addr + [j], x) == Graft(t, addr, Node(At(t, addr).name, At(t, addr).children[j := x]))
    decreases |addr|
  {
    if addr == [] {
      assert [] + [j] == [j];
      assert [j][1..] == [];
    } else {
      assert (addr + [j])[1..] == addr[1..] + [j];
      GraftDeeper(t.children[addr[0]], addr[1..], j, x);
    }
  }

  /** buildTree: each path's segments walked down from the root, reusing the first child of that name or appending one. */
  method BuildTree(paths: seq<string>) returns (root: Trie)
    ensures root == TreeOf(paths)
  {
    root := Node("", []);
    var i := 0;
    while i < |paths|
      invariant 0 <= i <= |paths|
      invariant root == TreeOf(paths[..i])
    {
      assert paths[..i + 1][..i] == paths[..i];
      var parts := SplitPath(paths[i]);
      root := InsertPath(root, parts);
      i := i + 1;
    }
    assert paths[..i] == paths;
  }

  /** One step of the inner loop when the segment is already a child: go down into it. */
  lemma DescendStep(root: Trie, addr: seq<nat>, parts: seq<string>, k: nat, start: Trie, j: nat)
    requires ValidAddr(root, addr) && k < |parts|
    requires j < |At(root, addr).children| && j == FindChild(At(root, addr).children, parts[k])
    requires Graft(root, addr, Insert(At(root, addr), parts[k..])) == Insert(start, parts)
    ensures ValidAddr(root, addr + [j])
    ensures Graft(root, addr + [j], Insert(At(root, addr + [j]), parts[k + 1..])) == Insert(start, parts)
  {
    var current := At(root, addr);
    assert parts[k..][1..] == parts[k + 1..];
    GraftDeeper(root, addr, j, Insert(current.children[j], parts[k + 1..]));
  }

  /** One step of the inner loop when the segment is new: append an empty child and go down into it. */
  lemma GrowStep(root: Trie, addr: seq<nat>, parts: seq<string>, k: nat, start: Trie)
    requires ValidAddr(root, addr) && k < |parts|
    requires FindChild(At(root, addr).children, parts[k]) == |At(root, addr).children|
    requires Graft(root, addr, Insert(At(root, addr), parts[k..])) == Insert(start, parts)
    ensures var current := At(root, addr);
      var grown := Node(current.name, current.children + [Node(parts[k], [])]);
      var root' := Graft(root, addr, grown);
      && ValidAddr(root, addr)
      && ValidAddr(root', addr + [|current.children|])
      && Graft(root', addr + [|current.children|], Insert(At(root', addr + [|current.children|]), parts[k + 1..])) == Insert(start, parts)
  {
    var current := At(root, addr);
    var grown := Node(current.name, current.children + [Node(parts[k], [])]);
    var newChain := Insert(Node(parts[k], []), parts[k + 1..]);
    assert parts[k..][1..] == parts[k + 1..];
    assert Insert(current, parts[k..]) == Node(current.name, current.children + [newChain]);
    GraftGraft(root, addr, grown, Node(current.name, current.children + [newChain]));
    var root' := Graft(root, addr, grown);
    GraftDeeper(root', addr, |current.children|, newChain);
    assert grown.children[|current.children| := newChain] == current.children + [newChain];
  }

  /** The search among one node's children: the first with the name, or the count when none has it. */
  method ChildIndex(children: seq<Trie>, name: string) returns (j: nat)
    ensures j == FindChild(children, name)
  {
    j := 0;
    while j < |children|
      invariant 0 <= j <= |children|
      invariant forall m :: 0 <= m < j ==> children[m].name != name
    {
      if children[j].name == name {
        return;
      }
      j := j + 1;
    }
  }

  /** The inner loop of buildTree for one path's segments. */
  method InsertPath(start: Trie, parts: seq<string>) returns (root: Trie)
    ensures root == Insert(start, parts)
  {
    root := start;
    var addr: seq<nat> := [];
    var k := 0;
    while k < |parts|
      invariant 0 <= k <= |parts|
      invariant ValidAddr(root, addr)
      invariant Graft(root, addr, Insert(At(root, addr), parts[k..])) == Insert(start, parts)
    {
      var part := parts[k];
      var current := At(root, addr);
      var j := ChildIndex(current.children, part);
      if j < |current.children| {
        DescendStep(root, addr, parts, k, start, j);
        addr := addr + [j];
      } else {
        var grown := Node(current.name, current.children + [Node(part, [])]);
        GrowStep(root, addr, parts, k, start);
        root := Graft(root, addr, grown);
        addr := addr + [|current.children|];
      }
      k := k + 1;
    }
    GraftAt(root, addr);
  }

  // ---------------------------------------------------------------------------
  // The child sort of action/list.go

  /** Children in ascending name order at every level. */
  predicate Ordered(t: Trie) {
    SortedBy(t.children, NameOf) && forall i :: 0 <= i < |t.children| ==> Ordered(t.children[i])
  }

  /** Children renamed by nothing keep their order by name. */
  lemma NamesKept(out: seq<Trie>, c: seq<Trie>)
    requires |out| == |c| && forall m :: 0 <= m < |c| ==> out[m].name == c[m].name
    requires SortedBy(c, NameOf)
    ensures SortedBy(out, NameOf)
  {
    forall i, j | 0 <= i < j < |out| ensures Below(NameOf(out[i]), NameOf(out[j])) {
      assert NameOf(out[i]) == NameOf(c[i]) && NameOf(out[j]) == NameOf(c[j]);
    }
  }

  /** Children with the same names and chains, position by position, give a node the same chains. */
  lemma ChainsPointwise(name: string, out: seq<Trie>, c: seq<Trie>)
    requires |out| == |c| && forall m :: 0 <= m < |c| ==> out[m].name == c[m].name
    requires forall m, q :: 0 <= m < |c| ==> (HasChain(out[m], q) <==> HasChain(c[m], q))
    ensures forall q :: HasChain(Node(name, out), q) <==> HasChain(Node(name, c), q)
  {
    forall q | q != [] ensures HasChain(Node(name, out), q) <==> HasChain(Node(name, c), q) {
      if HasChain(Node(name, out), q) {
        var d :| d in out && d.name == q[0] && HasChain(d, q[1..]);
        var m :| 0 <= m < |out| && out[m] == d;
        assert c[m] in c;
      }
      if HasChain(Node(name, c), q) {
        var d :| d in c && d.name == q[0] && HasChain(d, q[1..]);
        var m :| 0 <= m < |c| && c[m] == d;
        assert out[m] in out;
      }
    }
  }

  /** Reordering a node's children keeps its chains. */
  lemma ChainsPermuted(name: string, c: seq<Trie>, children: seq<Trie>)
    requires multiset(c) == multiset(children)
    ensures forall q :: HasChain(Node(name, c), q) <==> HasChain(Node(name, children), q)
  {
    forall q | q != [] ensures HasChain(Node(name, c), q) <==> HasChain(Node(name, children), q) {
      if HasChain(Node(name, c), q) {
        var d :| d in c && d.name == q[0] && HasChain(d, q[1..]);
        assert d in multiset(children);
      }
      if HasChain(Node(name, children), q) {
        var d :| d in children && d.name == q[0] && HasChain(d, q[1..]);
        assert d in multiset(c);
      }
    }
  }

  /** sort.Slice over one node's children, by name: the same children, ascending. */
  method SortChildren(t: Trie) returns (s: Trie)
    ensures s.name == t.name
    ensures SortedBy(s.children, NameOf) && multiset(s.children) == multiset(t.children)
  {
    var a := new Trie[|t.children|](k => if 0 <= k < |t.children| then t.children[k] else t);
    assert a[..] == t.children;
    SortBy(a, NameOf);
    s := Node(t.name, a[..]);
  }

  /** The names of a list of children, in order. */
  function ChildNames(children: seq<Trie>): (r: seq<string>)
    ensures |r| == |children| && forall i :: 0 <= i < |children| ==> r[i] == children[i].name
  {
    if children == [] then [] else ChildNames(children[..|children| - 1]) + [children[|children| - 1].name]
  }

  lemma ChildNamesAppend(a: seq<Trie>, b: seq<Trie>)
    ensures ChildNames(a + b) == ChildNames(a) + ChildNames(b)
  {
  }

  lemma SplitAt(children: seq<Trie>, a: nat)
    requires a < |children|
    ensures children == children[..a] + [children[a]] + children[a + 1..]
  {
  }

  /** Taking child `a` out of a list takes its name out of the list's names. */
  lemma NamesSplice(children: seq<Trie>, a: nat)
    requires a < |children|
    ensures multiset(ChildNames(children))
         == multiset(ChildNames(children[..a] + children[a + 1..])) + multiset{children[a].name}
  {
    var before, x, after := children[..a], children[a], children[a + 1..];
    SplitAt(children, a);
    ChildNamesAppend(before, [x]);
    ChildNamesAppend(before + [x], after);
    ChildNamesAppend(before, after);
    var nb, na := ChildNames(before), ChildNames(after);
    assert ChildNames([x]) == [x.name];
    assert ChildNames(children) == nb + [x.name] + na;
    assert ChildNames(before + after) == nb + na;
    assert multiset(nb + [x.name] + na) == multiset(nb) + multiset{x.name} + multiset(na);
  }

  /** Dropping the last child of one list and the same child from a permutation of it leaves permutations. */
  lemma DropMatched(c: seq<Trie>, children: seq<Trie>, a: nat)
    requires multiset(c) == multiset(children) && c != []
    requires a < |children| && children[a] == c[|c| - 1]
    ensures multiset(c[..|c| - 1]) == multiset(children[..a] + children[a + 1..])
  {
    var init, x := c[..|c| - 1], c[|c| - 1];
    var before, after := children[..a], children[a + 1..];
    assert c == init + [x];
    assert children == before + [x] + after;
    assert multiset(children) == multiset(before + after) + multiset{x};
    assert multiset(c) == multiset(init) + multiset{x};
    forall y ensures multiset(init)[y] == multiset(before + after)[y] {
      assert (multiset(init) + multiset{x})[y] == (multiset(before + after) + multiset{x})[y];
    }
  }

  /** Reordering children reorders their names. */
  lemma {:induction false} NamesPermuted(c: seq<Trie>, children: seq<Trie>)
    requires multiset(c) == multiset(children)
    ensures multiset(ChildNames(c)) == multiset(ChildNames(children))
    decreases |c|
  {
    if c == [] {
      assert |children| == |multiset(children)| == 0;
    } else {
      var init, x := c[..|c| - 1], c[|c| - 1];
      assert x in multiset(children);
      var a :| 0 <= a < |children| && children[a] == x;
      var before, after := children[..a], children[a + 1..];
      DropMatched(c, children, a);
      NamesPermuted(init, before + after);
      assert ChildNames(c) == ChildNames(init) + [x.name];
      NamesSplice(children, a);
    }
  }

  /** Reordering children keeps their names distinct. */
  lemma DistinctNamesPermuted(c: seq<Trie>, children: seq<Trie>)
    requires multiset(c) == multiset(children)
    requires Distinct(ChildNames(children))
    ensures Distinct(ChildNames(c))
  {
    NamesPermuted(c, children);
    DistinctCount(ChildNames(c));
    DistinctCount(ChildNames(children));
  }

  /** With unique sibling names, the chains through child `i` are exactly that child's chains. */
  lemma ChildChains(t: Trie, i: nat, q: seq<string>)
    requires UniqueNames(t) && i < |t.children|
    ensures HasChain(t, [t.children[i].name] + q) <==> HasChain(t.children[i], q)
  {
    var p := [t.children[i].name] + q;
    assert p[0] == t.children[i].name && p[1..] == q;
    if HasChain(t, p) {
      var d :| d in t.children && d.name == p[0] && HasChain(d, q);
      var k :| 0 <= k < |t.children| && t.children[k] == d;
      assert k == i;
    } else {
      assert t.children[i] in t.children;
    }
  }

  /** A one-step chain `[x]` exists exactly when some child is named `x`. */
  lemma ChainOfName(t: Trie, x: string)
    ensures HasChain(t, [x]) <==> x in ChildNames(t.children)
  {
    var ns := ChildNames(t.children);
    assert [x][0] == x && [x][1..] == [];
    if x in ns {
      var i :| 0 <= i < |ns| && ns[i] == x;
      assert t.children[i] in t.children && HasChain(t.children[i], []);
    }
    if HasChain(t, [x]) {
      var d :| d in t.children && d.name == x;
      var k :| 0 <= k < |t.children| && t.children[k] == d;
      assert ns[k] == x;
    }
  }

  /** Tries with the same chains have the same set of child names. */
  lemma SameChildNames(s: Trie, u: Trie)
    requires forall q :: HasChain(s, q) <==> HasChain(u, q)
    ensures forall x :: x in ChildNames(s.children) <==> x in ChildNames(u.children)
  {
    forall x ensures x in ChildNames(s.children) <==> x in ChildNames(u.children) {
      ChainOfName(s, x);
      ChainOfName(u, x);
    }
  }

  /** Equally named children of tries with the same chains have the same chains. */
  lemma SameChildChains(s: Trie, u: Trie, i: nat)
    requires UniqueNames(s) && UniqueNames(u) && i < |s.children| && i < |u.children|
    requires s.children[i].name == u.children[i].name
    requires forall q :: HasChain(s, q) <==> HasChain(u, q)
    ensures forall q :: HasChain(s.children[i], q) <==> HasChain(u.children[i], q)
  {
    forall q ensures HasChain(s.children[i], q) <==> HasChain(u.children[i], q) {
      ChildChains(s, i, q);
      ChildChains(u, i, q);
    }
  }

  /**
   * A trie ordered by name at every level, with unique sibling names, is fixed
   * by its name and its chains: a set of paths has one sorted tree.
   */
  lemma {:induction false} ChainsDetermine(s: Trie, u: Trie)
    requires s.name == u.name && Ordered(s) && Ordered(u) && UniqueNames(s) && UniqueNames(u)
    requires forall q :: HasChain(s, q) <==> HasChain(u, q)
    ensures s == u
    decreases s
  {
    var ns, nu := ChildNames(s.children), ChildNames(u.children);
    SameChildNames(s, u);
    StrictlySortedUnique(ns, nu);
    forall i | 0 <= i < |s.children| ensures s.children[i] == u.children[i] {
      assert ns[i] == nu[i];
      SameChildChains(s, u, i);
      ChainsDetermine(s.children[i], u.children[i]);
    }
  }

  /**
   * printTreeNode's effect on the tree: each visited node's children sorted
   * before its children are visited. The result is ordered at every level and
   * holds exactly the chains it held before.
   */
  method SortTree(t: Trie) returns (s: Trie)
    ensures s.name == t.name && |s.children| == |t.children|
    ensures Ordered(s)
    ensures forall q :: HasChain(s, q) <==> HasChain(t, q)
    ensures UniqueNames(t) ==> UniqueNames(s)
    decreases t
  {
    var sorted := SortChildren(t);
    var c := sorted.children;
    var out: seq<Trie> := [];
    var i := 0;
    while i < |c|
      invariant 0 <= i <= |c|
      invariant |out| == i
      invariant forall m :: 0 <= m < i ==> out[m].name == c[m].name && Ordered(out[m])
      invariant forall m, q :: 0 <= m < i ==> (HasChain(out[m], q) <==> HasChain(c[m], q))
      invariant UniqueNames(t) ==> forall m :: 0 <= m < i ==> UniqueNames(out[m])
    {
      assert c[i] in multiset(t.children);
      var child := SortTree(c[i]);
      out := out + [child];
      i := i + 1;
    }
    s := Node(t.name, out);
    assert |c| == |multiset(c)| == |multiset(t.children)| == |t.children|;
    NamesKept(out, c);
    ChainsPointwise(t.name, out, c);
    ChainsPermuted(t.name, c, t.children);
    if UniqueNames(t) {
      DistinctNamesPermuted(c, t.children);
      assert ChildNames(out) == ChildNames(c);
    }
  }
}
