/**
 * Propagating a chassis rename into the files that refer to chassis paths
 * (internal/chassis/attachment.go): playbooks name a path in each play's
 * `hosts`, node files list paths under `chassis`. A reference is rewritten
 * when it names the old path or something below it; it then sits at the same
 * place below the new path. The same file decides which roles of which plays
 * count as components attached to a path.
 *
 * yaml.v3 rewrites the scalars in place through pointers; here the walk takes
 * the parsed tree and returns the rewritten one with the "updated" flag.
 */
module Attachments {
  import opened Strs
  import opened YamlTree

  // ---------------------------------------------------------------------------
  // Rebasing one reference

  /** The rewrite applied to one reference: `old` becomes `new`, `old.x` becomes `new.x`, anything else is kept. */
  function RebaseOrKeep(v: string, oldChassis: string, newChassis: string): string {
    if v == oldChassis then newChassis
    else if HasPrefix(v, oldChassis + ".") then newChassis + v[|oldChassis|..]
    else v
  }

  function Rebased(oldChassis: string, newChassis: string): string -> string {
    (v: string) => RebaseOrKeep(v, oldChassis, newChassis)
  }

  /** A matched reference lands at the same place under the new path; any other is untouched. */
  lemma RebaseSpec(v: string, oldChassis: string, newChassis: string)
    ensures AtOrUnder(v, oldChassis) ==>
      var r := RebaseOrKeep(v, oldChassis, newChassis);
      AtOrUnder(r, newChassis) && |v| >= |oldChassis| && r == newChassis + v[|oldChassis|..]
    ensures !AtOrUnder(v, oldChassis) ==> RebaseOrKeep(v, oldChassis, newChassis) == v
  {
    if v != oldChassis && HasPrefix(v, oldChassis + ".") {
      var r := newChassis + v[|oldChassis|..];
      assert v[|oldChassis|..][..1] == v[..|oldChassis + "."|][|oldChassis|..];
      assert r[..|newChassis + "."|] == newChassis + ".";
    }
  }

  /** A sibling that merely shares the old path as a text prefix ("a.bc" against "a.b") is not a reference to it. */
  lemma RebaseSibling(v: string, oldChassis: string, newChassis: string)
    requires HasPrefix(v, oldChassis) && |v| > |oldChassis| && v[|oldChassis|] != '.'
    ensures RebaseOrKeep(v, oldChassis, newChassis) == v
  {
    assert v != oldChassis;
  }

  /** Renaming back restores a matched reference. */
  lemma RebaseRoundTrip(v: string, oldChassis: string, newChassis: string)
    requires AtOrUnder(v, oldChassis)
    ensures RebaseOrKeep(RebaseOrKeep(v, oldChassis, newChassis), newChassis, oldChassis) == v
  {
    RebaseSpec(v, oldChassis, newChassis);
    var r := RebaseOrKeep(v, oldChassis, newChassis);
    RebaseSpec(r, newChassis, oldChassis);
    assert r[|newChassis|..] == v[|oldChassis|..];
    assert v == v[..|oldChassis|] + v[|oldChassis|..];
  }

  // ---------------------------------------------------------------------------
  // The two walks, as one definition with two configurations

  /**
   * updateHostsInNode descends into documents and sequences and rewrites a
   * mapping's scalar "hosts" value; updateChassisInNode descends into
   * documents only and rewrites the scalar items of a mapping's sequence
   * "chassis" value. Both descend into every other mapping value.
   */
  datatype Walk = HostsWalk | ChassisWalk

  predicate Descends(w: Walk, n: YNode) {
    n.Document? || (w == HostsWalk && n.Sequence?)
  }

  /** The key/value pairs whose value holds references. */
  predicate Target(w: Walk, key: YNode, val: YNode) {
    match w
    case HostsWalk => Value(key) == "hosts" && val.Scalar?
    case ChassisWalk => Value(key) == "chassis" && val.Sequence?
  }

  function Children(n: YNode): seq<YNode>
    requires n.Document? || n.Sequence?
  {
    if n.Document? then n.content else n.items
  }

  function Rebuild(n: YNode, children: seq<YNode>): (r: YNode)
    requires n.Document? || n.Sequence?
    ensures r.Document? == n.Document? && r.Sequence? == n.Sequence? && Children(r) == children
  {
    if n.Document? then Document(children) else Sequence(children)
  }

  predicate SameKind(a: YNode, b: YNode) {
    a.Document? == b.Document? && a.Sequence? == b.Sequence? && a.Mapping? == b.Mapping?
      && a.Scalar? == b.Scalar? && a.Other? == b.Other?
  }

  function MapSeq(s: seq<string>, f: string -> string): (r: seq<string>)
    ensures |r| == |s|
  {
    seq(|s|, i requires 0 <= i < |s| => f(s[i]))
  }

  function Then(f: string -> string, g: string -> string): string -> string {
    (v: string) => g(f(v))
  }

  function Id(): string -> string {
    (v: string) => v
  }

  /** The texts of the scalar items of a sequence, in order. */
  function Scalars(items: seq<YNode>): seq<string> {
    if items == [] then []
    else Scalars(items[..|items| - 1]) + (if items[|items| - 1].Scalar? then [items[|items| - 1].value] else [])
  }

  function MapScalar(item: YNode, f: string -> string): YNode {
    if item.Scalar? then Scalar(f(item.value)) else item
  }

  function MapScalars(items: seq<YNode>, f: string -> string): (r: seq<YNode>)
    ensures |r| == |items|
  {
    seq(|items|, i requires 0 <= i < |items| => MapScalar(items[i], f))
  }

  /** The references a target value holds. */
  function TargetRefs(w: Walk, val: YNode): seq<string> {
    match w
    case HostsWalk => [Value(val)]
    case ChassisWalk => if val.Sequence? then Scalars(val.items) else []
  }

  /** A target value with each of its references passed through `f`. */
  function RewriteTarget(w: Walk, val: YNode, f: string -> string): YNode {
    match w
    case HostsWalk => Scalar(f(Value(val)))
    case ChassisWalk => if val.Sequence? then Sequence(MapScalars(val.items, f)) else val
  }

  /** The tree with every reference the walk visits passed through `f`, and nothing else changed. */
  function Rewrite(w: Walk, n: YNode, f: string -> string): (r: YNode)
    ensures SameKind(r, n)
    decreases n, 1
  {
    if Descends(w, n) then Rebuild(n, RewriteItems(w, n, |Children(n)|, f))
    else if n.Mapping? then Mapping(RewritePairs(w, n, |n.pairs|, f))
    else n
  }

  function RewriteItems(w: Walk, n: YNode, k: nat, f: string -> string): (r: seq<YNode>)
    requires Descends(w, n) && k <= |Children(n)|
    ensures |r| == k && forall i :: 0 <= i < k ==> r[i] == Rewrite(w, Children(n)[i], f)
    decreases n, 0, k
  {
    if k == 0 then [] else RewriteItems(w, n, k - 1, f) + [Rewrite(w, Children(n)[k - 1], f)]
  }

  function RewritePairs(w: Walk, n: YNode, k: nat, f: string -> string): (r: seq<Pair>)
    requires n.Mapping? && k <= |n.pairs|
    ensures |r| == k && forall i :: 0 <= i < k ==> r[i] == RewritePair(w, n.pairs[i], f)
    decreases n, 0, k
  {
    if k == 0 then [] else RewritePairs(w, n, k - 1, f) + [RewritePair(w, n.pairs[k - 1], f)]
  }

  function RewritePair(w: Walk, p: Pair, f: string -> string): (r: Pair)
    ensures r.key == p.key && SameKind(r.val, p.val)
    decreases p
  {
    Pair(p.key, if Target(w, p.key, p.val) then RewriteTarget(w, p.val, f) else Rewrite(w, p.val, f))
  }

  /** The references the walk visits, in the order it visits them. */
  function Refs(w: Walk, n: YNode): seq<string>
    decreases n, 1
  {
    if Descends(w, n) then RefsItems(w, n, |Children(n)|)
    else if n.Mapping? then RefsPairs(w, n, |n.pairs|)
    else []
  }

  function RefsItems(w: Walk, n: YNode, k: nat): seq<string>
    requires Descends(w, n) && k <= |Children(n)|
    decreases n, 0, k
  {
    if k == 0 then [] else RefsItems(w, n, k - 1) + Refs(w, Children(n)[k - 1])
  }

  function RefsPairs(w: Walk, n: YNode, k: nat): seq<string>
    requires n.Mapping? && k <= |n.pairs|
    decreases n, 0, k
  {
    if k == 0 then [] else RefsPairs(w, n, k - 1) + RefsPair(w, n.pairs[k - 1])
  }

  function RefsPair(w: Walk, p: Pair): seq<string>
    decreases p
  {
    if Target(w, p.key, p.val) then TargetRefs(w, p.val) else Refs(w, p.val)
  }

  /** One more child: the rewritten children grow by that child rewritten. */
  lemma RewriteItemsNext(w: Walk, n: YNode, i: nat, f: string -> string)
    requires Descends(w, n) && i < |Children(n)|
    ensures RewriteItems(w, n, i + 1, f) == RewriteItems(w, n, i, f) + [Rewrite(w, Children(n)[i], f)]
  {
  }

  /** One more child: the references grow by that child's. */
  lemma RefsItemsNext(w: Walk, n: YNode, i: nat)
    requires Descends(w, n) && i < |Children(n)|
    ensures RefsItems(w, n, i + 1) == RefsItems(w, n, i) + Refs(w, Children(n)[i])
  {
  }

  /** One more pair: the rewritten pairs grow by that pair rewritten. */
  lemma RewritePairsNext(w: Walk, n: YNode, i: nat, f: string -> string)
    requires n.Mapping? && i < |n.pairs|
    ensures RewritePairs(w, n, i + 1, f) == RewritePairs(w, n, i, f) + [RewritePair(w, n.pairs[i], f)]
  {
  }

  /** One more pair: the references grow by that pair's. */
  lemma RefsPairsNext(w: Walk, n: YNode, i: nat)
    requires n.Mapping? && i < |n.pairs|
    ensures RefsPairs(w, n, i + 1) == RefsPairs(w, n, i) + RefsPair(w, n.pairs[i])
  {
  }

  /** One step of a walk's loop over children: the rewritten children and the match flag advance together. */
  lemma ItemsStep(w: Walk, n: YNode, i: nat, f: string -> string, oldChassis: string,
                  done: seq<YNode>, updated: bool, child: YNode, u: bool)
    requires Descends(w, n) && i < |Children(n)|
    requires done == RewriteItems(w, n, i, f) && (updated <==> Touches(RefsItems(w, n, i), oldChassis))
    requires child == Rewrite(w, Children(n)[i], f) && (u <==> Matched(w, Children(n)[i], oldChassis))
    ensures done + [child] == RewriteItems(w, n, i + 1, f)
    ensures updated || u <==> Touches(RefsItems(w, n, i + 1), oldChassis)
  {
    RewriteItemsNext(w, n, i, f);
    RefsItemsNext(w, n, i);
    TouchesAppend(RefsItems(w, n, i), Refs(w, Children(n)[i]), oldChassis);
  }

  /** One step of a walk's loop over pairs. */
  lemma PairsStep(w: Walk, n: YNode, i: nat, f: string -> string, oldChassis: string,
                  done: seq<Pair>, updated: bool, pair: Pair, u: bool)
    requires n.Mapping? && i < |n.pairs|
    requires done == RewritePairs(w, n, i, f) && (updated <==> Touches(RefsPairs(w, n, i), oldChassis))
    requires pair == RewritePair(w, n.pairs[i], f) && (u <==> Touches(RefsPair(w, n.pairs[i]), oldChassis))
    ensures done + [pair] == RewritePairs(w, n, i + 1, f)
    ensures updated || u <==> Touches(RefsPairs(w, n, i + 1), oldChassis)
  {
    RewritePairsNext(w, n, i, f);
    RefsPairsNext(w, n, i);
    TouchesAppend(RefsPairs(w, n, i), RefsPair(w, n.pairs[i]), oldChassis);
  }

  /** Whether some reference in `refs` names the old path or lies below it. */
  predicate Touches(refs: seq<string>, oldChassis: string) {
    refs != [] && (Touches(refs[..|refs| - 1], oldChassis) || AtOrUnder(refs[|refs| - 1], oldChassis))
  }

  lemma {:induction false} TouchesSpec(refs: seq<string>, oldChassis: string)
    ensures Touches(refs, oldChassis) <==> exists v :: v in refs && AtOrUnder(v, oldChassis)
  {
    if refs != [] {
      var init := refs[..|refs| - 1];
      TouchesSpec(init, oldChassis);
      assert refs == init + [refs[|refs| - 1]];
    }
  }

  lemma TouchesAppend(a: seq<string>, b: seq<string>, oldChassis: string)
    ensures Touches(a + b, oldChassis) <==> Touches(a, oldChassis) || Touches(b, oldChassis)
  {
    TouchesSpec(a + b, oldChassis);
    TouchesSpec(a, oldChassis);
    TouchesSpec(b, oldChassis);
    if Touches(a + b, oldChassis) {
      var v :| v in a + b && AtOrUnder(v, oldChassis);
      assert v in a || v in b;
    }
    if Touches(a, oldChassis) {
      var v :| v in a && AtOrUnder(v, oldChassis);
      assert v in a + b;
    }
    if Touches(b, oldChassis) {
      var v :| v in b && AtOrUnder(v, oldChassis);
      assert v in a + b;
    }
  }

  lemma TouchesOne(v: string, oldChassis: string)
    ensures Touches([v], oldChassis) <==> AtOrUnder(v, oldChassis)
  {
    assert v in [v];
  }

  /** Whether some visited reference names the old path or lies below it: what the walks report. */
  predicate Matched(w: Walk, n: YNode, oldChassis: string) {
    Touches(Refs(w, n), oldChassis)
  }

  // ---------------------------------------------------------------------------
  // The walks as the source writes them

  /** updateHostsInNode: rewrites every "hosts" reference and reports whether any matched. */
  method UpdateHostsInNode(node: YNode, oldChassis: string, newChassis: string) returns (r: YNode, updated: bool)
    ensures r == Rewrite(HostsWalk, node, Rebased(oldChassis, newChassis))
    ensures updated <==> Matched(HostsWalk, node, oldChassis)
    decreases node, 1
  {
    if node.Document? || node.Sequence? {
      var rewritten;
      rewritten, updated := UpdateHostsItems(node, oldChassis, newChassis);
      r := Rebuild(node, rewritten);
    } else if node.Mapping? {
      var pairs;
      pairs, updated := UpdateHostsPairs(node, oldChassis, newChassis);
      r := Mapping(pairs);
    } else {
      r := node;
      updated := false;
    }
  }

  /** updateHostsInNode's loop over the children of a document or sequence. */
  method UpdateHostsItems(node: YNode, oldChassis: string, newChassis: string) returns (rewritten: seq<YNode>, updated: bool)
    requires node.Document? || node.Sequence?
    ensures rewritten == RewriteItems(HostsWalk, node, |Children(node)|, Rebased(oldChassis, newChassis))
    ensures updated <==> Touches(RefsItems(HostsWalk, node, |Children(node)|), oldChassis)
    decreases node, 0
  {
    ghost var f := Rebased(oldChassis, newChassis);
    var children := Children(node);
    rewritten := [];
    updated := false;
    var i := 0;
    while i < |children|
      invariant 0 <= i <= |children|
      invariant rewritten == RewriteItems(HostsWalk, node, i, f)
      invariant updated <==> Touches(RefsItems(HostsWalk, node, i), oldChassis)
    {
      var child, u := UpdateHostsInNode(children[i], oldChassis, newChassis);
      ItemsStep(HostsWalk, node, i, f, oldChassis, rewritten, updated, child, u);
      rewritten := rewritten + [child];
      updated := updated || u;
      i := i + 1;
    }
  }

  /** updateHostsInNode's loop over the pairs of a mapping. */
  method UpdateHostsPairs(node: YNode, oldChassis: string, newChassis: string) returns (pairs: seq<Pair>, updated: bool)
    requires node.Mapping?
    ensures pairs == RewritePairs(HostsWalk, node, |node.pairs|, Rebased(oldChassis, newChassis))
    ensures updated <==> Touches(RefsPairs(HostsWalk, node, |node.pairs|), oldChassis)
    decreases node, 0
  {
    ghost var f := Rebased(oldChassis, newChassis);
    var ps := node.pairs;
    pairs := [];
    updated := false;
    var i := 0;
    while i < |ps|
      invariant 0 <= i <= |ps|
      invariant pairs == RewritePairs(HostsWalk, node, i, f)
      invariant updated <==> Touches(RefsPairs(HostsWalk, node, i), oldChassis)
    {
      var p := ps[i];
      var pair, u := UpdateHostsPair(p, oldChassis, newChassis);
      PairsStep(HostsWalk, node, i, f, oldChassis, pairs, updated, pair, u);
      pairs := pairs + [pair];
      updated := updated || u;
      i := i + 1;
    }
  }

  /** One key/value pair of updateHostsInNode's mapping loop. */
  method UpdateHostsPair(p: Pair, oldChassis: string, newChassis: string) returns (q: Pair, updated: bool)
    ensures q == RewritePair(HostsWalk, p, Rebased(oldChassis, newChassis))
    ensures updated <==> Touches(RefsPair(HostsWalk, p), oldChassis)
    decreases p
  {
    var value := p.val;
    updated := false;
    if Value(p.key) == "hosts" && value.Scalar? {
      assert RefsPair(HostsWalk, p) == [value.value];
      TouchesOne(value.value, oldChassis);
      if value.value == oldChassis {
        value := Scalar(newChassis);
        updated := true;
      } else if HasPrefix(value.value, oldChassis + ".") {
        value := Scalar(newChassis + value.value[|oldChassis|..]);
        updated := true;
      }
    } else {
      value, updated := UpdateHostsInNode(value, oldChassis, newChassis);
    }
    q := Pair(p.key, value);
  }

  /** updateChassisInNode: rewrites the scalar items of every "chassis" list and reports whether any matched. */
  method UpdateChassisInNode(node: YNode, oldChassis: string, newChassis: string) returns (r: YNode, updated: bool)
    ensures r == Rewrite(ChassisWalk, node, Rebased(oldChassis, newChassis))
    ensures updated <==> Matched(ChassisWalk, node, oldChassis)
    decreases node, 1
  {
    if node.Document? {
      var rewritten;
      rewritten, updated := UpdateChassisItems(node, oldChassis, newChassis);
      r := Document(rewritten);
    } else if node.Mapping? {
      var pairs;
      pairs, updated := UpdateChassisPairs(node, oldChassis, newChassis);
      r := Mapping(pairs);
    } else {
      r := node;
      updated := false;
    }
  }

  /** updateChassisInNode's loop over the content of a document. */
  method UpdateChassisItems(node: YNode, oldChassis: string, newChassis: string) returns (rewritten: seq<YNode>, updated: bool)
    requires node.Document?
    ensures rewritten == RewriteItems(ChassisWalk, node, |node.content|, Rebased(oldChassis, newChassis))
    ensures updated <==> Touches(RefsItems(ChassisWalk, node, |node.content|), oldChassis)
    decreases node, 0
  {
    ghost var f := Rebased(oldChassis, newChassis);
    var children := node.content;
    rewritten := [];
    updated := false;
    var i := 0;
    while i < |children|
      invariant 0 <= i <= |children|
      invariant rewritten == RewriteItems(ChassisWalk, node, i, f)
      invariant updated <==> Touches(RefsItems(ChassisWalk, node, i), oldChassis)
    {
      var child, u := UpdateChassisInNode(children[i], oldChassis, newChassis);
      ItemsStep(ChassisWalk, node, i, f, oldChassis, rewritten, updated, child, u);
      rewritten := rewritten + [child];
      updated := updated || u;
      i := i + 1;
    }
  }

  /** updateChassisInNode's loop over the pairs of a mapping. */
  method UpdateChassisPairs(node: YNode, oldChassis: string, newChassis: string) returns (pairs: seq<Pair>, updated: bool)
    requires node.Mapping?
    ensures pairs == RewritePairs(ChassisWalk, node, |node.pairs|, Rebased(oldChassis, newChassis))
    ensures updated <==> Touches(RefsPairs(ChassisWalk, node, |node.pairs|), oldChassis)
    decreases node, 0
  {
    ghost var f := Rebased(oldChassis, newChassis);
    var ps := node.pairs;
    pairs := [];
    updated := false;
    var i := 0;
    while i < |ps|
      invariant 0 <= i <= |ps|
      invariant pairs == RewritePairs(ChassisWalk, node, i, f)
      invariant updated <==> Touches(RefsPairs(ChassisWalk, node, i), oldChassis)
    {
      var p := ps[i];
      var pair, u := UpdateChassisPair(p, oldChassis, newChassis);
      PairsStep(ChassisWalk, node, i, f, oldChassis, pairs, updated, pair, u);
      pairs := pairs + [pair];
      updated := updated || u;
      i := i + 1;
    }
  }

  /** One key/value pair of updateChassisInNode's mapping loop. */
  method UpdateChassisPair(p: Pair, oldChassis: string, newChassis: string) returns (q: Pair, updated: bool)
    ensures q == RewritePair(ChassisWalk, p, Rebased(oldChassis, newChassis))
    ensures updated <==> Touches(RefsPair(ChassisWalk, p), oldChassis)
    decreases p
  {
    var value := p.val;
    if Value(p.key) == "chassis" && value.Sequence? {
      var items;
      items, updated := UpdateChassisList(value.items, oldChassis, newChassis);
      value := Sequence(items);
    } else {
      value, updated := UpdateChassisInNode(value, oldChassis, newChassis);
    }
    q := Pair(p.key, value);
  }

  /** The loop of updateChassisInNode over one "chassis" list. */
  method UpdateChassisList(items: seq<YNode>, oldChassis: string, newChassis: string) returns (r: seq<YNode>, updated: bool)
    ensures r == MapScalars(items, Rebased(oldChassis, newChassis))
    ensures updated <==> Touches(Scalars(items), oldChassis)
  {
    ghost var f := Rebased(oldChassis, newChassis);
    r := [];
    updated := false;
    var j := 0;
    while j < |items|
      invariant 0 <= j <= |items|
      invariant r == MapScalars(items[..j], f)
      invariant updated <==> Touches(Scalars(items[..j]), oldChassis)
    {
      var item := items[j];
      ghost var here := if item.Scalar? then [item.value] else [];
      assert items[..j + 1] == items[..j] + [items[j]];
      assert Scalars(items[..j + 1]) == Scalars(items[..j]) + here;
      TouchesAppend(Scalars(items[..j]), here, oldChassis);
      if item.Scalar? {
        TouchesOne(item.value, oldChassis);
      } else {
        assert !Touches(here, oldChassis);
      }
      if item.Scalar? {
        if item.value == oldChassis {
          item := Scalar(newChassis);
          updated := true;
        } else if HasPrefix(item.value, oldChassis + ".") {
          item := Scalar(newChassis + item.value[|oldChassis|..]);
          updated := true;
        }
      }
      assert item == MapScalar(items[j], f);
      r := r + [item];
      assert r == MapScalars(items[..j + 1], f);
      j := j + 1;
    }
    assert items[..j] == items;
  }

  // ---------------------------------------------------------------------------
  // What the rewrite does and does not change

  lemma MapSeqConcat(a: seq<string>, b: seq<string>, a': seq<string>, b': seq<string>, f: string -> string)
    requires a' == MapSeq(a, f) && b' == MapSeq(b, f)
    ensures a' + b' == MapSeq(a + b, f)
  {
    MapSeqAppend(a, b, f);
  }

  lemma MapSeqAppend(a: seq<string>, b: seq<string>, f: string -> string)
    ensures MapSeq(a + b, f) == MapSeq(a, f) + MapSeq(b, f)
  {
  }

  lemma {:induction false} ScalarsMap(items: seq<YNode>, f: string -> string)
    ensures Scalars(MapScalars(items, f)) == MapSeq(Scalars(items), f)
  {
    if items != [] {
      var n := |items|;
      ScalarsMap(items[..n - 1], f);
      assert MapScalars(items, f)[..n - 1] == MapScalars(items[..n - 1], f);
      var tail := if items[n - 1].Scalar? then [items[n - 1].value] else [];
      MapSeqAppend(Scalars(items[..n - 1]), tail, f);
    }
  }

  lemma {:induction false} ScalarsIn(items: seq<YNode>, i: nat)
    requires i < |items| && items[i].Scalar?
    ensures items[i].value in Scalars(items)
  {
    if i < |items| - 1 {
      ScalarsIn(items[..|items| - 1], i);
    }
  }

  /** The rewritten tree visits the same references, each passed through `f`, in the same order. */
  lemma {:induction false} RefsRewrite(w: Walk, n: YNode, f: string -> string)
    ensures Refs(w, Rewrite(w, n, f)) == MapSeq(Refs(w, n), f)
    decreases n, 1
  {
    var m := Rewrite(w, n, f);
    if Descends(w, n) {
      var c := Children(n);
      forall i | 0 <= i < |c|
        ensures Refs(w, Children(m)[i]) == MapSeq(Refs(w, c[i]), f)
      {
        RefsRewrite(w, c[i], f);
      }
      RefsItemsMapped(w, n, m, |c|, f);
    } else if n.Mapping? {
      forall i | 0 <= i < |n.pairs|
        ensures RefsPair(w, m.pairs[i]) == MapSeq(RefsPair(w, n.pairs[i]), f)
      {
        RefsPairRewrite(w, n.pairs[i], f);
      }
      RefsPairsMapped(w, n, m, |n.pairs|, f);
    }
  }

  /** Children whose references are those of `n`'s children mapped by `f` hold, together, `n`'s references mapped. */
  lemma {:induction false} RefsItemsMapped(w: Walk, n: YNode, m: YNode, k: nat, f: string -> string)
    requires Descends(w, n) && Descends(w, m) && k <= |Children(n)| && k <= |Children(m)|
    requires forall i :: 0 <= i < k ==> Refs(w, Children(m)[i]) == MapSeq(Refs(w, Children(n)[i]), f)
    ensures RefsItems(w, m, k) == MapSeq(RefsItems(w, n, k), f)
  {
    if k > 0 {
      RefsItemsMapped(w, n, m, k - 1, f);
      RefsItemsNext(w, m, k - 1);
      RefsItemsNext(w, n, k - 1);
      MapSeqConcat(RefsItems(w, n, k - 1), Refs(w, Children(n)[k - 1]),
                   RefsItems(w, m, k - 1), Refs(w, Children(m)[k - 1]), f);
    }
  }

  /** The same for the pairs of a mapping. */
  lemma {:induction false} RefsPairsMapped(w: Walk, n: YNode, m: YNode, k: nat, f: string -> string)
    requires n.Mapping? && m.Mapping? && k <= |n.pairs| && k <= |m.pairs|
    requires forall i :: 0 <= i < k ==> RefsPair(w, m.pairs[i]) == MapSeq(RefsPair(w, n.pairs[i]), f)
    ensures RefsPairs(w, m, k) == MapSeq(RefsPairs(w, n, k), f)
  {
    if k > 0 {
      RefsPairsMapped(w, n, m, k - 1, f);
      RefsPairsNext(w, m, k - 1);
      RefsPairsNext(w, n, k - 1);
      MapSeqConcat(RefsPairs(w, n, k - 1), RefsPair(w, n.pairs[k - 1]),
                   RefsPairs(w, m, k - 1), RefsPair(w, m.pairs[k - 1]), f);
    }
  }

  lemma {:induction false} RefsPairRewrite(w: Walk, p: Pair, f: string -> string)
    ensures RefsPair(w, RewritePair(w, p, f)) == MapSeq(RefsPair(w, p), f)
    decreases p
  {
    if Target(w, p.key, p.val) {
      if w == ChassisWalk {
        ScalarsMap(p.val.items, f);
      }
    } else {
      RefsRewrite(w, p.val, f);
    }
  }

  /** Functions that agree on the visited references give the same tree. */
  lemma {:induction false} RewriteAgree(w: Walk, n: YNode, f: string -> string, g: string -> string)
    requires forall v :: v in Refs(w, n) ==> f(v) == g(v)
    ensures Rewrite(w, n, f) == Rewrite(w, n, g)
    decreases n, 1
  {
    if Descends(w, n) {
      RewriteItemsAgree(w, n, |Children(n)|, f, g);
    } else if n.Mapping? {
      RewritePairsAgree(w, n, |n.pairs|, f, g);
    }
  }

  lemma {:induction false} RewriteItemsAgree(w: Walk, n: YNode, k: nat, f: string -> string, g: string -> string)
    requires Descends(w, n) && k <= |Children(n)|
    requires forall v :: v in RefsItems(w, n, k) ==> f(v) == g(v)
    ensures RewriteItems(w, n, k, f) == RewriteItems(w, n, k, g)
    decreases n, 0, k
  {
    if k > 0 {
      RewriteItemsAgree(w, n, k - 1, f, g);
      RewriteAgree(w, Children(n)[k - 1], f, g);
    }
  }

  lemma {:induction false} RewritePairsAgree(w: Walk, n: YNode, k: nat, f: string -> string, g: string -> string)
    requires n.Mapping? && k <= |n.pairs|
    requires forall v :: v in RefsPairs(w, n, k) ==> f(v) == g(v)
    ensures RewritePairs(w, n, k, f) == RewritePairs(w, n, k, g)
    decreases n, 0, k
  {
    if k > 0 {
      RewritePairsAgree(w, n, k - 1, f, g);
      RewritePairAgree(w, n.pairs[k - 1], f, g);
    }
  }

  lemma {:induction false} RewritePairAgree(w: Walk, p: Pair, f: string -> string, g: string -> string)
    requires forall v :: v in RefsPair(w, p) ==> f(v) == g(v)
    ensures RewritePair(w, p, f) == RewritePair(w, p, g)
    decreases p
  {
    if Target(w, p.key, p.val) {
      if w == ChassisWalk {
        var items := p.val.items;
        forall i | 0 <= i < |items| ensures MapScalar(items[i], f) == MapScalar(items[i], g) {
          if items[i].Scalar? {
            ScalarsIn(items, i);
          }
        }
      }
    } else {
      RewriteAgree(w, p.val, f, g);
    }
  }

  /** Rewriting twice is rewriting once with the two functions composed. */
  lemma {:induction false} RewriteCompose(w: Walk, n: YNode, f: string -> string, g: string -> string)
    ensures Rewrite(w, Rewrite(w, n, f), g) == Rewrite(w, n, Then(f, g))
    decreases n, 1
  {
    if Descends(w, n) {
      RewriteItemsCompose(w, n, |Children(n)|, f, g);
    } else if n.Mapping? {
      RewritePairsCompose(w, n, |n.pairs|, f, g);
    }
  }

  lemma {:induction false} RewriteItemsCompose(w: Walk, n: YNode, k: nat, f: string -> string, g: string -> string)
    requires Descends(w, n) && k <= |Children(n)|
    ensures RewriteItems(w, Rewrite(w, n, f), k, g) == RewriteItems(w, n, k, Then(f, g))
    decreases n, 0, k
  {
    if k > 0 {
      assert Children(Rewrite(w, n, f))[k - 1] == Rewrite(w, Children(n)[k - 1], f);
      RewriteItemsCompose(w, n, k - 1, f, g);
      RewriteCompose(w, Children(n)[k - 1], f, g);
    }
  }

  lemma {:induction false} RewritePairsCompose(w: Walk, n: YNode, k: nat, f: string -> string, g: string -> string)
    requires n.Mapping? && k <= |n.pairs|
    ensures RewritePairs(w, Rewrite(w, n, f), k, g) == RewritePairs(w, n, k, Then(f, g))
    decreases n, 0, k
  {
    if k > 0 {
      assert Rewrite(w, n, f).pairs[k - 1] == RewritePair(w, n.pairs[k - 1], f);
      RewritePairsCompose(w, n, k - 1, f, g);
      RewritePairCompose(w, n.pairs[k - 1], f, g);
    }
  }

  lemma {:induction false} RewritePairCompose(w: Walk, p: Pair, f: string -> string, g: string -> string)
    ensures RewritePair(w, RewritePair(w, p, f), g) == RewritePair(w, p, Then(f, g))
    decreases p
  {
    if Target(w, p.key, p.val) {
      if w == ChassisWalk {
        assert MapScalars(MapScalars(p.val.items, f), g) == MapScalars(p.val.items, Then(f, g));
      }
    } else {
      RewriteCompose(w, p.val, f, g);
    }
  }

  /** Rewriting with the identity changes nothing. */
  lemma {:induction false} RewriteId(w: Walk, n: YNode)
    ensures Rewrite(w, n, Id()) == n
    decreases n, 1
  {
    if Descends(w, n) {
      RewriteItemsId(w, n, |Children(n)|);
      assert Children(n)[..|Children(n)|] == Children(n);
    } else if n.Mapping? {
      RewritePairsId(w, n, |n.pairs|);
      assert n.pairs[..|n.pairs|] == n.pairs;
    }
  }

  lemma {:induction false} RewriteItemsId(w: Walk, n: YNode, k: nat)
    requires Descends(w, n) && k <= |Children(n)|
    ensures RewriteItems(w, n, k, Id()) == Children(n)[..k]
    decreases n, 0, k
  {
    if k > 0 {
      RewriteItemsId(w, n, k - 1);
      RewriteId(w, Children(n)[k - 1]);
      RewriteItemsNext(w, n, k - 1, Id());
      SliceNext(Children(n), k);
    }
  }

  lemma {:induction false} RewritePairsId(w: Walk, n: YNode, k: nat)
    requires n.Mapping? && k <= |n.pairs|
    ensures RewritePairs(w, n, k, Id()) == n.pairs[..k]
    decreases n, 0, k
  {
    if k > 0 {
      RewritePairsId(w, n, k - 1);
      RewritePairId(w, n.pairs[k - 1]);
      RewritePairsNext(w, n, k - 1, Id());
      SliceNext(n.pairs, k);
    }
  }

  lemma {:induction false} RewritePairId(w: Walk, p: Pair)
    ensures RewritePair(w, p, Id()) == p
    decreases p
  {
    if Target(w, p.key, p.val) {
      if w == ChassisWalk {
        assert MapScalars(p.val.items, Id()) == p.val.items;
      }
    } else {
      RewriteId(w, p.val);
    }
  }

  /** The tree with every visited reference blanked: keys, kinds, children and everything else. */
  function Skeleton(w: Walk, n: YNode): YNode {
    Rewrite(w, n, (v: string) => "")
  }

  /** The rename changes only the visited references: the skeleton is kept. */
  lemma SkeletonKept(w: Walk, n: YNode, oldChassis: string, newChassis: string)
    ensures Skeleton(w, Rewrite(w, n, Rebased(oldChassis, newChassis))) == Skeleton(w, n)
  {
    RewriteCompose(w, n, Rebased(oldChassis, newChassis), (v: string) => "");
    RewriteAgree(w, n, Then(Rebased(oldChassis, newChassis), (v: string) => ""), (v: string) => "");
  }

  /** Each visited reference is rebased or kept, in place. */
  lemma RefsRebased(w: Walk, n: YNode, oldChassis: string, newChassis: string)
    ensures var before := Refs(w, n);
      var after := Refs(w, Rewrite(w, n, Rebased(oldChassis, newChassis)));
      |after| == |before| && forall i :: 0 <= i < |before| ==> after[i] == RebaseOrKeep(before[i], oldChassis, newChassis)
  {
    RefsRewrite(w, n, Rebased(oldChassis, newChassis));
  }

  /** With no matching reference the tree comes back as it was. */
  lemma UnmatchedUnchanged(w: Walk, n: YNode, oldChassis: string, newChassis: string)
    requires !Matched(w, n, oldChassis)
    ensures Rewrite(w, n, Rebased(oldChassis, newChassis)) == n
  {
    TouchesSpec(Refs(w, n), oldChassis);
    RewriteAgree(w, n, Rebased(oldChassis, newChassis), Id());
    RewriteId(w, n);
  }

  /** A path at or below the old one is moved by the rename. */
  lemma RebasedMoves(v: string, oldChassis: string, newChassis: string)
    requires AtOrUnder(v, oldChassis) && oldChassis != newChassis
    ensures Rebased(oldChassis, newChassis)(v) != v
  {
    RebaseSpec(v, oldChassis, newChassis);
    assert Rebased(oldChassis, newChassis)(v) == newChassis + v[|oldChassis|..];
  }

  /** A map that moves one element changes the sequence. */
  lemma MapSeqChanges(s: seq<string>, f: string -> string, i: nat)
    requires i < |s| && f(s[i]) != s[i]
    ensures MapSeq(s, f) != s
  {
    assert MapSeq(s, f)[i] == f(s[i]);
  }

  /** A matching reference under a different new path changes the tree. */
  lemma MatchedChanged(w: Walk, n: YNode, oldChassis: string, newChassis: string)
    requires Matched(w, n, oldChassis) && oldChassis != newChassis
    ensures Rewrite(w, n, Rebased(oldChassis, newChassis)) != n
  {
    var f := Rebased(oldChassis, newChassis);
    var refs := Refs(w, n);
    TouchesSpec(refs, oldChassis);
    var v :| v in refs && AtOrUnder(v, oldChassis);
    var i :| 0 <= i < |refs| && refs[i] == v;
    RebasedMoves(v, oldChassis, newChassis);
    MapSeqChanges(refs, f, i);
    RefsRewrite(w, n, f);
  }

  /**
   * Renaming back restores every file, provided no reference already lay under
   * the new path without lying under the old one.
   */
  lemma RenameRoundTrip(w: Walk, n: YNode, oldChassis: string, newChassis: string)
    requires forall v :: v in Refs(w, n) ==> AtOrUnder(v, oldChassis) || !AtOrUnder(v, newChassis)
    ensures Rewrite(w, Rewrite(w, n, Rebased(oldChassis, newChassis)), Rebased(newChassis, oldChassis)) == n
  {
    var f := Rebased(oldChassis, newChassis);
    var g := Rebased(newChassis, oldChassis);
    RewriteCompose(w, n, f, g);
    forall v | v in Refs(w, n) ensures Then(f, g)(v) == Id()(v) {
      if AtOrUnder(v, oldChassis) {
        RebaseRoundTrip(v, oldChassis, newChassis);
      } else {
        RebaseSpec(v, oldChassis, newChassis);
        RebaseSpec(v, newChassis, oldChassis);
      }
    }
    RewriteAgree(w, n, Then(f, g), Id());
    RewriteId(w, n);
  }

  // ---------------------------------------------------------------------------
  // Recording the files that changed

  /** A parsed playbook or node file. */
  datatype SourceFile = SourceFile(path: string, doc: YNode)

  /**
   * The files UpdateAttachments (HostsWalk) or UpdateAllocations (ChassisWalk)
   * writes back, with their new contents: those whose walk reported a change
   * and whose marshalling and writing did not fail.
   */
  function Written(w: Walk, files: seq<SourceFile>, oldChassis: string, newChassis: string, failed: set<string>): seq<SourceFile> {
    if files == [] then []
    else
      var last := files[|files| - 1];
      Written(w, files[..|files| - 1], oldChassis, newChassis, failed) +
        (if Matched(w, last.doc, oldChassis) && last.path !in failed
         then [SourceFile(last.path, Rewrite(w, last.doc, Rebased(oldChassis, newChassis)))]
         else [])
  }

  function Paths(files: seq<SourceFile>): (r: seq<string>)
    ensures |r| == |files| && forall i :: 0 <= i < |files| ==> r[i] == files[i].path
  {
    seq(|files|, i requires 0 <= i < |files| => files[i].path)
  }

  /** A file is reported exactly when it had a matching reference and was written; what is written is its rewrite. */
  lemma {:induction false} WrittenSpec(w: Walk, files: seq<SourceFile>, oldChassis: string, newChassis: string, failed: set<string>)
    ensures forall s :: s in Written(w, files, oldChassis, newChassis, failed) <==>
      exists f :: f in files && Matched(w, f.doc, oldChassis) && f.path !in failed
        && s == SourceFile(f.path, Rewrite(w, f.doc, Rebased(oldChassis, newChassis)))
  {
    if files != [] {
      var init := files[..|files| - 1];
      WrittenSpec(w, init, oldChassis, newChassis, failed);
      assert files == init + [files[|files| - 1]];
    }
  }

  /** UpdateAttachments, over the playbooks already read and parsed. */
  method UpdateAttachments(playbooks: seq<SourceFile>, oldChassis: string, newChassis: string, failed: set<string>)
    returns (updatedFiles: seq<string>, written: seq<SourceFile>)
    ensures written == Written(HostsWalk, playbooks, oldChassis, newChassis, failed)
    ensures updatedFiles == Paths(written)
  {
    updatedFiles := [];
    written := [];
    var i := 0;
    while i < |playbooks|
      invariant 0 <= i <= |playbooks|
      invariant written == Written(HostsWalk, playbooks[..i], oldChassis, newChassis, failed)
      invariant updatedFiles == Paths(written)
    {
      assert playbooks[..i + 1][..i] == playbooks[..i];
      var doc, updated := UpdateHostsInNode(playbooks[i].doc, oldChassis, newChassis);
      if updated && playbooks[i].path !in failed {
        written := written + [SourceFile(playbooks[i].path, doc)];
        updatedFiles := updatedFiles + [playbooks[i].path];
      }
      i := i + 1;
    }
    assert playbooks[..i] == playbooks;
  }

  /** UpdateAllocations, over the node files already read and parsed. */
  method UpdateAllocations(nodeFiles: seq<SourceFile>, oldChassis: string, newChassis: string, failed: set<string>)
    returns (updatedFiles: seq<string>, written: seq<SourceFile>)
    ensures written == Written(ChassisWalk, nodeFiles, oldChassis, newChassis, failed)
    ensures updatedFiles == Paths(written)
  {
    updatedFiles := [];
    written := [];
    var i := 0;
    while i < |nodeFiles|
      invariant 0 <= i <= |nodeFiles|
      invariant written == Written(ChassisWalk, nodeFiles[..i], oldChassis, newChassis, failed)
      invariant updatedFiles == Paths(written)
    {
      assert nodeFiles[..i + 1][..i] == nodeFiles[..i];
      var doc, updated := UpdateChassisInNode(nodeFiles[i].doc, oldChassis, newChassis);
      if updated && nodeFiles[i].path !in failed {
        written := written + [SourceFile(nodeFiles[i].path, doc)];
        updatedFiles := updatedFiles + [nodeFiles[i].path];
      }
      i := i + 1;
    }
    assert nodeFiles[..i] == nodeFiles;
  }

  // ---------------------------------------------------------------------------
  // Which roles count as attached to a chassis path

  /** A value under a role dictionary's key: a YAML string or anything else. */
  datatype Field = Text(text: string) | NotText

  /** A play's role entry: a bare string, a dictionary, or another kind of value. */
  datatype Role = RoleString(name: string) | RoleMap(fields: map<string, Field>) | OtherRole

  datatype Play = Play(hosts: string, roles: seq<Role>)

  /** A playbook already read and decoded, with the path it was read from. */
  datatype Playbook = Playbook(path: string, plays: seq<Play>)

  datatype Attachment = Attachment(component: string, playbook: string, chassis: string)

  /** The role's name: the string itself, or the string under a dictionary's "role" key; "" when there is none. */
  function RoleName(r: Role): string {
    match r
    case RoleString(name) => name
    case RoleMap(fields) => if "role" in fields && fields["role"].Text? then fields["role"].text else ""
    case OtherRole => ""
  }

  function RoleAttachments(path: string, hosts: string, roles: seq<Role>): seq<Attachment> {
    if roles == [] then []
    else
      var name := RoleName(roles[|roles| - 1]);
      RoleAttachments(path, hosts, roles[..|roles| - 1]) +
        (if name != "" then [Attachment(name, path, hosts)] else [])
  }

  function PlayAttachments(path: string, plays: seq<Play>, chassisPath: string): seq<Attachment> {
    if plays == [] then []
    else
      var play := plays[|plays| - 1];
      PlayAttachments(path, plays[..|plays| - 1], chassisPath) +
        (if AtOrUnder(play.hosts, chassisPath) then RoleAttachments(path, play.hosts, play.roles) else [])
  }

  /** What the matching loop of LoadAttachments collects, playbook by playbook, play by play, role by role. */
  function AttachmentsOf(playbooks: seq<Playbook>, chassisPath: string): seq<Attachment> {
    if playbooks == [] then []
    else
      var pb := playbooks[|playbooks| - 1];
      AttachmentsOf(playbooks[..|playbooks| - 1], chassisPath) + PlayAttachments(pb.path, pb.plays, chassisPath)
  }

  /** The attachment a role of a play of a playbook yields for a chassis path, if it yields one. */
  predicate Yields(pb: Playbook, play: Play, r: Role, chassisPath: string, a: Attachment) {
    AtOrUnder(play.hosts, chassisPath) && RoleName(r) != ""
      && a == Attachment(RoleName(r), pb.path, play.hosts)
  }

  lemma {:induction false} RoleAttachmentsSpec(pb: Playbook, play: Play, roles: seq<Role>, chassisPath: string, a: Attachment)
    requires AtOrUnder(play.hosts, chassisPath)
    ensures a in RoleAttachments(pb.path, play.hosts, roles) <==> exists r :: r in roles && Yields(pb, play, r, chassisPath, a)
  {
    if roles != [] {
      var init := roles[..|roles| - 1];
      var last := roles[|roles| - 1];
      RoleAttachmentsSpec(pb, play, init, chassisPath, a);
      assert roles == init + [last];
      if a in RoleAttachments(pb.path, play.hosts, init) {
        var r :| r in init && Yields(pb, play, r, chassisPath, a);
        assert r in roles;
      } else if a in RoleAttachments(pb.path, play.hosts, roles) {
        assert Yields(pb, play, last, chassisPath, a);
      }
    }
  }

  lemma {:induction false} PlayAttachmentsSpec(pb: Playbook, plays: seq<Play>, chassisPath: string, a: Attachment)
    ensures a in PlayAttachments(pb.path, plays, chassisPath) <==>
      exists play, r :: play in plays && r in play.roles && Yields(pb, play, r, chassisPath, a)
  {
    if plays != [] {
      var init := plays[..|plays| - 1];
      var play := plays[|plays| - 1];
      PlayAttachmentsSpec(pb, init, chassisPath, a);
      assert plays == init + [play];
      if AtOrUnder(play.hosts, chassisPath) {
        RoleAttachmentsSpec(pb, play, play.roles, chassisPath, a);
      }
    }
  }

  /**
   * An attachment is collected exactly when some role of some play of some
   * playbook yields it: the play's hosts name the path or lie below it, and the
   * role has a name.
   */
  lemma {:induction false} AttachmentsSpec(playbooks: seq<Playbook>, chassisPath: string, a: Attachment)
    ensures a in AttachmentsOf(playbooks, chassisPath) <==>
      exists pb, play, r :: pb in playbooks && play in pb.plays && r in play.roles && Yields(pb, play, r, chassisPath, a)
  {
    if playbooks != [] {
      var init := playbooks[..|playbooks| - 1];
      var pb := playbooks[|playbooks| - 1];
      AttachmentsSpec(init, chassisPath, a);
      PlayAttachmentsSpec(pb, pb.plays, chassisPath, a);
      assert playbooks == init + [pb];
    }
  }

  /** The matching loop of LoadAttachments. */
  method LoadAttachments(playbooks: seq<Playbook>, chassisPath: string) returns (attachments: seq<Attachment>)
    ensures attachments == AttachmentsOf(playbooks, chassisPath)
  {
    attachments := [];
    var i := 0;
    while i < |playbooks|
      invariant 0 <= i <= |playbooks|
      invariant attachments == AttachmentsOf(playbooks[..i], chassisPath)
    {
      var pb := playbooks[i];
      assert playbooks[..i + 1][..i] == playbooks[..i];
      var found := MatchPlaybook(pb.path, pb.plays, chassisPath);
      attachments := attachments + found;
      i := i + 1;
    }
    assert playbooks[..i] == playbooks;
  }

  /** One playbook's plays in the matching loop of LoadAttachments. */
  method MatchPlaybook(path: string, plays: seq<Play>, chassisPath: string) returns (found: seq<Attachment>)
    ensures found == PlayAttachments(path, plays, chassisPath)
  {
    found := [];
    var j := 0;
    while j < |plays|
      invariant 0 <= j <= |plays|
      invariant found == PlayAttachments(path, plays[..j], chassisPath)
    {
      var play := plays[j];
      assert plays[..j + 1][..j] == plays[..j];
      if play.hosts == chassisPath || HasPrefix(play.hosts, chassisPath + ".") {
        var named := MatchRoles(path, play.hosts, play.roles);
        found := found + named;
      }
      j := j + 1;
    }
    assert plays[..j] == plays;
  }

  /** One matching play's roles in the matching loop of LoadAttachments. */
  method MatchRoles(path: string, hosts: string, roles: seq<Role>) returns (found: seq<Attachment>)
    ensures found == RoleAttachments(path, hosts, roles)
  {
    found := [];
    var k := 0;
    while k < |roles|
      invariant 0 <= k <= |roles|
      invariant found == RoleAttachments(path, hosts, roles[..k])
    {
      assert roles[..k + 1][..k] == roles[..k];
      var roleName := "";
      match roles[k] {
        case RoleString(name) => {
          roleName := name;
        }
        case RoleMap(fields) => {
          if "role" in fields && fields["role"].Text? {
            roleName := fields["role"].text;
          }
        }
        case OtherRole => {}
      }
      if roleName != "" {
        found := found + [Attachment(roleName, path, hosts)];
      }
      k := k + 1;
    }
    assert roles[..k] == roles;
  }
}
