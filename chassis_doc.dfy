/**
 * The map-shaped chassis document of internal/chassis/chassis.go.
 *
 * chassis.yaml decodes into `Platform`, a map from a layer name to a list of
 * sections. A section is a bare string (a leaf, here a `Marker`), a map from
 * a name to nested content (a `Group`), or any other YAML value, which every
 * operation ignores (`Unknown`). A group member is either a nested list or
 * some other value (`NonList`), which counts as a leaf.
 *
 * Go iterates maps in an unspecified order. Where the code collects something
 * from every key of a map, the specification below is the multiset of what is
 * collected, and the loops pick the next key by `:|`, so every iteration order
 * is covered.
 */
module ChassisDoc {
  import opened Strs

  datatype Entry = Marker(name: string) | Group(members: map<string, Sub>) | Unknown
  datatype Sub = List(items: seq<Entry>) | NonList

  /** A node file: a host and the chassis paths it is allocated to. */
  datatype Node = Node(hostname: string, chassis: seq<string>)

  datatype ChassisError = InvalidFormat | AlreadyExists | NotFound | RemoveFailed

  // ---------------------------------------------------------------------------
  // The dotted paths of a document, as a multiset

  /** The paths flattenSections emits for `prefix` and its list: the prefix itself, then its items. */
  ghost function SectionPaths(prefix: string, secs: seq<Entry>): multiset<string>
    decreases secs, 1
  {
    multiset{prefix} + ItemPaths(prefix, secs)
  }

  ghost function ItemPaths(prefix: string, secs: seq<Entry>): multiset<string>
    decreases secs, 0
  {
    if secs == [] then multiset{}
    else ItemPaths(prefix, secs[..|secs| - 1]) + EntryPaths(prefix, secs[|secs| - 1])
  }

  ghost function EntryPaths(prefix: string, e: Entry): multiset<string>
    decreases e
  {
    match e
    case Marker(n) => multiset{prefix + "." + n}
    case Group(m) => KeyPaths(prefix, m, m.Keys)
    case Unknown => multiset{}
  }

  /** What the members named by `keys` contribute, in any order. */
  ghost function KeyPaths(prefix: string, m: map<string, Sub>, keys: set<string>): multiset<string>
    requires keys <= m.Keys
    decreases Group(m), keys
  {
    if keys == {} then multiset{}
    else
      var k :| k in keys;
      SubPaths(prefix + "." + k, m[k]) + KeyPaths(prefix, m, keys - {k})
  }

  /** A member with a list recurses; a member with any other value is a leaf. */
  ghost function SubPaths(p: string, s: Sub): multiset<string>
    decreases s
  {
    match s
    case List(items) => SectionPaths(p, items)
    case NonList => multiset{p}
  }

  /** What one layer contributes to Flatten. */
  ghost function LayerPaths(layer: string, secs: seq<Entry>): multiset<string>
  {
    SectionPaths("platform." + layer, secs)
  }

  /** Every path of the document, with repetitions. */
  ghost function AllPaths(platform: map<string, seq<Entry>>): multiset<string>
  {
    SumOver(platform, platform.Keys, LayerPaths)
  }

  /** Flatten's result: the paths of the document in ascending order. */
  ghost function Flattened(platform: map<string, seq<Entry>>): (r: seq<string>)
    ensures Sorted(r) && multiset(r) == AllPaths(platform)
  {
    SortedOf(AllPaths(platform))
  }

  lemma {:induction false} KeyPathsPick(prefix: string, m: map<string, Sub>, keys: set<string>, y: string)
    requires keys <= m.Keys && y in keys
    ensures KeyPaths(prefix, m, keys) == SubPaths(prefix + "." + y, m[y]) + KeyPaths(prefix, m, keys - {y})
    decreases keys
  {
    var x :| x in keys && KeyPaths(prefix, m, keys) == SubPaths(prefix + "." + x, m[x]) + KeyPaths(prefix, m, keys - {x});
    if x != y {
      KeyPathsPick(prefix, m, keys - {x}, y);
      KeyPathsPick(prefix, m, keys - {y}, x);
      assert keys - {x} - {y} == keys - {y} - {x};
    }
  }

  lemma {:induction false} KeyPathsAgree(prefix: string, m: map<string, Sub>, m': map<string, Sub>, keys: set<string>)
    requires keys <= m.Keys && keys <= m'.Keys
    requires forall k :: k in keys ==> m[k] == m'[k]
    ensures KeyPaths(prefix, m, keys) == KeyPaths(prefix, m', keys)
    decreases keys
  {
    if keys != {} {
      var x :| x in keys && KeyPaths(prefix, m, keys) == SubPaths(prefix + "." + x, m[x]) + KeyPaths(prefix, m, keys - {x});
      KeyPathsPick(prefix, m', keys, x);
      KeyPathsAgree(prefix, m, m', keys - {x});
    }
  }

  /** Setting one member of a group replaces that member's share of the group's paths. */
  lemma KeyPathsUpdate(prefix: string, m: map<string, Sub>, k: string, v: Sub)
    ensures EntryPaths(prefix, Group(m[k := v])) == SubPaths(prefix + "." + k, v) + KeyPaths(prefix, m, m.Keys - {k})
    ensures k in m ==> EntryPaths(prefix, Group(m)) == SubPaths(prefix + "." + k, m[k]) + KeyPaths(prefix, m, m.Keys - {k})
    ensures EntryPaths(prefix, Group(m - {k})) == KeyPaths(prefix, m, m.Keys - {k})
  {
    var m' := m[k := v];
    KeyPathsPick(prefix, m', m'.Keys, k);
    assert m'.Keys - {k} == m.Keys - {k};
    KeyPathsAgree(prefix, m', m, m.Keys - {k});
    if k in m {
      KeyPathsPick(prefix, m, m.Keys, k);
    }
    var d := m - {k};
    assert d.Keys == m.Keys - {k};
    KeyPathsAgree(prefix, d, m, d.Keys);
  }

  lemma {:induction false} ItemPathsAppend(prefix: string, a: seq<Entry>, b: seq<Entry>)
    ensures ItemPaths(prefix, a + b) == ItemPaths(prefix, a) + ItemPaths(prefix, b)
    decreases |b|
  {
    if b == [] {
      assert a + b == a;
    } else {
      var init := b[..|b| - 1];
      ItemPathsAppend(prefix, a, init);
      AppendInit(a, b);
      ItemPathsLast(prefix, a + b);
      ItemPathsLast(prefix, b);
    }
  }

  lemma AppendInit<T>(a: seq<T>, b: seq<T>)
    requires b != []
    ensures (a + b)[..|a + b| - 1] == a + b[..|b| - 1] && (a + b)[|a + b| - 1] == b[|b| - 1]
  {
  }

  /** The last item's paths come after the others'. */
  lemma ItemPathsLast(prefix: string, secs: seq<Entry>)
    requires secs != []
    ensures ItemPaths(prefix, secs) == ItemPaths(prefix, secs[..|secs| - 1]) + EntryPaths(prefix, secs[|secs| - 1])
  {
  }

  /** The items split around index `i`. */
  lemma ItemPathsAt(prefix: string, secs: seq<Entry>, i: int)
    requires 0 <= i < |secs|
    ensures ItemPaths(prefix, secs) == ItemPaths(prefix, secs[..i]) + EntryPaths(prefix, secs[i]) + ItemPaths(prefix, secs[i + 1..])
  {
    assert secs == secs[..i] + [secs[i]] + secs[i + 1..];
    ItemPathsAppend(prefix, secs[..i] + [secs[i]], secs[i + 1..]);
    ItemPathsAppend(prefix, secs[..i], [secs[i]]);
    assert ([] + [secs[i]])[..0] == [];
    assert ItemPaths(prefix, [secs[i]]) == EntryPaths(prefix, secs[i]);
  }

  /** Replacing the item at `i` trades its paths for the new item's. */
  lemma ItemPathsReplace(prefix: string, secs: seq<Entry>, i: int, e: Entry)
    requires 0 <= i < |secs|
    ensures ItemPaths(prefix, secs[i := e]) + EntryPaths(prefix, secs[i]) == ItemPaths(prefix, secs) + EntryPaths(prefix, e)
  {
    var t := secs[i := e];
    ItemPathsAt(prefix, secs, i);
    ItemPathsAt(prefix, t, i);
    assert t[..i] == secs[..i] && t[i + 1..] == secs[i + 1..];
  }

  /** Splicing out the item at `i` drops exactly its paths. */
  lemma ItemPathsSplice(prefix: string, secs: seq<Entry>, i: int)
    requires 0 <= i < |secs|
    ensures ItemPaths(prefix, secs[..i] + secs[i + 1..]) + EntryPaths(prefix, secs[i]) == ItemPaths(prefix, secs)
  {
    ItemPathsAt(prefix, secs, i);
    ItemPathsAppend(prefix, secs[..i], secs[i + 1..]);
  }

  lemma ItemPathsSingle(prefix: string, e: Entry)
    ensures ItemPaths(prefix, [e]) == EntryPaths(prefix, e)
  {
    assert [e][..0] == [];
  }

  /** Every path of a list sits at or under the list's prefix. */
  lemma {:induction false} SectionPathsUnder(prefix: string, secs: seq<Entry>)
    ensures forall x :: x in SectionPaths(prefix, secs) ==> AtOrUnder(x, prefix)
    decreases secs, 1
  {
    ItemPathsUnder(prefix, secs);
  }

  lemma {:induction false} ItemPathsUnder(prefix: string, secs: seq<Entry>)
    ensures forall x :: x in ItemPaths(prefix, secs) ==> HasPrefix(x, prefix + ".")
    decreases secs, 0
  {
    if secs != [] {
      ItemPathsUnder(prefix, secs[..|secs| - 1]);
      EntryPathsUnder(prefix, secs[|secs| - 1]);
    }
  }

  lemma {:induction false} EntryPathsUnder(prefix: string, e: Entry)
    ensures forall x :: x in EntryPaths(prefix, e) ==> HasPrefix(x, prefix + ".")
    decreases e
  {
    match e
    case Marker(n) =>
      assert (prefix + "." + n)[..|prefix + "."|] == prefix + ".";
    case Group(m) => KeyPathsUnder(prefix, m, m.Keys);
    case Unknown =>
  }

  lemma {:induction false} KeyPathsUnder(prefix: string, m: map<string, Sub>, keys: set<string>)
    requires keys <= m.Keys
    ensures forall x :: x in KeyPaths(prefix, m, keys) ==> HasPrefix(x, prefix + ".")
    decreases Group(m), keys
  {
    if keys != {} {
      var k :| k in keys && KeyPaths(prefix, m, keys) == SubPaths(prefix + "." + k, m[k]) + KeyPaths(prefix, m, keys - {k});
      KeyPathsUnder(prefix, m, keys - {k});
      var p := prefix + "." + k;
      if m[k].List? {
        SectionPathsUnder(p, m[k].items);
      }
      forall x | x in SubPaths(p, m[k]) ensures HasPrefix(x, prefix + ".") {
        assert AtOrUnder(x, p);
        assert p[..|prefix + "."|] == prefix + ".";
        if x != p {
          assert x[..|p + "."|] == p + ".";
          assert x[..|prefix + "."|] == (p + ".")[..|prefix + "."|];
        }
      }
    }
  }

  // ---------------------------------------------------------------------------
  // addToSections

  /** Where addToSections descends for an intermediate segment `name`: a group holding `name` as a list, or the bare string `name`. */
  predicate IsSlot(e: Entry, name: string) {
    (e.Group? && name in e.members && e.members[name].List?) || e == Marker(name)
  }

  /** The first slot for `name`, if any. */
  function Slot(secs: seq<Entry>, name: string): (r: Option<nat>)
    ensures r.Some? ==> r.value < |secs| && IsSlot(secs[r.value], name)
    ensures r.Some? ==> forall j :: 0 <= j < r.value ==> !IsSlot(secs[j], name)
    ensures r.None? ==> forall j :: 0 <= j < |secs| ==> !IsSlot(secs[j], name)
  {
    if secs == [] then None
    else if IsSlot(secs[0], name) then Some(0)
    else match Slot(secs[1..], name)
      case None => None
      case Some(i) => Some(i + 1)
  }

  /**
   * The list addToSections returns when it adds `path` under `secs`. It
   * rewrites at most one existing item, in place, or appends one new item: no
   * existing item moves. A rewritten item becomes a group; it was the bare
   * string of the first segment or a group with the same member names.
   */
  function Added(secs: seq<Entry>, path: seq<string>): (r: seq<Entry>)
    ensures |r| == |secs| || |r| == |secs| + 1
    ensures forall i, j :: 0 <= i < j < |secs| ==> r[i] == secs[i] || r[j] == secs[j]
    ensures |r| == |secs| + 1 ==> r[..|secs|] == secs
    ensures forall i :: 0 <= i < |secs| && r[i] != secs[i] ==>
              && |r| == |secs| && r[i].Group? && path != []
              && (secs[i] == Marker(path[0]) || (secs[i].Group? && r[i].members.Keys == secs[i].members.Keys))
    decreases |path|
  {
    if path == [] then secs
    else
      var name := path[0];
      if |path| == 1 then
        if Marker(name) in secs then secs else secs + [Marker(name)]
      else
        var chain := Added([], path[1..]);
        match Slot(secs, name)
        case None => secs + [Group(map[name := List(chain)])]
        case Some(i) =>
          if secs[i].Group? then
            var m := secs[i].members;
            secs[i := Group(m[name := List(Added(m[name].items, path[1..]))])]
          else
            secs[i := Group(map[name := List(chain)])]
  }

  /** A path of one item is a path of the list. */
  lemma InItem(prefix: string, secs: seq<Entry>, i: int, x: string)
    requires 0 <= i < |secs| && x in EntryPaths(prefix, secs[i])
    ensures x in SectionPaths(prefix, secs)
  {
    ItemPathsAt(prefix, secs, i);
  }

  /** A path of one group member is a path of the group. */
  lemma InMember(prefix: string, m: map<string, Sub>, name: string, x: string)
    requires name in m && x in SubPaths(prefix + "." + name, m[name])
    ensures x in EntryPaths(prefix, Group(m))
  {
    KeyPathsUpdate(prefix, m, name, m[name]);
    assert m[name := m[name]] == m;
  }

  /** The path addToSections is asked to add is then present. */
  lemma {:induction false} AddedContains(prefix: string, secs: seq<Entry>, path: seq<string>)
    requires path != []
    ensures prefix + "." + Join(path) in SectionPaths(prefix, Added(secs, path))
    decreases |path|
  {
    var name := path[0];
    var r := Added(secs, path);
    if |path| == 1 {
      var i :| 0 <= i < |r| && r[i] == Marker(name);
      InItem(prefix, r, i, prefix + "." + name);
    } else {
      var rest := path[1..];
      var p := prefix + "." + name;
      JoinFirst(path);
      assert prefix + "." + Join(path) == p + "." + Join(rest);
      var i := if Slot(secs, name).Some? then Slot(secs, name).value else |secs|;
      var sub := if i < |secs| && secs[i].Group? then secs[i].members[name].items else [];
      AddedContains(p, sub, rest);
      assert r[i] == Group(r[i].members) && r[i].members[name] == List(Added(sub, rest));
      InMember(prefix, r[i].members, name, p + "." + Join(rest));
      InItem(prefix, r, i, p + "." + Join(rest));
    }
  }

  /** Growing one item's paths grows the list's paths. */
  lemma ReplaceKeeps(prefix: string, secs: seq<Entry>, i: int, e: Entry)
    requires 0 <= i < |secs| && EntryPaths(prefix, secs[i]) <= EntryPaths(prefix, e)
    ensures SectionPaths(prefix, secs) <= SectionPaths(prefix, secs[i := e])
  {
    ItemPathsReplace(prefix, secs, i, e);
    var a, a', x, y := ItemPaths(prefix, secs), ItemPaths(prefix, secs[i := e]), EntryPaths(prefix, secs[i]), EntryPaths(prefix, e);
    forall z ensures a[z] <= a'[z] {
      assert (a' + x)[z] == (a + y)[z];
    }
  }

  lemma AppendKeeps(prefix: string, secs: seq<Entry>, e: Entry)
    ensures SectionPaths(prefix, secs) <= SectionPaths(prefix, secs + [e])
  {
    ItemPathsAppend(prefix, secs, [e]);
  }

  /** Adding only adds: every path present before is still present, as often. */
  lemma {:induction false} AddedKeeps(prefix: string, secs: seq<Entry>, path: seq<string>)
    ensures SectionPaths(prefix, secs) <= SectionPaths(prefix, Added(secs, path))
    decreases |path|
  {
    var r := Added(secs, path);
    if |path| == 1 && Marker(path[0]) !in secs {
      AppendKeeps(prefix, secs, Marker(path[0]));
    } else if |path| > 1 {
      var name := path[0];
      var rest := path[1..];
      var chain := Added([], rest);
      match Slot(secs, name) {
        case None => {
          AppendKeeps(prefix, secs, Group(map[name := List(chain)]));
        }
        case Some(i) => {
          if secs[i].Group? {
            var m := secs[i].members;
            AddedKeeps(prefix + "." + name, m[name].items, rest);
            KeyPathsUpdate(prefix, m, name, List(Added(m[name].items, rest)));
          } else {
            InMember(prefix, map[name := List(chain)], name, prefix + "." + name);
          }
          ReplaceKeeps(prefix, secs, i, r[i]);
        }
      }
    }
  }

  // ---------------------------------------------------------------------------
  // removeFromSections

  /** Whether removeFromSections removes `path` at item `e` (the check it makes at each index). */
  predicate RemovesAt(e: Entry, path: seq<string>)
    requires path != []
    decreases |path|, 0
  {
    var name := path[0];
    || (e == Marker(name) && |path| == 1)
    || (e.Group? && name in e.members &&
        (|path| == 1 || (e.members[name].List? && Removed(e.members[name].items, path[1..]).1)))
  }

  /** The first index at which removal applies, if any. */
  function RemoveSlot(secs: seq<Entry>, path: seq<string>): (r: Option<nat>)
    requires path != []
    ensures r.Some? ==> r.value < |secs| && RemovesAt(secs[r.value], path)
    ensures r.Some? ==> forall j :: 0 <= j < r.value ==> !RemovesAt(secs[j], path)
    ensures r.None? ==> forall j :: 0 <= j < |secs| ==> !RemovesAt(secs[j], path)
    decreases |path|, 1, |secs|
  {
    if secs == [] then None
    else if RemovesAt(secs[0], path) then Some(0)
    else match RemoveSlot(secs[1..], path)
      case None => None
      case Some(i) => Some(i + 1)
  }

  /** The first item removal applies to is the slot. */
  lemma FirstSlot(secs: seq<Entry>, path: seq<string>, i: nat)
    requires path != [] && i < |secs| && RemovesAt(secs[i], path)
    requires forall j :: 0 <= j < i ==> !RemovesAt(secs[j], path)
    ensures RemoveSlot(secs, path) == Some(i)
  {
  }

  /**
   * What removeFromSections returns for `path` under `secs`: the new list and
   * whether something was removed. Nothing removed means the list is unchanged;
   * otherwise one item was spliced out or rewritten in place, and no other item
   * moved.
   */
  function Removed(secs: seq<Entry>, path: seq<string>): (r: (seq<Entry>, bool))
    ensures !r.1 ==> r.0 == secs
    ensures r.1 ==> path != [] && RemoveSlot(secs, path).Some?
    ensures r.1 ==> var i := RemoveSlot(secs, path).value;
      || (r.0 == secs[..i] + secs[i + 1..] && (secs[i] == Marker(path[0]) || secs[i].members.Keys == {path[0]}))
      || (|r.0| == |secs| && r.0 == secs[i := r.0[i]] && secs[i].Group? && r.0[i].Group? && r.0[i].members.Keys != {} &&
          r.0[i].members.Keys == if |path| == 1 then secs[i].members.Keys - {path[0]} else secs[i].members.Keys)
    decreases |path|, 2
  {
    if path == [] then (secs, false)
    else match RemoveSlot(secs, path)
      case None => (secs, false)
      case Some(i) =>
        var name := path[0];
        var e := secs[i];
        if e.Marker? then (secs[..i] + secs[i + 1..], true)
        else
          var m := e.members;
          if |path| == 1 then
            var m' := m - {name};
            if m'.Keys == {} then (secs[..i] + secs[i + 1..], true)
            else (secs[i := Group(m')], true)
          else
            var m' := m[name := List(Removed(m[name].items, path[1..]).0)];
            assert name in m && m'.Keys == m.Keys;
            (secs[i := Group(m')], true)
  }

  /** A member's own path is among its paths, and all of them sit at or under it. */
  lemma SubPathsUnder(p: string, s: Sub)
    ensures p in SubPaths(p, s)
    ensures forall x :: x in SubPaths(p, s) ==> AtOrUnder(x, p)
  {
    if s.List? {
      SectionPathsUnder(p, s.items);
    }
  }

  /** Splicing out a bare string or a group left empty drops that item's paths. */
  lemma DropSplice(prefix: string, secs: seq<Entry>, i: int) returns (d: multiset<string>)
    requires 0 <= i < |secs|
    ensures d == EntryPaths(prefix, secs[i])
    ensures SectionPaths(prefix, secs[..i] + secs[i + 1..]) + d == SectionPaths(prefix, secs)
  {
    d := EntryPaths(prefix, secs[i]);
    ItemPathsSplice(prefix, secs, i);
  }

  /** Rewriting item `i` so that it loses the paths `d` drops exactly `d`. */
  lemma DropReplace(prefix: string, secs: seq<Entry>, i: int, e: Entry, d: multiset<string>)
    requires 0 <= i < |secs|
    requires EntryPaths(prefix, e) + d == EntryPaths(prefix, secs[i])
    ensures SectionPaths(prefix, secs[i := e]) + d == SectionPaths(prefix, secs)
  {
    ItemPathsReplace(prefix, secs, i, e);
    var a, a', x, y := ItemPaths(prefix, secs), ItemPaths(prefix, secs[i := e]), EntryPaths(prefix, secs[i]), EntryPaths(prefix, e);
    forall z ensures (a' + d)[z] == a[z] {
      assert (a' + x)[z] == (a + y)[z];
      assert x[z] == y[z] + d[z];
    }
    assert a' + d == a;
  }

  /** Deleting member `name` from a group drops exactly that member's paths. */
  lemma DropMember(prefix: string, m: map<string, Sub>, name: string)
    requires name in m
    ensures EntryPaths(prefix, Group(m - {name})) + SubPaths(prefix + "." + name, m[name]) == EntryPaths(prefix, Group(m))
  {
    KeyPathsUpdate(prefix, m, name, m[name]);
  }

  /** Replacing member `name`'s list by one that has lost `d` drops exactly `d`. */
  lemma DropInMember(prefix: string, m: map<string, Sub>, name: string, sub: seq<Entry>, d: multiset<string>)
    requires name in m && m[name].List?
    requires SectionPaths(prefix + "." + name, sub) + d == SectionPaths(prefix + "." + name, m[name].items)
    ensures EntryPaths(prefix, Group(m[name := List(sub)])) + d == EntryPaths(prefix, Group(m))
  {
    KeyPathsUpdate(prefix, m, name, List(sub));
  }

  /** Deleting the last segment's member from group item `i`. */
  lemma DropKey(prefix: string, secs: seq<Entry>, i: int, name: string, r: seq<Entry>) returns (d: multiset<string>)
    requires 0 <= i < |secs| && secs[i].Group? && name in secs[i].members
    requires var m' := secs[i].members - {name};
      r == if m'.Keys == {} then secs[..i] + secs[i + 1..] else secs[i := Group(m')]
    ensures SectionPaths(prefix, r) + d == SectionPaths(prefix, secs)
    ensures prefix + "." + name in d
    ensures forall x :: x in d ==> AtOrUnder(x, prefix + "." + name)
  {
    var m := secs[i].members;
    var p := prefix + "." + name;
    DropMember(prefix, m, name);
    SubPathsUnder(p, m[name]);
    d := SubPaths(p, m[name]);
    if (m - {name}).Keys == {} {
      var d0 := DropSplice(prefix, secs, i);
      assert m.Keys - {name} == {};
      assert KeyPaths(prefix, m, m.Keys - {name}) == multiset{};
    } else {
      DropReplace(prefix, secs, i, Group(m - {name}), d);
    }
  }

  /** Removing below group item `i`'s member `path[0]` drops what the nested removal drops. */
  lemma DropDeeper(prefix: string, secs: seq<Entry>, i: int, path: seq<string>, sub: seq<Entry>, d: multiset<string>)
    requires 0 <= i < |secs| && |path| > 1
    requires secs[i].Group? && path[0] in secs[i].members && secs[i].members[path[0]].List?
    requires var p := prefix + "." + path[0];
      && SectionPaths(p, sub) + d == SectionPaths(p, secs[i].members[path[0]].items)
      && p + "." + Join(path[1..]) in d
      && forall x :: x in d ==> AtOrUnder(x, p + "." + Join(path[1..]))
    ensures SectionPaths(prefix, secs[i := Group(secs[i].members[path[0] := List(sub)])]) + d == SectionPaths(prefix, secs)
    ensures prefix + "." + Join(path) in d
    ensures forall x :: x in d ==> AtOrUnder(x, prefix + "." + Join(path))
  {
    var m := secs[i].members;
    JoinFirst(path);
    assert prefix + "." + path[0] + "." + Join(path[1..]) == prefix + "." + Join(path);
    DropInMember(prefix, m, path[0], sub, d);
    DropReplace(prefix, secs, i, Group(m[path[0] := List(sub)]), d);
  }

  /** The paths removeFromSections drops: `d`, all at or under the target, and holding the target when something was removed. */
  lemma {:induction false} RemovedDrop(prefix: string, secs: seq<Entry>, path: seq<string>) returns (d: multiset<string>)
    requires path != []
    ensures SectionPaths(prefix, Removed(secs, path).0) + d == SectionPaths(prefix, secs)
    ensures Removed(secs, path).1 ==> prefix + "." + Join(path) in d
    ensures !Removed(secs, path).1 ==> d == multiset{}
    ensures forall x :: x in d ==> AtOrUnder(x, prefix + "." + Join(path))
    decreases |path|
  {
    var name := path[0];
    var p := prefix + "." + name;
    var slot := RemoveSlot(secs, path);
    if slot.None? {
      assert !Removed(secs, path).1;
      d := multiset{};
    } else {
      var i := slot.value;
      var e := secs[i];
      if e.Marker? {
        assert e == Marker(name) && |path| == 1;
        assert Join(path) == name;
        assert Removed(secs, path).0 == secs[..i] + secs[i + 1..];
        d := DropSplice(prefix, secs, i);
      } else if |path| == 1 {
        assert Join(path) == name;
        d := DropKey(prefix, secs, i, name, Removed(secs, path).0);
      } else {
        var m := e.members;
        var rest := path[1..];
        var sub := Removed(m[name].items, rest).0;
        assert Removed(secs, path).0 == secs[i := Group(m[name := List(sub)])];
        assert RemovesAt(e, path) && Removed(m[name].items, rest).1;
        d := RemovedDrop(p, m[name].items, rest);
        DropDeeper(prefix, secs, i, path, sub, d);
      }
    }
  }

  /**
   * removeFromSections only removes: every path left was there before, each
   * path that lost an occurrence sits at or under the target, and on success
   * the target itself lost one.
   */
  lemma RemovedPaths(prefix: string, secs: seq<Entry>, path: seq<string>)
    requires path != []
    ensures SectionPaths(prefix, Removed(secs, path).0) <= SectionPaths(prefix, secs)
    ensures Removed(secs, path).1 ==>
      prefix + "." + Join(path) in SectionPaths(prefix, secs) - SectionPaths(prefix, Removed(secs, path).0)
    ensures forall x :: x in SectionPaths(prefix, secs) - SectionPaths(prefix, Removed(secs, path).0) ==>
      AtOrUnder(x, prefix + "." + Join(path))
  {
    var d := RemovedDrop(prefix, secs, path);
    var before, after := SectionPaths(prefix, secs), SectionPaths(prefix, Removed(secs, path).0);
    assert before - after == d;
  }

  // ---------------------------------------------------------------------------
  // Whole-document facts

  /** A layer's list; reading a missing layer of a Go map gives a nil list. */
  function LayerOf(platform: map<string, seq<Entry>>, layer: string): seq<Entry> {
    if layer in platform then platform[layer] else []
  }

  /** A well-formed section path is "platform", its layer and the remaining segments joined back. */
  lemma SectionOfParts(section: string)
    requires |Split(section)| >= 3 && Split(section)[0] == "platform"
    ensures var parts := Split(section);
      section == "platform." + parts[1] + "." + Join(parts[2..])
  {
    var parts := Split(section);
    JoinSplit(section);
    JoinFirst(parts);
    JoinFirst(parts[1..]);
    assert parts[1..][1..] == parts[2..];
  }

  /** Add on the whole document: the new path appears and no path is lost. */
  lemma AddedToPlatform(platform: map<string, seq<Entry>>, layer: string, rest: seq<string>)
    requires rest != []
    ensures var after := platform[layer := Added(LayerOf(platform, layer), rest)];
      && AllPaths(platform) <= AllPaths(after)
      && "platform." + layer + "." + Join(rest) in AllPaths(after)
  {
    var v := Added(LayerOf(platform, layer), rest);
    SumOverUpdate(platform, layer, v, LayerPaths);
    AddedKeeps("platform." + layer, LayerOf(platform, layer), rest);
    AddedContains("platform." + layer, LayerOf(platform, layer), rest);
    assert "platform." + layer + "." + Join(rest) in LayerPaths(layer, v);
  }

  /**
   * Remove on the whole document. On success nothing appears, the target loses
   * an occurrence and every lost path is at or under it. On failure the layer
   * is still written back: unchanged if it existed, and otherwise created
   * empty, which adds the path of the new layer.
   */
  lemma RemovedFromPlatform(platform: map<string, seq<Entry>>, layer: string, rest: seq<string>)
    requires rest != []
    ensures var (secs, removed) := Removed(LayerOf(platform, layer), rest);
      var after := platform[layer := secs];
      var target := "platform." + layer + "." + Join(rest);
      && (removed ==> AllPaths(after) <= AllPaths(platform))
      && (removed ==> target in AllPaths(platform) - AllPaths(after))
      && (removed ==> forall x :: x in AllPaths(platform) - AllPaths(after) ==> AtOrUnder(x, target))
      && (!removed && layer in platform ==> after == platform)
      && (!removed && layer !in platform ==> AllPaths(after) == AllPaths(platform) + multiset{"platform." + layer})
  {
    var prior := LayerOf(platform, layer);
    var (secs, removed) := Removed(prior, rest);
    if removed {
      LayerRemoved(platform, layer, rest, secs);
    } else if layer !in platform {
      LayerCreated(platform, layer);
    }
  }

  /** Writing back an empty list for a missing layer adds the layer's own path. */
  lemma LayerCreated(platform: map<string, seq<Entry>>, layer: string)
    requires layer !in platform
    ensures AllPaths(platform[layer := []]) == AllPaths(platform) + multiset{"platform." + layer}
  {
    assert LayerPaths(layer, []) == multiset{"platform." + layer} by {
      assert ItemPaths("platform." + layer, []) == multiset{};
    }
    assert platform.Keys - {layer} == platform.Keys;
    SumOverUpdate(platform, layer, [], LayerPaths);
  }

  lemma LayerRemoved(platform: map<string, seq<Entry>>, layer: string, rest: seq<string>, secs: seq<Entry>)
    requires rest != [] && Removed(LayerOf(platform, layer), rest) == (secs, true)
    ensures var after := platform[layer := secs];
      var target := "platform." + layer + "." + Join(rest);
      && AllPaths(after) <= AllPaths(platform)
      && target in AllPaths(platform) - AllPaths(after)
      && forall x :: x in AllPaths(platform) - AllPaths(after) ==> AtOrUnder(x, target)
  {
    var prior := LayerOf(platform, layer);
    var after := platform[layer := secs];
    SumOverUpdate(platform, layer, secs, LayerPaths);
    RemovedPaths("platform." + layer, prior, rest);
    var rem := SumOver(platform, platform.Keys - {layer}, LayerPaths);
    var b, a := LayerPaths(layer, prior), LayerPaths(layer, secs);
    assert layer in platform;
    assert AllPaths(platform) == b + rem;
    assert AllPaths(after) == a + rem;
    assert AllPaths(platform) - AllPaths(after) == b - a;
  }

  // ---------------------------------------------------------------------------
  // The operations

  /** flattenSections: the prefix, then one path per bare string and per group member, recursing into member lists. */
  method FlattenSections(prefix: string, sections: seq<Entry>) returns (paths: seq<string>)
    ensures multiset(paths) == SectionPaths(prefix, sections)
    decreases sections, 1
  {
    paths := [prefix];
    var i := 0;
    while i < |sections|
      invariant 0 <= i <= |sections|
      invariant multiset(paths) == multiset{prefix} + ItemPaths(prefix, sections[..i])
    {
      var more := FlattenItem(prefix, sections[i]);
      ItemPathsNext(prefix, sections, i);
      paths := paths + more;
      i := i + 1;
    }
    assert sections[..|sections|] == sections;
  }

  /** One more item of a list contributes its own paths. */
  lemma ItemPathsNext(prefix: string, secs: seq<Entry>, i: int)
    requires 0 <= i < |secs|
    ensures ItemPaths(prefix, secs[..i + 1]) == ItemPaths(prefix, secs[..i]) + EntryPaths(prefix, secs[i])
  {
    assert secs[..i + 1][..i] == secs[..i];
  }

  /** One item of flattenSections: a bare string gives one path, a group its members' paths. */
  method FlattenItem(prefix: string, e: Entry) returns (paths: seq<string>)
    ensures multiset(paths) == EntryPaths(prefix, e)
    decreases e, 1
  {
    match e {
      case Marker(s) => {
        paths := [prefix + "." + s];
      }
      case Group(m) => {
        paths := FlattenMembers(prefix, m);
      }
      case Unknown => {
        paths := [];
      }
    }
  }

  /** The inner loop of flattenSections over one group's members, in any order. */
  method FlattenMembers(prefix: string, m: map<string, Sub>) returns (paths: seq<string>)
    ensures multiset(paths) == EntryPaths(prefix, Group(m))
    decreases Group(m), 0
  {
    paths := [];
    var names := m.Keys;
    while names != {}
      invariant names <= m.Keys
      invariant multiset(paths) + KeyPaths(prefix, m, names) == KeyPaths(prefix, m, m.Keys)
      decreases names
    {
      var name :| name in names;
      KeyPathsPick(prefix, m, names, name);
      var newPrefix := prefix + "." + name;
      match m[name] {
        case List(sub) => {
          var more := FlattenSections(newPrefix, sub);
          paths := paths + more;
        }
        case NonList => {
          paths := paths + [newPrefix];
        }
      }
      names := names - {name};
    }
  }

  /** addToSections: adds `path` under `sections`, reusing the first matching item. */
  method AddToSections(sections: seq<Entry>, path: seq<string>) returns (r: seq<Entry>)
    ensures r == Added(sections, path)
    decreases |path|
  {
    if |path| == 0 {
      return sections;
    }
    var name := path[0];
    var remaining := path[1..];
    if |remaining| == 0 {
      var i := 0;
      while i < |sections|
        invariant 0 <= i <= |sections|
        invariant Marker(name) !in sections[..i]
      {
        if sections[i] == Marker(name) {
          return sections;
        }
        assert sections[..i + 1] == sections[..i] + [sections[i]];
        i := i + 1;
      }
      assert sections[..i] == sections;
      return sections + [Marker(name)];
    }
    var i := 0;
    while i < |sections|
      invariant 0 <= i <= |sections|
      invariant forall j :: 0 <= j < i ==> !IsSlot(sections[j], name)
    {
      var s := sections[i];
      if s.Group? && name in s.members && s.members[name].List? {
        var sub := AddToSections(s.members[name].items, remaining);
        return sections[i := Group(s.members[name := List(sub)])];
      }
      if s == Marker(name) {
        var chain := AddToSections([], remaining);
        return sections[i := Group(map[name := List(chain)])];
      }
      i := i + 1;
    }
    var chain := AddToSections([], remaining);
    return sections + [Group(map[name := List(chain)])];
  }

  /** removeFromSections: removes `path` at the first item where it applies. */
  method RemoveFromSections(sections: seq<Entry>, path: seq<string>) returns (r: seq<Entry>, removed: bool)
    ensures (r, removed) == Removed(sections, path)
    decreases |path|
  {
    if |path| == 0 {
      return sections, false;
    }
    var name := path[0];
    var remaining := path[1..];
    var i := 0;
    while i < |sections|
      invariant 0 <= i <= |sections|
      invariant forall j :: 0 <= j < i ==> !RemovesAt(sections[j], path)
    {
      var s := sections[i];
      if s == Marker(name) && |remaining| == 0 {
        FirstSlot(sections, path, i);
        return sections[..i] + sections[i + 1..], true;
      }
      if s.Group? && name in s.members {
        var m := s.members;
        if |remaining| == 0 {
          FirstSlot(sections, path, i);
          var m' := m - {name};
          if m'.Keys == {} {
            return sections[..i] + sections[i + 1..], true;
          }
          return sections[i := Group(m')], true;
        }
        if m[name].List? {
          var newSub, ok := RemoveFromSections(m[name].items, remaining);
          if ok {
            FirstSlot(sections, path, i);
            return sections[i := Group(m[name := List(newSub)])], true;
          }
        }
      }
      i := i + 1;
    }
    return sections, false;
  }

  /** sectionsToTree's result: nothing for an empty list, otherwise a map from each item name to its subtree. */
  datatype Tree = Nil | Branch(children: map<string, Tree>)

  /** The names one item defines and the subtree each gets. */
  function EntryTree(e: Entry): map<string, Tree>
    decreases e, 1
  {
    match e
    case Marker(n) => map[n := Nil]
    case Group(m) => map k | k in m :: SubTree(m[k])
    case Unknown => map[]
  }

  function SubTree(s: Sub): Tree
    decreases s
  {
    match s
    case List(items) => TreeOf(items)
    case NonList => Nil
  }

  /** Later items overwrite earlier ones with the same name, as assigning into a Go map does. */
  function ChildrenOf(secs: seq<Entry>): map<string, Tree>
    decreases secs, 2
  {
    if secs == [] then map[]
    else ChildrenOf(secs[..|secs| - 1]) + EntryTree(secs[|secs| - 1])
  }

  function TreeOf(secs: seq<Entry>): Tree
    decreases secs, 3
  {
    if secs == [] then Nil else Branch(ChildrenOf(secs))
  }

  /** Item `e` defines child `k`: it is the bare string `k` or a group with member `k`. */
  predicate Names(e: Entry, k: string) {
    e == Marker(k) || (e.Group? && k in e.members)
  }

  /** Item `i` is the last of `secs` to define child `k`. */
  predicate LastDefiner(secs: seq<Entry>, k: string, i: int) {
    0 <= i < |secs| && Names(secs[i], k) && forall j :: i < j < |secs| ==> !Names(secs[j], k)
  }

  lemma EntryTreeKeys(e: Entry, k: string)
    ensures k in EntryTree(e) <==> Names(e, k)
  {
  }

  /** The tree's children are exactly the names the items define, each holding what its last definer gives it. */
  lemma ChildrenOfSpec(secs: seq<Entry>, k: string)
    ensures k in ChildrenOf(secs) <==> exists i :: 0 <= i < |secs| && Names(secs[i], k)
    ensures k in ChildrenOf(secs) ==> exists i :: LastDefiner(secs, k, i) && ChildrenOf(secs)[k] == EntryTree(secs[i])[k]
  {
    ChildrenOfKeys(secs, k);
    if k in ChildrenOf(secs) {
      ChildrenOfValue(secs, k);
    }
  }

  lemma {:induction false} ChildrenOfKeys(secs: seq<Entry>, k: string)
    ensures k in ChildrenOf(secs) <==> exists i :: 0 <= i < |secs| && Names(secs[i], k)
  {
    if secs != [] {
      var init := secs[..|secs| - 1];
      ChildrenOfKeys(init, k);
      EntryTreeKeys(secs[|secs| - 1], k);
      if exists i :: 0 <= i < |secs| && Names(secs[i], k) {
        var i :| 0 <= i < |secs| && Names(secs[i], k);
        if i < |init| {
          assert Names(init[i], k);
        }
      }
      if exists i :: 0 <= i < |init| && Names(init[i], k) {
        var i :| 0 <= i < |init| && Names(init[i], k);
        assert Names(secs[i], k);
      }
    }
  }

  lemma {:induction false} ChildrenOfValue(secs: seq<Entry>, k: string)
    requires k in ChildrenOf(secs)
    ensures exists i :: LastDefiner(secs, k, i) && ChildrenOf(secs)[k] == EntryTree(secs[i])[k]
  {
    var init := secs[..|secs| - 1];
    var last := secs[|secs| - 1];
    assert ChildrenOf(secs) == ChildrenOf(init) + EntryTree(last);
    EntryTreeKeys(last, k);
    if Names(last, k) {
      assert LastDefiner(secs, k, |secs| - 1);
    } else {
      ChildrenOfValue(init, k);
      var i :| LastDefiner(init, k, i) && ChildrenOf(init)[k] == EntryTree(init[i])[k];
      assert secs[i] == init[i];
      assert LastDefiner(secs, k, i);
    }
  }

  /** sectionsToTree: fills a map from the items in order, each group's members in any order. */
  method SectionsToTree(sections: seq<Entry>) returns (t: Tree)
    ensures t == TreeOf(sections)
    decreases sections, 3
  {
    if |sections| == 0 {
      return Nil;
    }
    var result: map<string, Tree> := map[];
    var i := 0;
    while i < |sections|
      invariant 0 <= i <= |sections|
      invariant result == ChildrenOf(sections[..i])
    {
      result := AddItem(result, sections[i]);
      ChildrenOfNext(sections, i);
      i := i + 1;
    }
    assert sections[..|sections|] == sections;
    return Branch(result);
  }

  lemma ChildrenOfNext(secs: seq<Entry>, i: int)
    requires 0 <= i < |secs|
    ensures ChildrenOf(secs[..i + 1]) == ChildrenOf(secs[..i]) + EntryTree(secs[i])
  {
    assert secs[..i + 1][..i] == secs[..i];
  }

  /** A member with a list gets that list's tree; any other member gets nothing. */
  method MemberTree(s: Sub) returns (t: Tree)
    ensures t == SubTree(s)
    decreases s, 3
  {
    match s {
      case List(items) => {
        t := SectionsToTree(items);
      }
      case NonList => {
        t := Nil;
      }
    }
  }

  /** One item of sectionsToTree: its names assigned into the map. */
  method AddItem(result: map<string, Tree>, e: Entry) returns (r: map<string, Tree>)
    ensures r == result + EntryTree(e)
    decreases e, 2
  {
    r := result;
    match e {
      case Marker(n) => {
        r := r[n := Nil];
      }
      case Group(m) => {
        var names := m.Keys;
        while names != {}
          invariant names <= m.Keys
          invariant r == result + map k | k in m.Keys - names :: SubTree(m[k])
          decreases names
        {
          var name :| name in names;
          var sub := MemberTree(m[name]);
          r := r[name := sub];
          names := names - {name};
        }
        assert m.Keys - names == m.Keys;
      }
      case Unknown => {}
    }
  }

  /** NodesForSection's result: the nodes allocated to `section`, in their order. */
  function NodesWith(nodes: seq<Node>, section: string): seq<Node> {
    Filter(nodes, (n: Node) => section in n.chassis)
  }

  lemma NodesWithSpec(nodes: seq<Node>, section: string)
    ensures forall n :: n in NodesWith(nodes, section) <==> n in nodes && section in n.chassis
    ensures SubsequenceOf(NodesWith(nodes, section), nodes)
  {
    FilterSpec(nodes, (n: Node) => section in n.chassis);
  }

  /** NodesForSection: each node at most once, stopping at its first matching path. */
  method NodesForSection(nodes: seq<Node>, section: string) returns (result: seq<Node>)
    ensures result == NodesWith(nodes, section)
  {
    result := [];
    var i := 0;
    while i < |nodes|
      invariant 0 <= i <= |nodes|
      invariant result == NodesWith(nodes[..i], section)
    {
      var node := nodes[i];
      var j := 0;
      while j < |node.chassis|
        invariant 0 <= j <= |node.chassis|
        invariant section !in node.chassis[..j]
      {
        if node.chassis[j] == section {
          break;
        }
        assert node.chassis[..j + 1] == node.chassis[..j] + [node.chassis[j]];
        j := j + 1;
      }
      assert nodes[..i + 1][..i] == nodes[..i];
      if j < |node.chassis| {
        result := result + [node];
      } else {
        assert node.chassis[..j] == node.chassis;
      }
      i := i + 1;
    }
    assert nodes[..|nodes|] == nodes;
  }

  /**
   * Remove on the whole document, as a document and an error: a malformed or
   * absent path is rejected and the document kept; otherwise the path's layer
   * is written back with the outcome of the removal, even when nothing was
   * removed.
   */
  ghost function RemoveEffect(platform: map<string, seq<Entry>>, section: string): (map<string, seq<Entry>>, Option<ChassisError>) {
    var parts := Split(section);
    if |parts| < 3 || parts[0] != "platform" then (platform, Some(InvalidFormat))
    else if section !in AllPaths(platform) then (platform, Some(NotFound))
    else
      var (secs, removed) := Removed(LayerOf(platform, parts[1]), parts[2..]);
      (platform[parts[1] := secs], if removed then None else Some(RemoveFailed))
  }

  /**
   * A successful Remove loses the path and only paths at or under it, and
   * gains nothing. A failed one keeps the document, except when the path's
   * second segment is not a layer (the path lies under a layer whose name has
   * a dot): the empty layer written back then adds its own path.
   */
  lemma RemoveEffectSpec(platform: map<string, seq<Entry>>, section: string)
    ensures var (after, err) := RemoveEffect(platform, section);
      && (err == None ==>
        && AllPaths(after) <= AllPaths(platform)
        && section in AllPaths(platform) - AllPaths(after)
        && forall x :: x in AllPaths(platform) - AllPaths(after) ==> AtOrUnder(x, section))
      && (err == Some(RemoveFailed) && Split(section)[1] !in platform ==>
        AllPaths(after) == AllPaths(platform) + multiset{"platform." + Split(section)[1]})
      && (err != None && !(err == Some(RemoveFailed) && Split(section)[1] !in platform) ==> after == platform)
  {
    var parts := Split(section);
    if |parts| >= 3 && parts[0] == "platform" && section in AllPaths(platform) {
      SectionOfParts(section);
      RemovedFromPlatform(platform, parts[1], parts[2..]);
    }
  }

  /** Flatten's loop over the layers, in any order: every path of the document. */
  method FlattenLayers(platform: map<string, seq<Entry>>) returns (acc: seq<string>)
    ensures multiset(acc) == AllPaths(platform)
  {
    acc := [];
    var layers := platform.Keys;
    while layers != {}
      invariant layers <= platform.Keys
      invariant multiset(acc) + SumOver(platform, layers, LayerPaths) == AllPaths(platform)
      decreases layers
    {
      var layer :| layer in layers;
      SumOverPick(platform, layers, LayerPaths, layer);
      var more := FlattenSections("platform." + layer, platform[layer]);
      acc := acc + more;
      layers := layers - {layer};
    }
  }

  /** The chassis document: a layer name to its list of sections. */
  class Chassis {
    var Platform: map<string, seq<Entry>>

    constructor(platform: map<string, seq<Entry>>)
      ensures Platform == platform
    {
      Platform := platform;
    }

    /** Flatten: every path of every layer, sorted. */
    method Flatten() returns (paths: seq<string>)
      ensures Sorted(paths) && multiset(paths) == AllPaths(Platform)
      ensures paths == Flattened(Platform)
    {
      var acc := FlattenLayers(Platform);
      paths := SortedCopy(acc);
      SortedUnique(paths, Flattened(Platform));
    }

    /** FlattenWithPrefix: the sorted paths equal to `prefix` or below it; everything for "". */
    method FlattenWithPrefix(prefix: string) returns (filtered: seq<string>)
      ensures prefix == "" ==> filtered == Flattened(Platform)
      ensures prefix != "" ==> filtered == PrefixFilter(Flattened(Platform), prefix)
      ensures Sorted(filtered)
      ensures forall x :: x in filtered <==> x in AllPaths(Platform) && (prefix == "" || AtOrUnder(x, prefix))
    {
      var all := Flatten();
      filtered := FilterByPrefix(all, prefix);
      PrefixFilterSpec(all, prefix);
    }

    /** Exists: whether `section` is one of the flattened paths. */
    method Exists(section: string) returns (found: bool)
      ensures found <==> section in AllPaths(Platform)
    {
      var all := Flatten();
      found := Contains(all, section);
    }

    /**
     * Add: rejects a path that does not start with "platform.<layer>." or is
     * already present, leaving the document alone; otherwise adds it to its
     * layer, which then holds it, and keeps every path already present.
     */
    method Add(section: string) returns (err: Option<ChassisError>)
      modifies this
      ensures var parts := Split(section);
        if |parts| < 3 || parts[0] != "platform" then
          err == Some(InvalidFormat) && Platform == old(Platform)
        else if section in old(AllPaths(Platform)) then
          err == Some(AlreadyExists) && Platform == old(Platform)
        else
          && err == None
          && Platform == old(Platform)[parts[1] := Added(LayerOf(old(Platform), parts[1]), parts[2..])]
      ensures err == None ==> section in AllPaths(Platform) && old(AllPaths(Platform)) <= AllPaths(Platform)
    {
      var parts := Split(section);
      if |parts| < 3 || parts[0] != "platform" {
        return Some(InvalidFormat);
      }
      var present := Exists(section);
      if present {
        return Some(AlreadyExists);
      }
      var layer := parts[1];
      var remaining := parts[2..];
      var secs := AddToSections(LayerOf(Platform, layer), remaining);
      SectionOfParts(section);
      AddedToPlatform(Platform, layer, remaining);
      Platform := Platform[layer := secs];
      return None;
    }

    /**
     * Remove: rejects a malformed or absent path, leaving the document alone.
     * Otherwise the layer is written back with the result of the removal even
     * when nothing was removed. On success every path lost is at or under the
     * removed path, which lost an occurrence, and nothing was gained.
     */
    method Remove(section: string) returns (err: Option<ChassisError>)
      modifies this
      ensures (Platform, err) == RemoveEffect(old(Platform), section)
      ensures err == None ==>
        && AllPaths(Platform) <= old(AllPaths(Platform))
        && section in old(AllPaths(Platform)) - AllPaths(Platform)
        && forall x :: x in old(AllPaths(Platform)) - AllPaths(Platform) ==> AtOrUnder(x, section)
    {
      var parts := Split(section);
      if |parts| < 3 || parts[0] != "platform" {
        return Some(InvalidFormat);
      }
      var present := Exists(section);
      if !present {
        return Some(NotFound);
      }
      var layer := parts[1];
      var remaining := parts[2..];
      var secs, removed := RemoveFromSections(LayerOf(Platform, layer), remaining);
      RemoveEffectSpec(Platform, section);
      Platform := Platform[layer := secs];
      if !removed {
        return Some(RemoveFailed);
      }
      return None;
    }
  }
}
