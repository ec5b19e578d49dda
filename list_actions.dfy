/**
 * The chassis:list command, in its two versions: actions/list/list.go and
 * action/list.go. Both select the paths at or below the requested section
 * (every path when it is empty) and print them one per line, or as a tree of
 * their segments; action/list.go sorts each node's children by name before
 * printing them. Terminal output itself is not modelled: a listing is the
 * value that would be printed.
 */
module ListActions {
  import opened Strs
  import opened ChassisDoc
  import PathTrie

  datatype Listing =
    | LoadFailed                          // the chassis document could not be loaded
    | NoSections                          // the "No chassis sections found" warning
    | FlatListing(lines: seq<string>)     // one path per line
    | TreeListing(tree: PathTrie.Trie)    // the tree printed below its unnamed root

  /** The paths the command lists: FlattenWithPrefix of the requested section. */
  ghost function Selected(platform: map<string, seq<Entry>>, section: string): seq<string> {
    if section == "" then Flattened(platform) else PrefixFilter(Flattened(platform), section)
  }

  /** The selection is sorted and holds exactly the document's paths at or below the section. */
  lemma SelectedSpec(platform: map<string, seq<Entry>>, section: string)
    ensures Sorted(Selected(platform, section))
    ensures forall x :: x in Selected(platform, section) <==>
      x in AllPaths(platform) && (section == "" || AtOrUnder(x, section))
    ensures Selected(platform, section) == [] <==>
      forall x :: x in AllPaths(platform) ==> section != "" && !AtOrUnder(x, section)
  {
    var all := Flattened(platform);
    PrefixFilterSpec(all, section);
    assert forall x :: x in all <==> x in multiset(all);
    var sel := Selected(platform, section);
    if sel != [] {
      assert sel[0] in sel;
    }
  }

  /**
   * What a tree listing shows: every selected path as a chain of its
   * segments, and no chain that is not a leading part of a selected path.
   */
  lemma TreeListingSpec(paths: seq<string>, t: PathTrie.Trie)
    requires forall q :: PathTrie.HasChain(t, q) <==> PathTrie.HasChain(PathTrie.TreeOf(paths), q)
    ensures forall p :: p in paths ==> PathTrie.HasChain(t, PathTrie.Segments(p))
    ensures forall q :: q != [] && PathTrie.HasChain(t, q) ==>
      exists p :: p in paths && PathTrie.PrefixOf(q, PathTrie.Segments(p))
  {
    PathTrie.TreeChains(paths);
    forall q | q != [] && PathTrie.HasChain(t, q)
      ensures exists p :: p in paths && PathTrie.PrefixOf(q, PathTrie.Segments(p))
    {
      PathTrie.TreeOnlyChains(paths, q);
    }
  }

  /** actions/list/list.go, Execute: the tree is built in insertion order and printed as built. */
  method ListExecute(c: Chassis?, section: string, tree: bool) returns (listing: Listing)
    ensures c == null ==> listing == LoadFailed
    ensures c != null ==>
      var selected := Selected(c.Platform, section);
      if selected == [] then listing == NoSections
      else if tree then listing == TreeListing(PathTrie.TreeOf(selected))
      else listing == FlatListing(selected)
  {
    if c == null {
      return LoadFailed;
    }
    var sections := c.FlattenWithPrefix(section);
    if |sections| == 0 {
      return NoSections;
    }
    if tree {
      var root := PathTrie.BuildTree(sections);
      return TreeListing(root);
    }
    return FlatListing(sections);
  }

  /** action/list.go, Execute: as above, with every node's children printed in name order. */
  method SortedListExecute(c: Chassis?, section: string, tree: bool) returns (listing: Listing)
    ensures c == null ==> listing == LoadFailed
    ensures c != null ==>
      var selected := Selected(c.Platform, section);
      if selected == [] then listing == NoSections
      else if tree then
        && listing.TreeListing?
        && listing.tree.name == ""
        && PathTrie.Ordered(listing.tree)
        && PathTrie.UniqueNames(listing.tree)
        && forall q :: PathTrie.HasChain(listing.tree, q) <==> PathTrie.HasChain(PathTrie.TreeOf(selected), q)
      else listing == FlatListing(selected)
  {
    if c == null {
      return LoadFailed;
    }
    var sections := c.FlattenWithPrefix(section);
    if |sections| == 0 {
      return NoSections;
    }
    if tree {
      var root := PathTrie.BuildTree(sections);
      PathTrie.TreeUnique(sections);
      var sorted := PathTrie.SortTree(root);
      return TreeListing(sorted);
    }
    return FlatListing(sections);
  }

  /**
   * The sorted listing is determined: any two tries that are named "", ordered
   * by name at every level, free of repeated sibling names and hold the chains
   * of the selected paths are the same tree, so SortedListExecute prints one
   * listing per selection.
   */
  lemma SortedTreeDetermined(paths: seq<string>, a: PathTrie.Trie, b: PathTrie.Trie)
    requires a.name == "" && b.name == ""
    requires PathTrie.Ordered(a) && PathTrie.UniqueNames(a)
    requires PathTrie.Ordered(b) && PathTrie.UniqueNames(b)
    requires forall q :: PathTrie.HasChain(a, q) <==> PathTrie.HasChain(PathTrie.TreeOf(paths), q)
    requires forall q :: PathTrie.HasChain(b, q) <==> PathTrie.HasChain(PathTrie.TreeOf(paths), q)
    ensures a == b
  {
    PathTrie.ChainsDetermine(a, b);
  }
}
