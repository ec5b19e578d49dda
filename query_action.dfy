/**
 * The chassis:query command (actions/query/query.go): the chassis paths an
 * identifier is found at. A hostname yields the paths its node is allocated
 * to; otherwise a component name yields the paths it is attached to, looked
 * up under the chassis root. The answer is printed deduplicated and sorted.
 *
 * The node registry is an input (a registry that fails to load yields no
 * nodes), as are the playbooks; the chassis document is `null` when it
 * cannot be loaded.
 */
module QueryAction {
  import opened Strs
  import opened ChassisDoc
  import opened Attachments

  datatype Outcome =
    | Printed(lines: seq<string>)  // one path per line
    | NoMatch                      // the warning that nothing was found
    | LoadFailed                   // the chassis document could not be loaded

  // ---------------------------------------------------------------------------
  // Where the identifier is found

  /** The paths allocated to the nodes whose hostname is `id`, node by node. */
  function NodeSections(nodes: seq<Node>, id: string): seq<string> {
    if nodes == [] then []
    else
      var n := nodes[|nodes| - 1];
      NodeSections(nodes[..|nodes| - 1], id) + (if n.hostname == id then n.chassis else [])
  }

  lemma {:induction false} NodeSectionsSpec(nodes: seq<Node>, id: string)
    ensures forall x :: x in NodeSections(nodes, id) <==> exists n :: n in nodes && n.hostname == id && x in n.chassis
  {
    if nodes != [] {
      NodeSectionsSpec(nodes[..|nodes| - 1], id);
      assert nodes == nodes[..|nodes| - 1] + [nodes[|nodes| - 1]];
    }
  }

  /** The first segment of a path: everything before its first dot, or the whole path. */
  function FirstSegment(p: string): (r: string)
    ensures DotFree(r) && HasPrefix(p, r)
    ensures |r| == |p| || p[|r|] == '.'
  {
    if p == [] || p[0] == '.' then []
    else [p[0]] + FirstSegment(p[1..])
  }

  /** The root loop: scan for the first dot and cut there. */
  method RootOf(p: string) returns (root: string)
    ensures root == FirstSegment(p)
  {
    root := p;
    var i := 0;
    while i < |p|
      invariant 0 <= i <= |p|
      invariant i <= |FirstSegment(p)|
      invariant root == p
    {
      if p[i] == '.' {
        root := p[..i];
        break;
      }
      i := i + 1;
    }
  }

  /** The paths of the attachments whose component is `id`, in order. */
  function Matches(attachments: seq<Attachment>, id: string): seq<string> {
    if attachments == [] then []
    else
      var a := attachments[|attachments| - 1];
      Matches(attachments[..|attachments| - 1], id) + (if a.component == id then [a.chassis] else [])
  }

  lemma {:induction false} MatchesSpec(attachments: seq<Attachment>, id: string)
    ensures forall x :: x in Matches(attachments, id) <==> exists a :: a in attachments && a.component == id && a.chassis == x
  {
    if attachments != [] {
      MatchesSpec(attachments[..|attachments| - 1], id);
      assert attachments == attachments[..|attachments| - 1] + [attachments[|attachments| - 1]];
    }
  }

  /**
   * The paths found for `id` before deduplication, or None when the chassis
   * document is needed and could not be loaded.
   */
  ghost function Found(nodes: seq<Node>, platform: Option<map<string, seq<Entry>>>, playbooks: seq<Playbook>, id: string): Option<seq<string>> {
    var fromNodes := NodeSections(nodes, id);
    if fromNodes != [] then Some(fromNodes)
    else if platform.None? then None
    else
      var paths := Flattened(platform.value);
      if paths == [] then Some([])
      else Some(Matches(AttachmentsOf(playbooks, FirstSegment(paths[0])), id))
  }

  /**
   * What a found path is: a path of a node with hostname `id`, or, when there
   * is none, a path where component `id` is attached under the chassis root.
   */
  lemma FoundSpec(nodes: seq<Node>, platform: Option<map<string, seq<Entry>>>, playbooks: seq<Playbook>, id: string)
    ensures (exists n :: n in nodes && n.hostname == id && n.chassis != []) ==>
      Found(nodes, platform, playbooks, id).Some? &&
      forall x :: x in Found(nodes, platform, playbooks, id).value <==> exists n :: n in nodes && n.hostname == id && x in n.chassis
    ensures (forall n :: n in nodes && n.hostname == id ==> n.chassis == []) && platform.Some? ==>
      var paths := Flattened(platform.value);
      Found(nodes, platform, playbooks, id).Some? &&
      forall x :: x in Found(nodes, platform, playbooks, id).value <==>
        paths != [] && exists a :: a in AttachmentsOf(playbooks, FirstSegment(paths[0])) && a.component == id && a.chassis == x
    ensures (forall n :: n in nodes && n.hostname == id ==> n.chassis == []) && platform.None? ==>
      Found(nodes, platform, playbooks, id).None?
  {
    var fromNodes := NodeSections(nodes, id);
    NodeSectionsSpec(nodes, id);
    if fromNodes != [] {
      assert fromNodes[0] in fromNodes;
    } else if platform.Some? {
      FoundAttachments(nodes, platform.value, playbooks, id);
    }
    if (exists n :: n in nodes && n.hostname == id && n.chassis != []) {
      var n :| n in nodes && n.hostname == id && n.chassis != [];
      assert n.chassis[0] in fromNodes;
    }
  }

  /** With no node paths, the attachments under the chassis root are what is found. */
  lemma FoundAttachments(nodes: seq<Node>, platform: map<string, seq<Entry>>, playbooks: seq<Playbook>, id: string)
    requires NodeSections(nodes, id) == []
    ensures var paths := Flattened(platform);
      Found(nodes, Some(platform), playbooks, id).Some? &&
      forall x :: x in Found(nodes, Some(platform), playbooks, id).value <==>
        paths != [] && exists a :: a in AttachmentsOf(playbooks, FirstSegment(paths[0])) && a.component == id && a.chassis == x
  {
    var paths := Flattened(platform);
    if paths != [] {
      MatchesSpec(AttachmentsOf(playbooks, FirstSegment(paths[0])), id);
    }
  }

  // ---------------------------------------------------------------------------
  // Deduplication and ordering

  /** The elements of `s`, each at its first occurrence. */
  function Dedup(s: seq<string>): seq<string> {
    if s == [] then []
    else
      var init := s[..|s| - 1];
      Dedup(init) + (if s[|s| - 1] in init then [] else [s[|s| - 1]])
  }

  lemma {:induction false} DedupSpec(s: seq<string>)
    ensures forall x :: x in Dedup(s) <==> x in s
    ensures Distinct(Dedup(s))
    ensures Distinct(s) ==> Dedup(s) == s
  {
    if s != [] {
      var init := s[..|s| - 1];
      DedupSpec(init);
      assert s == init + [s[|s| - 1]];
      if Distinct(s) {
        assert Distinct(init);
        assert s[|s| - 1] !in init;
      }
    }
  }

  /** The dedupe loop: a seen set, and an append at each first occurrence. */
  method Dedupe(sections: seq<string>) returns (unique: seq<string>)
    ensures unique == Dedup(sections)
  {
    var seen: set<string> := {};
    unique := [];
    var i := 0;
    while i < |sections|
      invariant 0 <= i <= |sections|
      invariant unique == Dedup(sections[..i])
      invariant forall x :: x in seen <==> x in sections[..i]
    {
      assert sections[..i + 1][..i] == sections[..i];
      if sections[i] !in seen {
        seen := seen + {sections[i]};
        unique := unique + [sections[i]];
      }
      i := i + 1;
    }
    assert sections[..i] == sections;
  }

  /** Dedupe then sort.Strings: the strictly ascending sequence of the paths. */
  method Report(sections: seq<string>) returns (lines: seq<string>)
    ensures StrictlySorted(lines)
    ensures forall x :: x in lines <==> x in sections
  {
    var unique := Dedupe(sections);
    DedupSpec(sections);
    lines := SortedCopy(unique);
    DistinctCount(unique);
    DistinctCount(lines);
    assert forall x :: x in lines <==> x in multiset(unique);
  }

  // ---------------------------------------------------------------------------
  // The command

  /** The node loop: every path of every node with hostname `id`. */
  method CollectNodeSections(nodes: seq<Node>, id: string) returns (sections: seq<string>)
    ensures sections == NodeSections(nodes, id)
  {
    sections := [];
    var i := 0;
    while i < |nodes|
      invariant 0 <= i <= |nodes|
      invariant sections == NodeSections(nodes[..i], id)
    {
      assert nodes[..i + 1][..i] == nodes[..i];
      if nodes[i].hostname == id {
        sections := sections + nodes[i].chassis;
      }
      i := i + 1;
    }
    assert nodes[..i] == nodes;
  }

  /** The attachment loop: the path of every attachment of component `id`. */
  method CollectMatches(attachments: seq<Attachment>, id: string) returns (sections: seq<string>)
    ensures sections == Matches(attachments, id)
  {
    sections := [];
    var j := 0;
    while j < |attachments|
      invariant 0 <= j <= |attachments|
      invariant sections == Matches(attachments[..j], id)
    {
      assert attachments[..j + 1][..j] == attachments[..j];
      if attachments[j].component == id {
        sections := sections + [attachments[j].chassis];
      }
      j := j + 1;
    }
    assert attachments[..j] == attachments;
  }

  /** The fallback search: attachments of component `id` under the root of the first flattened path. */
  method SearchAttachments(c: Chassis, playbooks: seq<Playbook>, id: string) returns (sections: seq<string>)
    ensures var paths := Flattened(c.Platform);
      sections == if paths == [] then [] else Matches(AttachmentsOf(playbooks, FirstSegment(paths[0])), id)
  {
    sections := [];
    var roots := c.Flatten();
    if |roots| > 0 {
      var root := RootOf(roots[0]);
      var attachments := LoadAttachments(playbooks, root);
      sections := CollectMatches(attachments, id);
    }
  }

  method Execute(id: string, nodes: seq<Node>, c: Chassis?, playbooks: seq<Playbook>) returns (outcome: Outcome)
    ensures match Found(nodes, if c == null then None else Some(c.Platform), playbooks, id)
      case None => outcome == LoadFailed
      case Some(sections) =>
        if sections == [] then outcome == NoMatch
        else outcome.Printed? && StrictlySorted(outcome.lines) && forall x :: x in outcome.lines <==> x in sections
  {
    var sections := CollectNodeSections(nodes, id);
    if |sections| == 0 {
      if c == null {
        return LoadFailed;
      }
      sections := SearchAttachments(c, playbooks, id);
    }
    if |sections| == 0 {
      return NoMatch;
    }
    var lines := Report(sections);
    return Printed(lines);
  }
}
