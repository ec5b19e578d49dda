/**
 * The chassis:remove command (actions/remove/remove.go): a path may be
 * removed only when it exists, no node has it or anything below it allocated,
 * and no component is attached to it or below it. A dry run reports the
 * blockers and changes nothing.
 *
 * The node registry and the playbooks are inputs here: each node with the
 * paths allocated to it, in the order the registry yields them (a registry
 * that fails to load yields none), and the playbooks already read.
 */
module RemoveAction {
  import opened Strs
  import opened ChassisDoc
  import opened Attachments

  /** A node as the allocation check sees it: its display name and the paths allocated to its hostname. */
  datatype NodeAllocation = NodeAllocation(displayName: string, paths: seq<string>)

  /** The structured result of chassis:remove. */
  datatype RemoveResult = RemoveResult(chassis: string, dryRun: bool, allocatedNodes: seq<string>, attachedComponents: seq<string>)

  datatype RemoveError =
    | LoadFailed
    | PathNotFound
    | NodesAllocated(nodes: nat)
    | ComponentsAttached(components: nat)
    | RemoveRejected(cause: ChassisError)
    | SaveFailed

  /** A node blocks removal when one of its paths is the target or lies below it. */
  predicate Blocks(n: NodeAllocation, target: string) {
    Touches(n.paths, target)
  }

  /** The blocking nodes' display names, once per node, in registry order. */
  function AllocatedNodes(nodes: seq<NodeAllocation>, target: string): seq<string> {
    if nodes == [] then []
    else
      var n := nodes[|nodes| - 1];
      AllocatedNodes(nodes[..|nodes| - 1], target) + (if Blocks(n, target) then [n.displayName] else [])
  }

  /** The components of the attachments, in order. */
  function Components(attachments: seq<Attachment>): (r: seq<string>)
    ensures |r| == |attachments| && forall i :: 0 <= i < |r| ==> r[i] == attachments[i].component
  {
    seq(|attachments|, i requires 0 <= i < |attachments| => attachments[i].component)
  }

  /** A name is listed exactly when some node with that name blocks, and there is at most one entry per node. */
  lemma {:induction false} AllocatedNodesSpec(nodes: seq<NodeAllocation>, target: string)
    ensures forall name :: name in AllocatedNodes(nodes, target) <==>
      exists n :: n in nodes && n.displayName == name && Blocks(n, target)
    ensures |AllocatedNodes(nodes, target)| <= |nodes|
  {
    if nodes != [] {
      var init := nodes[..|nodes| - 1];
      AllocatedNodesSpec(init, target);
      assert nodes == init + [nodes[|nodes| - 1]];
    }
  }

  /** The allocation loop: for each node, the first matching path adds it and ends its inner loop. */
  method CollectAllocatedNodes(nodes: seq<NodeAllocation>, target: string) returns (blocking: seq<string>)
    ensures blocking == AllocatedNodes(nodes, target)
  {
    blocking := [];
    var i := 0;
    while i < |nodes|
      invariant 0 <= i <= |nodes|
      invariant blocking == AllocatedNodes(nodes[..i], target)
    {
      assert nodes[..i + 1][..i] == nodes[..i];
      var paths := nodes[i].paths;
      ghost var hit := false;
      var j := 0;
      while j < |paths|
        invariant 0 <= j <= |paths|
        invariant forall m :: 0 <= m < j ==> !AtOrUnder(paths[m], target)
        invariant blocking == AllocatedNodes(nodes[..i], target) && !hit
      {
        if paths[j] == target || HasPrefix(paths[j], target + ".") {
          blocking := blocking + [nodes[i].displayName];
          hit := true;
          assert AtOrUnder(paths[j], target);
          break;
        }
        j := j + 1;
      }
      TouchesSpec(paths, target);
      assert hit <==> Blocks(nodes[i], target);
      assert blocking == AllocatedNodes(nodes[..i], target) + (if hit then [nodes[i].displayName] else []);
      i := i + 1;
    }
    assert nodes[..i] == nodes;
  }

  /** The attachment loop: one component per attachment. */
  method CollectComponents(attachments: seq<Attachment>) returns (components: seq<string>)
    ensures components == Components(attachments)
  {
    components := [];
    var i := 0;
    while i < |attachments|
      invariant 0 <= i <= |attachments|
      invariant components == Components(attachments[..i])
    {
      components := components + [attachments[i].component];
      i := i + 1;
    }
    assert attachments[..i] == attachments;
  }

  /** The chassis:remove command: its target path, the dry-run switch and the result it leaves behind. */
  class RemoveCommand {
    const target: string
    const dryRun: bool
    var result: Option<RemoveResult>

    constructor(target: string, dryRun: bool)
      ensures this.target == target && this.dryRun == dryRun && result == None
    {
      this.target := target;
      this.dryRun := dryRun;
      result := None;
    }

    /**
     * Execute: a chassis document that cannot be loaded (`c == null`) fails
     * first; then not found, then the blockers are collected; a dry run records
     * them and succeeds; otherwise blocking nodes, then attached components,
     * refuse the removal. Only with neither is the path removed from `c` and
     * the document saved (`saveFails` stands for a failing write).
     */
    method Execute(c: Chassis?, nodes: seq<NodeAllocation>, playbooks: seq<Playbook>, saveFails: bool)
      returns (err: Option<RemoveError>)
      modifies this, c
      ensures c == null ==> err == Some(LoadFailed) && result == old(result)
      ensures c != null ==>
        var blocking := AllocatedNodes(nodes, target);
        var attached := Components(AttachmentsOf(playbooks, target));
        if target !in old(AllPaths(c.Platform)) then
          err == Some(PathNotFound) && c.Platform == old(c.Platform) && result == old(result)
        else if dryRun then
          err == None && c.Platform == old(c.Platform) && result == Some(RemoveResult(target, true, blocking, attached))
        else if blocking != [] then
          err == Some(NodesAllocated(|blocking|)) && c.Platform == old(c.Platform) && result == old(result)
        else if attached != [] then
          err == Some(ComponentsAttached(|attached|)) && c.Platform == old(c.Platform) && result == old(result)
        else
          var (after, removeErr) := RemoveEffect(old(c.Platform), target);
          && c.Platform == after
          && (removeErr.Some? ==> err == Some(RemoveRejected(removeErr.value)) && result == old(result))
          && (removeErr.None? && saveFails ==> err == Some(SaveFailed) && result == old(result))
          && (removeErr.None? && !saveFails ==> err == None && result == Some(RemoveResult(target, false, [], [])))
      ensures c != null && c.Platform != old(c.Platform) ==>
        !dryRun && AllocatedNodes(nodes, target) == [] && AttachmentsOf(playbooks, target) == []
    {
      if c == null {
        return Some(LoadFailed);
      }
      var present := c.Exists(target);
      if !present {
        return Some(PathNotFound);
      }
      var allocatedNodes := CollectAllocatedNodes(nodes, target);
      var attachments := LoadAttachments(playbooks, target);
      var attachedComponents := CollectComponents(attachments);
      if dryRun {
        result := Some(RemoveResult(target, true, allocatedNodes, attachedComponents));
        return None;
      }
      if |allocatedNodes| > 0 {
        return Some(NodesAllocated(|allocatedNodes|));
      }
      if |attachedComponents| > 0 {
        return Some(ComponentsAttached(|attachedComponents|));
      }
      var removeErr := c.Remove(target);
      if removeErr.Some? {
        return Some(RemoveRejected(removeErr.value));
      }
      if saveFails {
        return Some(SaveFailed);
      }
      result := Some(RemoveResult(target, false, [], []));
      return None;
    }
  }
}
