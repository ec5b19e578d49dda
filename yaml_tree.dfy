/**
 * The parsed form of a YAML document, as gopkg.in/yaml.v3 presents it in a
 * yaml.Node tree: a document node holding the root, sequences, mappings (kept
 * here as their key/value pairs in document order, where yaml.Node interleaves
 * keys and values in one Content list) and scalars. Alias nodes and any other
 * kind are `Other`; no operation of the model looks inside them.
 */
module YamlTree {

  datatype YNode =
    | Document(content: seq<YNode>)
    | Sequence(items: seq<YNode>)
    | Mapping(pairs: seq<Pair>)
    | Scalar(value: string)
    | Other

  datatype Pair = Pair(key: YNode, val: YNode)

  /** A node's Value field: the text of a scalar, empty for every other kind. */
  function Value(n: YNode): (v: string)
    ensures n.Scalar? ==> v == n.value
    ensures !n.Scalar? ==> v == ""
  {
    if n.Scalar? then n.value else ""
  }

  /** The interleaved key/value list yaml.Node keeps for a mapping. */
  function Interleave(pairs: seq<Pair>): (c: seq<YNode>)
    ensures |c| == 2 * |pairs|
    ensures forall i :: 0 <= i < |pairs| ==> c[2 * i] == pairs[i].key && c[2 * i + 1] == pairs[i].val
  {
    if pairs == [] then []
    else [pairs[0].key, pairs[0].val] + Interleave(pairs[1..])
  }

  /** A node's Content field. */
  function Content(n: YNode): seq<YNode> {
    match n
    case Document(c) => c
    case Sequence(items) => items
    case Mapping(pairs) => Interleave(pairs)
    case Scalar(_) => []
    case Other => []
  }
}
