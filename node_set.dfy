/**
 * The registry of fully expanded nodes, keyed by their `(committed, next)`
 * pair. It only grows within one construction.
 */
module Registry {
  import opened TableauNode

  class NodeSet {
    var nodes: map<Key, Node>

    constructor ()
      ensures nodes == map[]
    {
      nodes := map[];
    }

    /** Forgets every registered node. */
    method Clear()
      modifies this
      ensures nodes == map[]
    {
      nodes := map[];
    }

    /** Whether a node with the same `(committed, next)` pair is registered. */
    predicate Contains(node: Node)
      reads this
    {
      KeyOf(node) in nodes
    }

    /** Registers `node` under its key unless that key is taken; reports whether it did. */
    method Add(node: Node) returns (added: bool)
      modifies this
      ensures added <==> KeyOf(node) !in old(nodes)
      ensures added ==> nodes == old(nodes)[KeyOf(node) := node]
      ensures !added ==> nodes == old(nodes)
    {
      var key := KeyOf(node);
      if Contains(node) {
        return false;
      }
      nodes := nodes[key := node];
      return true;
    }

    /**
     * Looks up the node registered under `key` and, when there is one,
     * appends `incoming` to its incoming list in place; reports whether it
     * found one.
     */
    method ExtendIncoming(key: Key, incoming: seq<Source>) returns (found: bool)
      modifies this
      ensures found <==> key in old(nodes)
      ensures found ==> nodes == old(nodes)[key := old(nodes)[key].(incoming := old(nodes)[key].incoming + incoming)]
      ensures !found ==> nodes == old(nodes)
    {
      if key !in nodes {
        return false;
      }
      var nd := nodes[key];
      nodes := nodes[key := nd.(incoming := nd.incoming + incoming)];
      return true;
    }
  }
}
