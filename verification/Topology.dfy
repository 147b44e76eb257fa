/** Choice of the node that a new volume is placed on. */
module Topology {
  import opened Common

  datatype Node = Node(name: string, labels: map<string, string>)

  /** Indexing a Go map with a missing key gives the empty string. */
  function Label(n: Node, key: string): string {
    if key in n.labels then n.labels[key] else ""
  }

  /** The node carries every segment of the topology term. */
  ghost predicate Satisfies(n: Node, segments: map<string, string>) {
    forall key :: key in segments ==> Label(n, key) == segments[key]
  }

  /** Term p and node n match, no earlier term has any matching node, and no earlier node
      matches term p. */
  ghost predicate IsFirstMatch(preferred: seq<map<string, string>>, nodes: seq<Node>, p: nat, n: nat) {
    && p < |preferred| && n < |nodes| && Satisfies(nodes[n], preferred[p])
    && (forall q: nat, m: nat :: q < p && m < |nodes| ==> !Satisfies(nodes[m], preferred[q]))
    && (forall m: nat :: m < n ==> !Satisfies(nodes[m], preferred[p]))
  }

  ghost predicate NoMatch(preferred: seq<map<string, string>>, nodes: seq<Node>) {
    forall p: nat, n: nat :: p < |preferred| && n < |nodes| ==> !Satisfies(nodes[n], preferred[p])
  }

  lemma {:induction false} FirstMatchUnique(preferred: seq<map<string, string>>, nodes: seq<Node>, p: nat, n: nat, q: nat, m: nat)
    requires IsFirstMatch(preferred, nodes, p, n) && IsFirstMatch(preferred, nodes, q, m)
    ensures p == q && n == m
  {
  }

  /** It is first in the order of terms, and of nodes within a term. */
  lemma {:induction false} FirstMatchIsLeast(preferred: seq<map<string, string>>, nodes: seq<Node>, p: nat, n: nat, q: nat, m: nat)
    requires IsFirstMatch(preferred, nodes, p, n)
    requires q < |preferred| && m < |nodes| && Satisfies(nodes[m], preferred[q])
    ensures p < q || (p == q && n <= m)
  {
  }

  /** The inner loop of getNode: it leaves at the first segment that differs, in whatever order
      the map is ranged over. */
  method Filtered(n: Node, segments: map<string, string>) returns (filtered: bool)
    ensures filtered <==> !Satisfies(n, segments)
    ensures filtered <==> exists key :: key in segments &&
                            (if key in n.labels then n.labels[key] != segments[key] else segments[key] != "")
  {
    var left := segments.Keys;
    while left != {}
      invariant left <= segments.Keys
      invariant forall key :: key in segments && key !in left ==> Label(n, key) == segments[key]
      decreases left
    {
      var key :| key in left;
      if Label(n, key) != segments[key] {
        return true;
      }
      left := left - {key};
    }
    return false;
  }

  /** getNode. The list call may fail. */
  method GetNode(preferred: seq<map<string, string>>, list: Option<seq<Node>>) returns (name: Option<string>)
    ensures name.None? <==> list.None?
    ensures name.Some? ==>
              || (name.value == "" && NoMatch(preferred, list.value))
              || (exists p: nat, n: nat :: IsFirstMatch(preferred, list.value, p, n) && name.value == list.value[n].name)
  {
    if list.None? {
      return None;
    }
    var nodes := list.value;
    var p := 0;
    while p < |preferred|
      invariant 0 <= p <= |preferred|
      invariant forall q: nat, m: nat :: q < p && m < |nodes| ==> !Satisfies(nodes[m], preferred[q])
    {
      var n := 0;
      while n < |nodes|
        invariant 0 <= n <= |nodes|
        invariant forall m: nat :: m < n ==> !Satisfies(nodes[m], preferred[p])
      {
        var filtered := Filtered(nodes[n], preferred[p]);
        if !filtered {
          assert IsFirstMatch(preferred, nodes, p, n);
          return Some(nodes[n].name);
        }
        n := n + 1;
      }
      p := p + 1;
    }
    return Some("");
  }

  /** getAccessibilityRequirements: an error unless some node matches, and otherwise the name of
      the first match. With named nodes it fails only for a missing requirement, a failed list
      or no match at all. */
  method GetAccessibilityRequirements(requirement: Option<seq<map<string, string>>>, list: Option<seq<Node>>)
    returns (name: Option<string>)
    ensures name.Some? ==>
              && requirement.Some? && list.Some? && name.value != ""
              && exists p: nat, n: nat ::
                   IsFirstMatch(requirement.value, list.value, p, n) && name.value == list.value[n].name
    ensures list.Some? && (forall n :: n in list.value ==> n.name != "") ==>
              (name.None? <==> requirement.None? || NoMatch(requirement.value, list.value))
  {
    if requirement.None? {
      return None;
    }
    name := GetNode(requirement.value, list);
    if name == Some("") {
      name := None;
    }
  }
}
