/** The linked list of claim records of a TorrentData (src/torrent/torrent_data.c). */
module ClaimLists {
  import opened Store

  class ClaimNode {
    const claim: Claim
    var next: ClaimNode?

    constructor (claim: Claim, next: ClaimNode?)
      ensures this.claim == claim && this.next == next
    {
      this.claim, this.next := claim, next;
    }
  }

  ghost function NodeAt(nodes: seq<ClaimNode>, i: nat): ClaimNode? {
    if i < |nodes| then nodes[i] else null
  }

  ghost function ClaimsOf(nodes: seq<ClaimNode>): (claims: seq<Claim>)
    ensures |claims| == |nodes|
    ensures forall i :: 0 <= i < |nodes| ==> claims[i] == nodes[i].claim
  {
    seq(|nodes|, i requires 0 <= i < |nodes| => nodes[i].claim)
  }

  /** The sequence without its element at `i`. */
  function Without<T>(s: seq<T>, i: nat): (r: seq<T>)
    requires i < |s|
  {
    s[..i] + s[i + 1..]
  }

  lemma WithoutParts<T>(s: seq<T>, i: nat)
    requires i < |s|
    ensures var r := Without(s, i);
            |r| == |s| - 1 && r[..i] == s[..i] && r[i..] == s[i + 1..] && forall x :: x in r ==> x in s
  {
  }

  lemma ClaimsWithout(nodes: seq<ClaimNode>, i: nat)
    requires i < |nodes|
    ensures ClaimsOf(Without(nodes, i)) == Without(ClaimsOf(nodes), i)
  {
  }

  class ClaimList {
    var head: ClaimNode?
    ghost var nodes: seq<ClaimNode>

    ghost predicate Valid()
      reads this, nodes
    {
      && head == NodeAt(nodes, 0)
      && (forall i, j :: 0 <= i < j < |nodes| ==> nodes[i] != nodes[j])
      && (forall i {:trigger nodes[i].next} :: 0 <= i < |nodes| ==> nodes[i].next == NodeAt(nodes, i + 1))
    }

    ghost function Contents(): (claims: seq<Claim>)
      reads this
    {
      ClaimsOf(nodes)
    }

    constructor ()
      ensures Valid() && nodes == []
    {
      head, nodes := null, [];
    }

    method First() returns (node: ClaimNode?)
      requires Valid()
      ensures node == NodeAt(nodes, 0)
    {
      node := head;
    }

    method After(node: ClaimNode, ghost i: nat) returns (next: ClaimNode?)
      requires Valid() && i < |nodes| && node == nodes[i]
      ensures next == NodeAt(nodes, i + 1)
    {
      next := node.next;
    }

    /** A new record goes to the front. */
    method Push(claim: Claim)
      requires Valid()
      modifies this
      ensures Valid() && Contents() == [claim] + old(Contents())
      ensures |nodes| == |old(nodes)| + 1 && nodes[1..] == old(nodes) && fresh(nodes[0])
    {
      var node := new ClaimNode(claim, head);
      head := node;
      nodes := [node] + nodes;
      assert forall i :: 1 <= i < |nodes| ==> nodes[i] == old(nodes)[i - 1];
    }

    /** Unlinks the node at position `i`, which follows `prev` or is the head, and returns the one after it. */
    method Unlink(prev: ClaimNode?, current: ClaimNode, ghost i: nat) returns (next: ClaimNode?)
      requires Valid() && i < |nodes| && current == nodes[i]
      requires prev == if i == 0 then null else nodes[i - 1]
      modifies this, if prev == null then {} else {prev}
      ensures Valid() && nodes == Without(old(nodes), i)
      ensures next == NodeAt(nodes, i) && (prev == if i == 0 then null else nodes[i - 1])
    {
      next := current.next;
      assert next == NodeAt(nodes, i + 1);
      if prev == null {
        head := next;
      } else {
        prev.next := next;
      }
      ghost var before := nodes;
      nodes := nodes[..i] + nodes[i + 1..];
      forall j | 0 <= j < |nodes|
        ensures nodes[j].next == NodeAt(nodes, j + 1)
      {
        if j < i {
          assert nodes[j] == before[j];
          assert j + 1 < i ==> nodes[j + 1] == before[j + 1];
        } else {
          assert nodes[j] == before[j + 1] && before[j + 1] != prev;
        }
      }
      assert forall j, k :: 0 <= j < k < |nodes| ==> nodes[j] != nodes[k] by {
        assert forall j :: 0 <= j < |nodes| ==> nodes[j] == before[if j < i then j else j + 1];
      }
    }
  }
}
