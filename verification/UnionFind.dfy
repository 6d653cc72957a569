/**
 The union-find behind the component split: parents in one vector, path halving in `Find`, linking of
 roots without ranks, and the proof that its classes are exactly the blank-node components.
 */
module UnionFind {
  import opened Sequences
  import opened Terms
  import opened Isomorphism
  import opened Components

  class Forest {
    var parent: seq<nat>
    /** Where each element's chain of parents ends. */
    ghost var root: seq<nat>
    /** A measure that drops along every parent link: why chains end. */
    ghost var height: seq<nat>

    ghost predicate Valid()
      reads this
    {
      && |root| == |height| == |parent|
      && forall x :: 0 <= x < |parent| ==>
           && parent[x] < |parent|
           && root[x] < |parent|
           && parent[root[x]] == root[x]
           && root[root[x]] == root[x]
           && (if parent[x] == x then root[x] == x
               else root[x] == root[parent[x]] && height[parent[x]] < height[x])
    }

    constructor ()
      ensures Valid() && parent == [] && root == []
    {
      parent := [];
      root := [];
      height := [];
    }

    /** A new element, alone in its class. */
    method Push() returns (x: nat)
      requires Valid()
      modifies this
      ensures Valid() && x == |old(parent)| && |parent| == x + 1 && root == old(root) + [x]
    {
      x := |parent|;
      parent := parent + [x];
      root := root + [x];
      height := height + [0];
    }

    /** The representative of x, halving the path to it. Classes stay as they are. */
    method Find(x0: nat) returns (x: nat)
      requires Valid() && x0 < |parent|
      modifies this
      ensures Valid() && |parent| == |old(parent)| && root == old(root)
      ensures x == root[x0]
    {
      x := x0;
      while parent[x] != x
        invariant Valid() && |parent| == |old(parent)| && root == old(root)
        invariant x < |parent| && root[x] == root[x0]
        decreases height[x]
      {
        ghost var h := height[x];
        parent := parent[x := parent[parent[x]]];
        x := parent[x];
      }
    }

    /** Link the class of a below the class of b. */
    method Union(a: nat, b: nat)
      requires Valid() && a < |parent| && b < |parent|
      modifies this
      ensures Valid() && |parent| == |old(parent)| && |root| == |old(root)|
      ensures forall x :: 0 <= x < |root| ==>
        root[x] == if old(root)[x] == old(root)[a] then old(root)[b] else old(root)[x]
    {
      var ra := Find(a);
      var rb := Find(b);
      if ra != rb {
        ghost var r, h := root, height;
        height := seq(|h|, x requires 0 <= x < |h| => if r[x] == ra then h[x] + h[rb] + 1 else h[x]);
        root := seq(|r|, x requires 0 <= x < |r| => if r[x] == ra then rb else r[x]);
        parent := parent[ra := rb];
      }
    }
  }

  // ----- classes of blank nodes -----

  /** Numbered blank nodes and the classes the forest puts them in. */
  datatype Numbering = Numbering(index: map<string, nat>, names: seq<string>, root: seq<nat>)

  /** Every blank node seen so far has its own number. */
  ghost predicate Numbers(n: Numbering, nodes: set<string>) {
    && |n.names| == |n.root|
    && n.index.Keys == nodes
    && (forall b :: b in n.index ==> n.index[b] < |n.names| && n.names[n.index[b]] == b)
    && (forall k :: 0 <= k < |n.names| ==> n.names[k] in n.index && n.index[n.names[k]] == k)
    && (forall k :: 0 <= k < |n.root| ==> n.root[k] < |n.root| && n.root[n.root[k]] == n.root[k])
  }

  ghost predicate SameClass(n: Numbering, b: string, c: string) {
    b in n.index && c in n.index && n.index[b] < |n.root| && n.index[c] < |n.root|
    && n.root[n.index[b]] == n.root[n.index[c]]
  }

  /** Triples stay within classes. */
  ghost predicate Joined(n: Numbering, ts: seq<Triple>) {
    forall t, b, c :: t in ts && b in TripleBNodes(t) && c in TripleBNodes(t) ==> SameClass(n, b, c)
  }

  /** Members of one class cannot be separated by a set that no triple leaves. */
  ghost predicate Inseparable(n: Numbering, ts: seq<Triple>) {
    forall s, b, c :: Closed(ts, s) && SameClass(n, b, c) && b in s ==> c in s
  }

  ghost predicate Tracks(n: Numbering, ts: seq<Triple>, nodes: set<string>) {
    Numbers(n, nodes) && Joined(n, ts) && Inseparable(n, ts)
  }

  function WithName(n: Numbering, b: string): Numbering
    requires b !in n.index
  {
    Numbering(n.index[b := |n.names|], n.names + [b], n.root + [|n.root|])
  }

  lemma NewName(n: Numbering, ts: seq<Triple>, nodes: set<string>, b: string)
    requires Tracks(n, ts, nodes) && b !in nodes
    ensures Tracks(WithName(n, b), ts, nodes + {b})
  {
    hide TripleBNodes, Closed;
    var n' := WithName(n, b);
    assert Numbers(n', nodes + {b});
    forall c, d | SameClass(n, c, d) ensures SameClass(n', c, d) {
    }
    forall c, d | SameClass(n', c, d) ensures c == d || SameClass(n, c, d) {
    }
  }

  /** The class of a is linked below the class of b. */
  ghost predicate Links(n: Numbering, n': Numbering, a: nat, b: nat) {
    && n'.index == n.index && n'.names == n.names && |n'.root| == |n.root|
    && a < |n.root| && b < |n.root|
    && forall x :: 0 <= x < |n.root| ==> n'.root[x] == if n.root[x] == n.root[a] then n.root[b] else n.root[x]
  }

  lemma ClosedPrefix(ts: seq<Triple>, t: Triple, s: set<string>)
    requires Closed(ts + [t], s)
    ensures Closed(ts, s)
    ensures TripleBNodes(t) <= s || TripleBNodes(t) !! s
  {
    hide TripleBNodes;
    assert forall u :: u in ts ==> u in ts + [t];
    assert t in ts + [t];
  }

  /** Linking the classes of the two ends of a triple accounts for that triple. */
  lemma TripleLinked(n: Numbering, n': Numbering, ts: seq<Triple>, t: Triple, nodes: set<string>, x: string, y: string)
    requires Tracks(n, ts, nodes) && TripleBNodes(t) == {x, y} && x in nodes && y in nodes
    requires Links(n, n', n.index[x], n.index[y])
    ensures Tracks(n', ts + [t], nodes)
  {
    hide TripleBNodes, Closed;
    assert SameClass(n', x, y);
    forall b, c | SameClass(n, b, c) ensures SameClass(n', b, c) {
    }
    forall u, b, c | u in ts + [t] && b in TripleBNodes(u) && c in TripleBNodes(u) ensures SameClass(n', b, c) {
      if u in ts { assert SameClass(n, b, c); }
    }
    forall s, b, c | Closed(ts + [t], s) && SameClass(n', b, c) && b in s ensures c in s {
      ClosedPrefix(ts, t, s);
      assert x in s <==> y in s by { assert x in TripleBNodes(t) && y in TripleBNodes(t); }
      assert SameClass(n, b, c) || (SameClass(n, b, x) && SameClass(n, y, c)) || (SameClass(n, b, y) && SameClass(n, x, c));
    }
  }

  /** A triple with one blank node links nothing. */
  lemma TripleAlone(n: Numbering, ts: seq<Triple>, t: Triple, nodes: set<string>, x: string)
    requires Tracks(n, ts, nodes) && TripleBNodes(t) == {x} && x in nodes
    ensures Tracks(n, ts + [t], nodes)
  {
    hide TripleBNodes, Closed;
    assert SameClass(n, x, x);
    forall u, b, c | u in ts + [t] && b in TripleBNodes(u) && c in TripleBNodes(u) ensures SameClass(n, b, c) {
      if u in ts { assert SameClass(n, b, c); }
    }
    forall s, b, c | Closed(ts + [t], s) && SameClass(n, b, c) && b in s ensures c in s {
      ClosedPrefix(ts, t, s);
    }
  }

  /** The members of the class with representative r. */
  ghost function Members(n: Numbering, r: nat): set<string> {
    set k | 0 <= k < |n.root| && k < |n.names| && n.root[k] == r :: n.names[k]
  }

  /** A class is a component. */
  lemma ClassIsComponent(n: Numbering, ts: seq<Triple>, r: nat)
    requires Tracks(n, ts, BNodes(ts)) && r < |n.root| && n.root[r] == r
    ensures Component(ts, Members(n, r))
  {
    hide TripleBNodes, BNodes;
    var s := Members(n, r);
    assert n.names[r] in s;
    forall b, c | SameClass(n, b, c) && b in s ensures c in s {
    }
    forall t | t in ts ensures TripleBNodes(t) <= s || TripleBNodes(t) !! s {
      forall b, c | b in TripleBNodes(t) && c in TripleBNodes(t) && b in s ensures c in s {
        assert SameClass(n, b, c);
      }
    }
    forall q | q != {} && q <= s && Closed(ts, q) ensures q == s {
      var b :| b in q;
      forall c | c in s ensures c in q {
        assert SameClass(n, b, c);
      }
    }
  }
}
