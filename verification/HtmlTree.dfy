/** The sanitizer's rewriting in place, on a tree of mutable nodes. */
module HtmlTree {
  import opened HtmlSanitizer

  class HtmlNode {
    const kind: NodeType
    const data: string
    var attr: seq<Attribute>
    var children: seq<HtmlNode>

    /** All nodes that this node may ever own: rewriting only moves and drops nodes, so the
        footprint of a node never grows. */
    ghost const repr: set<HtmlNode>

    ghost predicate Valid()
      reads this, repr
      decreases repr, 0
    {
      this in repr && Separate(children, repr - {this})
    }

    /** The tree below this node as a value. */
    ghost function Tree(): Node
      requires Valid()
      reads this, repr
      decreases repr, 0
    {
      Node(kind, data, attr, Trees(children, repr - {this}))
    }

    constructor (tree: Node, children: seq<HtmlNode>, ghost below: set<HtmlNode>)
      requires Separate(children, below) && Trees(children, below) == tree.children
      ensures fresh(this) && repr == below + {this} && Valid() && Tree() == tree
    {
      kind, data, attr := tree.kind, tree.data, tree.attr;
      this.children := children;
      repr := below + {this};
      new;
      assert repr - {this} == below;
    }

    /** Unlinks the child at position k. */
    method RemoveChild(child: HtmlNode, ghost k: nat)
      requires k < |children| && children[k] == child
      requires forall j :: 0 <= j < k ==> children[j] != child
      modifies this`children
      ensures children == old(children)[..k] + old(children)[k + 1..]
    {
      var i := 0;
      while children[i] != child
        invariant i <= k
        decreases k - i
      {
        i := i + 1;
      }
      children := children[..i] + children[i + 1..];
    }

    /** Links a node in front of the child at position k. */
    method InsertBefore(node: HtmlNode, child: HtmlNode, ghost k: nat)
      requires k < |children| && children[k] == child
      requires forall j :: 0 <= j < k ==> children[j] != child
      modifies this`children
      ensures children == old(children)[..k] + [node] + old(children)[k..]
    {
      var i := 0;
      while children[i] != child
        invariant i <= k
        decreases k - i
      {
        i := i + 1;
      }
      children := children[..i] + [node] + children[i..];
    }

    /** Drops the attributes that may not stay. */
    method SanitizeAttributes()
      modifies this`attr
      ensures attr == SanitizedAttr(data, old(attr))
    {
      if data != "a" {
        attr := [];
        return;
      }
      var kept: seq<Attribute> := [];
      for i := 0 to |attr|
        invariant attr == old(attr)
        invariant kept == KeptLinks(attr[..i])
      {
        assert attr[..i + 1][..i] == attr[..i];
        if !(attr[i].key != "href" || !IsSafeURL(attr[i].val)) {
          kept := kept + [Attribute("", "href", attr[i].val)];
        }
      }
      assert attr[..|attr|] == attr;
      attr := kept;
    }
  }

  /** Well-formed trees inside a set of nodes, no two of which share a node. */
  ghost predicate Separate(nodes: seq<HtmlNode>, space: set<HtmlNode>)
    reads space
    decreases space, 1
  {
    && (forall i :: 0 <= i < |nodes| ==>
          nodes[i] in nodes[i].repr && nodes[i].repr <= space && nodes[i].Valid())
    && (forall i, j :: 0 <= i < j < |nodes| ==> nodes[i].repr !! nodes[j].repr)
  }

  ghost function Trees(nodes: seq<HtmlNode>, space: set<HtmlNode>): (trees: seq<Node>)
    requires Separate(nodes, space)
    reads space
    ensures |trees| == |nodes|
    ensures forall i :: 0 <= i < |nodes| ==> trees[i] == nodes[i].Tree()
    decreases space, 1
  {
    seq(|nodes|, i requires 0 <= i < |nodes| && Separate(nodes, space) reads space => nodes[i].Tree())
  }

  lemma SeparateWeaken(nodes: seq<HtmlNode>, space: set<HtmlNode>, larger: set<HtmlNode>)
    requires Separate(nodes, space) && space <= larger
    ensures Separate(nodes, larger) && Trees(nodes, larger) == Trees(nodes, space)
  {
  }

  lemma SeparateConcat(left: seq<HtmlNode>, leftSpace: set<HtmlNode>,
                       right: seq<HtmlNode>, rightSpace: set<HtmlNode>)
    requires Separate(left, leftSpace) && Separate(right, rightSpace) && leftSpace !! rightSpace
    ensures Separate(left + right, leftSpace + rightSpace)
    ensures Trees(left + right, leftSpace + rightSpace) == Trees(left, leftSpace) + Trees(right, rightSpace)
  {
    var both := left + right;
    forall i, j | 0 <= i < j < |both| ensures both[i].repr !! both[j].repr {
      if i < |left| <= j {
        assert both[i].repr <= leftSpace && both[j].repr <= rightSpace;
      }
    }
  }

  lemma SeparateTail(nodes: seq<HtmlNode>, space: set<HtmlNode>)
    requires Separate(nodes, space) && nodes != []
    ensures Separate(nodes[1..], space - nodes[0].repr)
    ensures Trees(nodes[1..], space - nodes[0].repr) == Trees(nodes, space)[1..]
  {
  }

  lemma SeparateSingle(node: HtmlNode)
    requires node.Valid()
    ensures Separate([node], node.repr) && Trees([node], node.repr) == [node.Tree()]
  {
  }

  // ----- Building a tree -----

  /** A fresh tree of nodes for any tree. */
  method Build(tree: Node) returns (node: HtmlNode)
    ensures node.Valid() && fresh(node.repr) && node.Tree() == tree
    decreases tree, 1
  {
    var children, below := BuildAll(tree.children);
    node := new HtmlNode(tree, children, below);
  }

  method BuildAll(trees: seq<Node>) returns (nodes: seq<HtmlNode>, ghost space: set<HtmlNode>)
    ensures fresh(space) && Separate(nodes, space) && Trees(nodes, space) == trees
    decreases trees, 0
  {
    nodes, space := [], {};
    for i := 0 to |trees|
      invariant fresh(space) && Separate(nodes, space) && Trees(nodes, space) == trees[..i]
    {
      var node := Build(trees[i]);
      SeparateSingle(node);
      SeparateConcat(nodes, space, [node], node.repr);
      nodes, space := nodes + [node], space + node.repr;
      assert trees[..i + 1] == trees[..i] + [trees[i]];
    }
    assert trees[..|trees|] == trees;
  }

  // ----- The rewriting loops -----

  /** The state between two iterations: the children passed so far are the sanitized form of
      the first k trees, and the remaining children are still the other trees. */
  ghost predicate Halfway(done: seq<HtmlNode>, doneSpace: set<HtmlNode>,
                          rest: seq<HtmlNode>, restSpace: set<HtmlNode>, before: seq<Node>, k: nat)
    reads doneSpace, restSpace
  {
    && k <= |before| && |rest| == |before| - k
    && doneSpace !! restSpace
    && Separate(done, doneSpace) && Trees(done, doneSpace) == Sanitize(before[..k])
    && Separate(rest, restSpace) && Trees(rest, restSpace) == before[k..]
  }

  lemma FirstOfRest<T>(done: seq<T>, rest: seq<T>)
    requires rest != []
    ensures (done + rest)[|done|] == rest[0] && done + rest == done + [rest[0]] + rest[1..]
  {
  }

  lemma SplitSpace(doneSpace: set<HtmlNode>, restSpace: set<HtmlNode>, part: set<HtmlNode>)
    requires part <= restSpace
    ensures (doneSpace + part) + (restSpace - part) == doneSpace + restSpace
  {
  }

  /** Taking the next child off the remaining ones. */
  lemma NextChild(done: seq<HtmlNode>, doneSpace: set<HtmlNode>,
                  rest: seq<HtmlNode>, restSpace: set<HtmlNode>, before: seq<Node>, k: nat)
    requires Halfway(done, doneSpace, rest, restSpace, before, k) && rest != []
    ensures rest[0].Valid() && rest[0].repr <= restSpace && rest[0].Tree() == before[k]
    ensures Separate(rest[1..], restSpace - rest[0].repr)
    ensures Trees(rest[1..], restSpace - rest[0].repr) == before[k + 1..]
  {
    SeparateTail(rest, restSpace);
    assert before[k..][0] == before[k] && before[k..][1..] == before[k + 1..];
  }

  /** Adding what the child became to the children passed. */
  lemma ChildDone(done: seq<HtmlNode>, doneSpace: set<HtmlNode>, kept: seq<HtmlNode>, keptSpace: set<HtmlNode>,
                  rest: seq<HtmlNode>, restSpace: set<HtmlNode>, before: seq<Node>, k: nat)
    requires k < |before| && |rest| == |before| - k - 1
    requires doneSpace !! keptSpace && (doneSpace + keptSpace) !! restSpace
    requires Separate(done, doneSpace) && Trees(done, doneSpace) == Sanitize(before[..k])
    requires Separate(kept, keptSpace) && Trees(kept, keptSpace) == SanitizeOne(before[k])
    requires Separate(rest, restSpace) && Trees(rest, restSpace) == before[k + 1..]
    ensures Halfway(done + kept, doneSpace + keptSpace, rest, restSpace, before, k + 1)
  {
    SeparateConcat(done, doneSpace, kept, keptSpace);
    assert before[..k + 1][..k] == before[..k] && before[..k + 1][k] == before[k];
  }

  /** What the loop leaves when no child remains. */
  lemma AllDone(parent: HtmlNode, done: seq<HtmlNode>, doneSpace: set<HtmlNode>,
                rest: seq<HtmlNode>, restSpace: set<HtmlNode>, tree: Node, before: seq<Node>, k: nat)
    requires Halfway(done, doneSpace, rest, restSpace, before, k)
    requires tree == Node(parent.kind, parent.data, parent.attr, before)
    requires parent.children == done + rest && |done| >= |parent.children|
    requires parent in parent.repr && doneSpace + restSpace == parent.repr - {parent}
    ensures parent.Valid()
    ensures parent.Tree() == tree.(children := Sanitize(tree.children))
  {
    assert parent.children == done && before[..k] == before;
    SeparateWeaken(done, doneSpace, parent.repr - {parent});
  }

  /** Sanitizes everything below a node: its tree becomes the one that HtmlSanitizer defines. */
  method SanitizeNode(parent: HtmlNode)
    requires parent.Valid()
    modifies parent.repr
    ensures parent.Valid()
    ensures parent.Tree() == old(parent.Tree()).(children := Sanitize(old(parent.Tree()).children))
    decreases parent.repr, 0
  {
    ghost var space := parent.repr - {parent};
    ghost var before := Trees(parent.children, space);
    ghost var tree := parent.Tree();
    assert tree == Node(parent.kind, parent.data, parent.attr, before);
    ghost var done, doneSpace: set<HtmlNode>, rest, restSpace, k := [], {}, parent.children, space, 0;
    var i := 0;
    while i < |parent.children|
      invariant i == |done| && parent.children == done + rest
      invariant doneSpace + restSpace == space
      invariant Halfway(done, doneSpace, rest, restSpace, before, k)
      invariant parent.attr == old(parent.attr)
      decreases |rest|
    {
      var child, siblingsAfter := parent.children[i], |parent.children| - i - 1;
      FirstOfRest(done, rest);
      NextChild(done, doneSpace, rest, restSpace, before, k);
      SplitSpace(doneSpace, restSpace, child.repr);
      rest, restSpace := rest[1..], restSpace - child.repr;
      assert siblingsAfter == |rest|;
      label call:
      ghost var kept := SanitizeChild(parent, child, done, rest, doneSpace, restSpace);
      assert Separate(done, doneSpace) && Trees(done, doneSpace) == old@call(Trees(done, doneSpace));
      assert Separate(rest, restSpace) && Trees(rest, restSpace) == old@call(Trees(rest, restSpace));
      ChildDone(done, doneSpace, kept, child.repr, rest, restSpace, before, k);
      done, doneSpace, k := done + kept, doneSpace + child.repr, k + 1;
      i := |parent.children| - siblingsAfter;
    }
    AllDone(parent, done, doneSpace, rest, restSpace, tree, before, k);
  }

  /** One iteration: removes, unwraps or keeps one child.  What takes its place among its
      siblings is the sanitized form of its tree, and the siblings are untouched. */
  method SanitizeChild(parent: HtmlNode, child: HtmlNode, ghost done: seq<HtmlNode>, ghost rest: seq<HtmlNode>,
                       ghost doneSpace: set<HtmlNode>, ghost restSpace: set<HtmlNode>)
    returns (ghost kept: seq<HtmlNode>)
    requires child.Valid() && parent !in child.repr + doneSpace + restSpace
    requires parent.children == done + [child] + rest
    requires Separate(done, doneSpace) && doneSpace !! child.repr
    requires Separate(rest, restSpace) && restSpace !! child.repr
    modifies parent`children, child.repr
    ensures parent.children == done + kept + rest
    ensures Separate(kept, child.repr)
    ensures Trees(kept, child.repr) == SanitizeOne(old(child.Tree()))
    decreases child.repr, 1
  {
    ghost var k := |done|;
    assert child !in done && child !in rest;
    if child.kind == ElementNode {
      if child.data in BLOCKED_TAGS {
        parent.RemoveChild(child, k);
        kept := [];
      } else if child.data !in ALLOWED_TAGS {
        SanitizeNode(child);
        kept := child.children;
        ghost var below := child.repr - {child};
        ghost var trees := Trees(kept, below);
        Unwrap(parent, child, done, rest);
        assert Separate(kept, below) && Trees(kept, below) == trees;
        SeparateWeaken(kept, below, child.repr);
      } else {
        child.SanitizeAttributes();
        SanitizeNode(child);
        kept := [child];
        SeparateSingle(child);
      }
    } else {
      SanitizeNode(child);
      kept := [child];
      SeparateSingle(child);
    }
  }

  /** Moves the children of a child in front of it, one by one, and then removes it. */
  method Unwrap(parent: HtmlNode, child: HtmlNode, ghost done: seq<HtmlNode>, ghost rest: seq<HtmlNode>)
    requires parent != child && parent.children == done + [child] + rest
    requires child !in done && child !in child.children
    modifies parent`children, child`children
    ensures parent.children == done + old(child.children) + rest
  {
    ghost var k, nodes, moved := |done|, child.children, 0;
    while child.children != []
      invariant moved <= |nodes| && child.children == nodes[moved..]
      invariant parent.children == done + nodes[..moved] + [child] + rest
      decreases |nodes| - moved
    {
      var grandchild := child.children[0];
      assert nodes[..moved + 1] == nodes[..moved] + [grandchild];
      child.RemoveChild(grandchild, 0);
      ghost var passed := done + nodes[..moved];
      assert parent.children == passed + ([child] + rest);
      assert parent.children[..k + moved] == passed && parent.children[k + moved..] == [child] + rest;
      parent.InsertBefore(grandchild, child, k + moved);
      moved := moved + 1;
    }
    assert nodes[..moved] == nodes && parent.children[k + moved] == child;
    parent.RemoveChild(child, k + moved);
  }

  /** What sanitizeNotificationHTML does between parsing and rendering.  Only the elements listed in
      Decent are left, with no attributes but safe addresses, and all text outside blocked elements. */
  method SanitizeDocument(document: HtmlNode)
    requires document.Valid()
    modifies document.repr
    ensures document.Valid() && document.Tree().data == old(document.Tree()).data
    ensures Decent(document.Tree().children)
    ensures Text(document.Tree().children, {}) ==
              Text(old(document.Tree()).children,
                   {"button", "embed", "form", "iframe", "input", "math", "object", "script", "style", "svg"})
  {
    ghost var before := document.Tree().children;
    SanitizeNode(document);
    SanitizedIsDecent(before);
    SanitizeKeepsText(before);
  }
}
