/** The tree inside a nested page: nodes in preorder and one flat buffer list, which
    the child and buffer counts alone must be enough to take apart again. */
module PageTree {
  import opened Machine
  import opened Scalars

  datatype PhysicalKind = ScalarPhysical(kind: Kind) | ListPhysical | StructPhysical | MapPhysical

  /** `CoveEncodingKind`; only the first four are written for scalar nodes. */
  datatype Encoding = FileCodeRows | NumCodeRows | PlainFixedRows | VarByteRowsEncoding | OtherEncoding(code: nat)

  datatype BufferKind = NullBitmapBuffer | ValuesBuffer | ChildLayoutBuffer

  datatype Buffer = Buffer(kind: BufferKind, bytes: seq<byte>)

  /** `CoveEncodingNodeV1`, without its constant fields. */
  datatype Node = Node(id: nat, encoding: Encoding, physical: PhysicalKind, logicalLen: nat,
                       childCount: nat, bufferCount: nat)

  datatype Tree = Tree(node: Node, buffers: seq<Buffer>, children: seq<Tree>)

  function Preorder(t: Tree): (r: seq<Node>)
    ensures r != []
    decreases t
  {
    [t.node] + PreorderAll(t.children)
  }

  function PreorderAll(ts: seq<Tree>): seq<Node>
    decreases ts
  {
    if ts == [] then [] else Preorder(ts[0]) + PreorderAll(ts[1..])
  }

  function BufferOrder(t: Tree): seq<Buffer>
    decreases t
  {
    t.buffers + BufferOrderAll(t.children)
  }

  function BufferOrderAll(ts: seq<Tree>): seq<Buffer>
    decreases ts
  {
    if ts == [] then [] else BufferOrder(ts[0]) + BufferOrderAll(ts[1..])
  }

  /** Every node's counts are those of its own children and buffers. */
  ghost predicate CountsOk(t: Tree) {
    && t.node.childCount == |t.children| && t.node.bufferCount == |t.buffers|
    && forall i :: 0 <= i < |t.children| ==> CountsOk(t.children[i])
  }

  /** `parse_payload_subtree`: the tree at the front, and what is left over. */
  function Subtree(nodes: seq<Node>, buffers: seq<Buffer>): (r: Result<(Tree, seq<Node>, seq<Buffer>)>)
    ensures r.Ok? ==> |r.value.1| < |nodes|
    decreases |nodes|, 0
  {
    if nodes == [] || nodes[0].bufferCount > |buffers| then Err(PageCorrupt)
    else
      match Subtrees(nodes[1..], buffers[nodes[0].bufferCount..], nodes[0].childCount)
      case Err(e) => Err(e)
      case Ok((children, n, b)) => Ok((Tree(nodes[0], buffers[..nodes[0].bufferCount], children), n, b))
  }

  function Subtrees(nodes: seq<Node>, buffers: seq<Buffer>, count: nat)
    : (r: Result<(seq<Tree>, seq<Node>, seq<Buffer>)>)
    ensures r.Ok? ==> |r.value.1| <= |nodes| && |r.value.0| == count
    decreases |nodes|, count + 1
  {
    if count == 0 then Ok(([], nodes, buffers))
    else
      match Subtree(nodes, buffers)
      case Err(e) => Err(e)
      case Ok((first, n, b)) =>
        match Subtrees(n, b, count - 1)
        case Err(e) => Err(e)
        case Ok((more, n1, b1)) => Ok(([first] + more, n1, b1))
  }

  /** `payload_tree`: the whole lists must be one tree. */
  function PayloadTree(nodes: seq<Node>, buffers: seq<Buffer>, rootId: nat): Result<Tree> {
    if nodes == [] || nodes[0].id != rootId then Err(PageCorrupt)
    else
      match Subtree(nodes, buffers)
      case Err(e) => Err(e)
      case Ok((t, n, b)) => if n != [] || b != [] then Err(PageCorrupt) else Ok(t)
  }

  // ---- preorder lists decode from their counts alone ----

  lemma {:induction false} SubtreeOfPreorder(t: Tree, nodes: seq<Node>, buffers: seq<Buffer>)
    requires CountsOk(t)
    ensures Subtree(Preorder(t) + nodes, BufferOrder(t) + buffers) == Ok((t, nodes, buffers))
    decreases t
  {
    var allNodes, allBuffers := Preorder(t) + nodes, BufferOrder(t) + buffers;
    var n := |t.buffers|;
    SubtreesOfPreorder(t.children, nodes, buffers);
    assert allNodes[0] == t.node && allNodes[1..] == PreorderAll(t.children) + nodes;
    assert allBuffers[..n] == t.buffers && allBuffers[n..] == BufferOrderAll(t.children) + buffers;
  }

  lemma {:induction false} SubtreesOfPreorder(ts: seq<Tree>, nodes: seq<Node>, buffers: seq<Buffer>)
    requires forall i :: 0 <= i < |ts| ==> CountsOk(ts[i])
    ensures Subtrees(PreorderAll(ts) + nodes, BufferOrderAll(ts) + buffers, |ts|) == Ok((ts, nodes, buffers))
    decreases ts
  {
    if ts == [] {
      assert PreorderAll(ts) + nodes == nodes && BufferOrderAll(ts) + buffers == buffers;
    } else {
      var moreNodes, moreBuffers := PreorderAll(ts[1..]) + nodes, BufferOrderAll(ts[1..]) + buffers;
      SubtreeOfPreorder(ts[0], moreNodes, moreBuffers);
      SubtreesOfPreorder(ts[1..], nodes, buffers);
      assert PreorderAll(ts) == Preorder(ts[0]) + PreorderAll(ts[1..]);
      assert BufferOrderAll(ts) == BufferOrder(ts[0]) + BufferOrderAll(ts[1..]);
      hide Preorder, PreorderAll, BufferOrder, BufferOrderAll;
      Reassociate(Preorder(ts[0]), PreorderAll(ts[1..]), nodes);
      Reassociate(BufferOrder(ts[0]), BufferOrderAll(ts[1..]), buffers);
      SubtreesStep(PreorderAll(ts) + nodes, BufferOrderAll(ts) + buffers, ts, moreNodes, moreBuffers);
    }
  }

  lemma Reassociate<T>(a: seq<T>, b: seq<T>, c: seq<T>)
    ensures (a + b) + c == a + (b + c)
  {
  }

  lemma SubtreesStep(nodes: seq<Node>, buffers: seq<Buffer>, ts: seq<Tree>, moreNodes: seq<Node>,
                     moreBuffers: seq<Buffer>)
    requires ts != [] && Subtree(nodes, buffers) == Ok((ts[0], moreNodes, moreBuffers))
    ensures Subtrees(nodes, buffers, |ts|)
            == Prefixed([ts[0]], Subtrees(moreNodes, moreBuffers, |ts| - 1))
    ensures [ts[0]] + ts[1..] == ts
  {
  }

  /** What the parser accepts is the preorder of a tree with honest counts. */
  lemma {:induction false} SubtreeSound(nodes: seq<Node>, buffers: seq<Buffer>)
    requires Subtree(nodes, buffers).Ok?
    ensures var (t, n, b) := Subtree(nodes, buffers).value;
            CountsOk(t) && Preorder(t) + n == nodes && BufferOrder(t) + b == buffers
    decreases |nodes|, 0
  {
    var count := nodes[0].bufferCount;
    SubtreesSound(nodes[1..], buffers[count..], nodes[0].childCount);
    var (t, n, b) := Subtree(nodes, buffers).value;
    assert Preorder(t) + n == [t.node] + (PreorderAll(t.children) + n);
    assert BufferOrder(t) + b == t.buffers + (BufferOrderAll(t.children) + b);
  }

  lemma {:induction false} SubtreesSound(nodes: seq<Node>, buffers: seq<Buffer>, count: nat)
    requires Subtrees(nodes, buffers, count).Ok?
    ensures var (ts, n, b) := Subtrees(nodes, buffers, count).value;
            && (forall i :: 0 <= i < |ts| ==> CountsOk(ts[i]))
            && PreorderAll(ts) + n == nodes && BufferOrderAll(ts) + b == buffers
    decreases |nodes|, count + 1
  {
    var (ts, n, b) := Subtrees(nodes, buffers, count).value;
    if count == 0 {
      assert PreorderAll(ts) + n == nodes && BufferOrderAll(ts) + b == buffers;
    } else {
      var (first, n1, b1) := Subtree(nodes, buffers).value;
      SubtreeSound(nodes, buffers);
      SubtreesSound(n1, b1, count - 1);
      assert ts[0] == first && ts[1..] == Subtrees(n1, b1, count - 1).value.0;
      assert PreorderAll(ts) + n == Preorder(first) + (PreorderAll(ts[1..]) + n);
      assert BufferOrderAll(ts) + b == BufferOrder(first) + (BufferOrderAll(ts[1..]) + b);
    }
  }

  /** The lists parse as `t` exactly when they are its preorder. */
  lemma PayloadTreeExact(nodes: seq<Node>, buffers: seq<Buffer>, rootId: nat, t: Tree)
    ensures PayloadTree(nodes, buffers, rootId) == Ok(t) <==>
            CountsOk(t) && t.node.id == rootId && nodes == Preorder(t) && buffers == BufferOrder(t)
  {
    if PayloadTree(nodes, buffers, rootId) == Ok(t) {
      SubtreeSound(nodes, buffers);
      assert Preorder(t) + [] == Preorder(t) && BufferOrder(t) + [] == BufferOrder(t);
    }
    if CountsOk(t) && nodes == Preorder(t) && buffers == BufferOrder(t) {
      SubtreeOfPreorder(t, [], []);
      assert Preorder(t) + [] == Preorder(t) && BufferOrder(t) + [] == BufferOrder(t);
    }
  }

  /** Two cursors advance over the lists. */
  method ParseSubtree(nodes: seq<Node>, buffers: seq<Buffer>, nodePos: nat, bufferPos: nat)
    returns (r: Result<Tree>, nodeEnd: nat, bufferEnd: nat)
    requires nodePos <= |nodes| && bufferPos <= |buffers|
    ensures r.Ok? ==> nodePos < nodeEnd <= |nodes| && bufferPos <= bufferEnd <= |buffers|
    ensures Subtree(nodes[nodePos..], buffers[bufferPos..])
            == match r case Err(e) => Err(e)
                       case Ok(t) => Ok((t, nodes[nodeEnd..], buffers[bufferEnd..]))
    decreases |nodes| - nodePos
  {
    nodeEnd, bufferEnd := nodePos, bufferPos;
    if nodePos >= |nodes| { return Err(PageCorrupt), nodeEnd, bufferEnd; }
    var node := nodes[nodePos];
    nodeEnd := nodePos + 1;
    if bufferPos + node.bufferCount > |buffers| { return Err(PageCorrupt), nodeEnd, bufferEnd; }
    bufferEnd := bufferPos + node.bufferCount;
    var owned := buffers[bufferPos..bufferEnd];
    ghost var kids := Subtrees(nodes[nodeEnd..], buffers[bufferEnd..], node.childCount);
    assert nodes[nodePos..][1..] == nodes[nodeEnd..];
    assert buffers[bufferPos..][node.bufferCount..] == buffers[bufferEnd..];
    assert buffers[bufferPos..][..node.bufferCount] == owned;
    var children: seq<Tree> := [];
    assert kids.Ok? ==> [] + kids.value.0 == kids.value.0;
    for i := 0 to node.childCount
      invariant nodePos < nodeEnd <= |nodes| && bufferPos <= bufferEnd <= |buffers|
      invariant kids == Prefixed(children, Subtrees(nodes[nodeEnd..], buffers[bufferEnd..], node.childCount - i))
    {
      var child, n, b := ParseSubtree(nodes, buffers, nodeEnd, bufferEnd);
      if child.Err? { return child, n, b; }
      PrefixMore(children, child.value, Subtrees(nodes[n..], buffers[b..], node.childCount - i - 1));
      children := children + [child.value];
      nodeEnd, bufferEnd := n, b;
    }
    assert children + [] == children;
    return Ok(Tree(node, owned, children)), nodeEnd, bufferEnd;
  }

  function Prefixed(done: seq<Tree>, rest: Result<(seq<Tree>, seq<Node>, seq<Buffer>)>)
    : Result<(seq<Tree>, seq<Node>, seq<Buffer>)>
  {
    match rest
    case Err(e) => Err(e)
    case Ok((ts, n, b)) => Ok((done + ts, n, b))
  }

  lemma PrefixMore(done: seq<Tree>, t: Tree, rest: Result<(seq<Tree>, seq<Node>, seq<Buffer>)>)
    ensures Prefixed(done, Prefixed([t], rest)) == Prefixed(done + [t], rest)
  {
    if rest.Ok? { assert done + ([t] + rest.value.0) == (done + [t]) + rest.value.0; }
  }
}
