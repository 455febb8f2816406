/** Writing a row range of a nested column as a page tree: node by node in preorder,
    each node's buffers beside it. */
module PageEmit {
  import opened Machine
  import opened Bits
  import opened LittleEndian
  import opened Validity
  import opened Scalars
  import opened Nested
  import opened Layouts
  import opened PageTree

  function PhysicalOf(c: Column): PhysicalKind {
    match c
    case ScalarCol(_, vals) => ScalarPhysical(KindOf(vals))
    case ListCol(_, _, _, _) => ListPhysical
    case StructCol(_, _) => StructPhysical
    case MapCol(_, _, _, _, _) => MapPhysical
  }

  /** `materialized_page_encoding`: there is none for containers. */
  function MaterializedEncoding(p: PhysicalKind): Result<Encoding> {
    match p
    case ScalarPhysical(FileCodeKind) => Ok(FileCodeRows)
    case ScalarPhysical(NumCodeKind) => Ok(NumCodeRows)
    case ScalarPhysical(BooleanKind) => Ok(PlainFixedRows)
    case ScalarPhysical(FixedBytesKind(_)) => Ok(PlainFixedRows)
    case ScalarPhysical(VarBytesKind) => Ok(VarByteRowsEncoding)
    case _ => Err(BadSchema)
  }

  /** The columns one level down, in the order they are written. */
  function Kids(c: Column): (r: seq<Column>)
    ensures forall i :: 0 <= i < |r| ==> r[i] < c
  {
    match c
    case ScalarCol(_, _) => []
    case ListCol(_, _, _, child) => [child]
    case StructCol(_, fields) => fields
    case MapCol(_, _, keys, values, _) => [keys, values]
  }

  /** Which rows of the kids a row range of the column covers (`slice_offsets`). */
  function KidStart(c: Column, start: nat): nat
    requires WellFormed(c) && start <= Rows(c)
  {
    match c
    case ListCol(_, _, offsets, _) => offsets[start]
    case MapCol(_, offsets, _, _, _) => offsets[start]
    case _ => start
  }

  function KidLen(c: Column, start: nat, len: nat): (n: nat)
    requires WellFormed(c) && start + len <= Rows(c)
    ensures forall i :: 0 <= i < |Kids(c)| ==>
      WellFormed(Kids(c)[i]) && KidStart(c, start) + n <= Rows(Kids(c)[i])
    ensures c.ListCol? || c.MapCol? ==> n <= U32_MAX
  {
    KidStart(c, start + len) - KidStart(c, start)
  }

  /** `slice_offsets`: the offsets of a row range, counted from its first. */
  function SlicedOffsets(offsets: seq<nat>, n: nat, childRows: nat, start: nat, len: nat): (r: seq<u32>)
    requires OffsetsOk(offsets, n, childRows) && start + len <= n
    ensures |r| == len + 1 && forall i :: 0 <= i <= len ==> r[i] == offsets[start + i] - offsets[start]
  {
    SlicedRange(offsets, n, childRows);
    seq(len + 1, i requires 0 <= i < len + 1 => SlicedOffset(offsets, start, i))
  }

  function SlicedOffset(offsets: seq<nat>, start: nat, i: nat): (r: u32)
    requires start + i < |offsets| && offsets[start] <= offsets[start + i] <= U32_MAX
    ensures r == offsets[start + i] - offsets[start]
  {
    offsets[start + i] - offsets[start]
  }

  lemma SlicedRange(offsets: seq<nat>, n: nat, childRows: nat)
    requires OffsetsOk(offsets, n, childRows)
    ensures forall i :: 0 <= i <= n ==> offsets[i] <= childRows <= U32_MAX
  {
  }

  /** The buffer that says what a node holds: its values, or its children's layout. */
  function MainBuffer(c: Column, start: nat, len: nat): Result<Buffer>
    requires WellFormed(c) && start + len <= Rows(c)
  {
    match c
    case ScalarCol(_, vals) =>
      (match Encoded(vals, start, len)
       case Err(e) => Err(e)
       case Ok(bytes) => Ok(Buffer(ValuesBuffer, bytes)))
    case ListCol(_, _, offsets, child) =>
      var kidLen := KidLen(c, start, len);
      Ok(Buffer(ChildLayoutBuffer,
                EncodeList(ListLayout(SlicedOffsets(offsets, Rows(c), Rows(child), start, len), kidLen))))
    case StructCol(_, fields) =>
      if len > U64_MAX then Err(ArithOverflow)
      else Ok(Buffer(ChildLayoutBuffer, EncodeStruct(StructLayout(seq(|fields|, _ => len), true))))
    case MapCol(_, offsets, keys, _, canonical) =>
      var from, kidLen := KidStart(c, start), KidLen(c, start, len);
      Ok(Buffer(ChildLayoutBuffer,
                EncodeMap(MapLayout(SlicedOffsets(offsets, Rows(c), Rows(keys), start, len), kidLen, kidLen,
                                    true, false, canonical[from..from + kidLen]))))
  }

  predicate AnyNull(nulls: seq<bool>) {
    exists i :: 0 <= i < |nulls| && nulls[i]
  }

  /** The null bitmap is written only when some row is null. */
  function NullBuffers(nulls: seq<bool>): seq<Buffer> {
    if AnyNull(nulls) then [Buffer(NullBitmapBuffer, PackBits(nulls))] else []
  }

  function OwnBuffers(c: Column, start: nat, len: nat): (r: Result<seq<Buffer>>)
    requires WellFormed(c) && start + len <= Rows(c)
    ensures r.Ok? ==> |r.value| == if AnyNull(c.nulls[start..start + len]) then 2 else 1
  {
    match MainBuffer(c, start, len)
    case Err(e) => Err(e)
    case Ok(main) => Ok(NullBuffers(c.nulls[start..start + len]) + [main])
  }

  /** The tree written for rows `start` to `start + len`; node ids count up from `firstId`. */
  function TreeOf(c: Column, start: nat, len: nat, encoding: Encoding, firstId: nat): (r: Result<Tree>)
    requires WellFormed(c) && start + len <= Rows(c)
    ensures r.Ok? ==> CountsOk(r.value) && r.value.node.id == firstId
    decreases c, |Kids(c)| + 1
  {
    if firstId > U16_MAX then Err(ArithOverflow)
    else
      match OwnBuffers(c, start, len)
      case Err(e) => Err(e)
      case Ok(own) =>
        if len > U32_MAX || |Kids(c)| > U16_MAX then Err(ArithOverflow)
        else
          match TreesOf(c, 0, start, len, firstId + 1)
          case Err(e) => Err(e)
          case Ok(kids) =>
            Ok(Tree(Node(firstId, encoding, PhysicalOf(c), len, |kids|, |own|), own, kids))
  }

  /** The trees of the kids from the k-th on. */
  function TreesOf(c: Column, k: nat, start: nat, len: nat, firstId: nat): (r: Result<seq<Tree>>)
    requires WellFormed(c) && start + len <= Rows(c) && k <= |Kids(c)|
    ensures r.Ok? ==> |r.value| == |Kids(c)| - k && forall i :: 0 <= i < |r.value| ==> CountsOk(r.value[i])
    decreases c, |Kids(c)| - k
  {
    if k == |Kids(c)| then Ok([])
    else
      var kid, from, n := Kids(c)[k], KidStart(c, start), KidLen(c, start, len);
      match MaterializedEncoding(PhysicalOf(kid))
      case Err(e) => Err(e)
      case Ok(encoding) =>
        match TreeOf(kid, from, n, encoding, firstId)
        case Err(e) => Err(e)
        case Ok(first) =>
          match TreesOf(c, k + 1, start, len, firstId + |Preorder(first)|)
          case Err(e) => Err(e)
          case Ok(more) => Ok([first] + more)
  }

  /** The growing node and buffer lists of one page. */
  class PageWriter {
    var nodes: seq<Node>
    var buffers: seq<Buffer>

    constructor ()
      ensures nodes == [] && buffers == []
    {
      nodes, buffers := [], [];
    }

    /** `push_page_node`: appends the preorder of the range's tree, or fails as its
        construction fails. */
    method PushPageNode(c: Column, start: nat, len: nat, encoding: Encoding) returns (r: Result<()>)
      requires WellFormed(c) && start + len <= Rows(c)
      modifies this
      ensures match TreeOf(c, start, len, encoding, old(|nodes|))
              case Err(e) => r == Err(e)
              case Ok(t) =>
                && r.Ok? && nodes == old(nodes) + Preorder(t) && buffers == old(buffers) + BufferOrder(t)
      decreases c
    {
      var nodeId := |nodes|;
      if nodeId > U16_MAX { return Err(ArithOverflow); }
      var own :- OwnBuffers(c, start, len);
      if len > U32_MAX || |Kids(c)| > U16_MAX { return Err(ArithOverflow); }
      nodes := nodes + [Node(nodeId, encoding, PhysicalOf(c), len, |Kids(c)|, |own|)];
      buffers := buffers + own;
      ghost var done: seq<Tree> := [];
      WritingStarts(c, start, len, nodes, buffers);
      ghost var nodes0, buffers0 := nodes, buffers;
      assert OwnBuffers(c, start, len) == Ok(own);
      hide *;
      for k := 0 to |Kids(c)|
        invariant Writing(c, k, start, len, nodes0, buffers0, nodes, buffers, done)
      {
        KidInRange(c, k, start, len);
        var kid := Kids(c)[k];
        KidFails(c, k, start, len, encoding, own, nodes0, buffers0, nodes, buffers, done);
        var kidEncoding :- MaterializedEncoding(PhysicalOf(kid));
        ghost var t := TreeOf(kid, KidStart(c, start), KidLen(c, start, len), kidEncoding, |nodes|);
        ghost var nodes1, buffers1 := nodes, buffers;
        r := PushPageNode(kid, KidStart(c, start), KidLen(c, start, len), kidEncoding);
        if r.Err? { return r; }
        KidAppended(c, k, start, len, nodes0, buffers0, nodes1, buffers1, done, t.value, nodes, buffers);
        done := done + [t.value];
      }
      WritingStops(c, start, len, encoding, own, old(nodes), old(buffers), nodes0, buffers0, nodes, buffers, done);
      return Ok(());
    }
  }

  /** Kids before the k-th are written: their trees are `done`, and their preorder
      follows the node's own entry. */
  ghost predicate Writing(c: Column, k: nat, start: nat, len: nat, nodes0: seq<Node>, buffers0: seq<Buffer>,
                          nodes: seq<Node>, buffers: seq<Buffer>, done: seq<Tree>)
    requires WellFormed(c) && start + len <= Rows(c) && k <= |Kids(c)|
  {
    && TreesOf(c, 0, start, len, |nodes0|) == Trees(done, TreesOf(c, k, start, len, |nodes|))
    && nodes == nodes0 + PreorderAll(done) && buffers == buffers0 + BufferOrderAll(done)
  }

  lemma WritingStarts(c: Column, start: nat, len: nat, nodes: seq<Node>, buffers: seq<Buffer>)
    requires WellFormed(c) && start + len <= Rows(c)
    ensures Writing(c, 0, start, len, nodes, buffers, nodes, buffers, [])
  {
    TreesNone(TreesOf(c, 0, start, len, |nodes|));
    assert nodes + [] == nodes && buffers + [] == buffers;
  }

  lemma KidFails(c: Column, k: nat, start: nat, len: nat, encoding: Encoding, own: seq<Buffer>,
                 nodes0: seq<Node>, buffers0: seq<Buffer>, nodes: seq<Node>, buffers: seq<Buffer>, done: seq<Tree>)
    requires WellFormed(c) && start + len <= Rows(c) && k < |Kids(c)|
    requires Writing(c, k, start, len, nodes0, buffers0, nodes, buffers, done)
    requires nodes0 != [] && |nodes0| - 1 <= U16_MAX && len <= U32_MAX && |Kids(c)| <= U16_MAX
    requires OwnBuffers(c, start, len) == Ok(own)
    ensures WellFormed(Kids(c)[k]) && KidStart(c, start) + KidLen(c, start, len) <= Rows(Kids(c)[k])
    ensures var e := MaterializedEncoding(PhysicalOf(Kids(c)[k]));
            && (e.Err? ==> TreeOf(c, start, len, encoding, |nodes0| - 1) == Err(e.error))
            && (e.Ok? ==>
                  var t := TreeOf(Kids(c)[k], KidStart(c, start), KidLen(c, start, len), e.value, |nodes|);
                  t.Err? ==> TreeOf(c, start, len, encoding, |nodes0| - 1) == Err(t.error))
  {
    KidRefused(c, k, start, len, encoding, own, |nodes0| - 1, |nodes|, done);
  }

  lemma KidAppended(c: Column, k: nat, start: nat, len: nat, nodes0: seq<Node>, buffers0: seq<Buffer>,
                    nodes: seq<Node>, buffers: seq<Buffer>, done: seq<Tree>, t: Tree,
                    nodes1: seq<Node>, buffers1: seq<Buffer>)
    requires WellFormed(c) && start + len <= Rows(c) && k < |Kids(c)|
    requires Writing(c, k, start, len, nodes0, buffers0, nodes, buffers, done)
    requires MaterializedEncoding(PhysicalOf(Kids(c)[k])).Ok?
    requires WellFormed(Kids(c)[k]) && KidStart(c, start) + KidLen(c, start, len) <= Rows(Kids(c)[k])
    requires Ok(t) == TreeOf(Kids(c)[k], KidStart(c, start), KidLen(c, start, len),
                             MaterializedEncoding(PhysicalOf(Kids(c)[k])).value, |nodes|)
    requires nodes1 == nodes + Preorder(t) && buffers1 == buffers + BufferOrder(t)
    ensures Writing(c, k + 1, start, len, nodes0, buffers0, nodes1, buffers1, done + [t])
  {
    hide *;
    WritingIs(c, k, start, len, nodes0, buffers0, nodes, buffers, done);
    WritingIs(c, k + 1, start, len, nodes0, buffers0, nodes1, buffers1, done + [t]);
    KidWritten(c, k, start, len, |nodes0|, |nodes|, done, t);
    ListsGrow(nodes0, buffers0, done, t);
  }

  lemma WritingIs(c: Column, k: nat, start: nat, len: nat, nodes0: seq<Node>, buffers0: seq<Buffer>,
                  nodes: seq<Node>, buffers: seq<Buffer>, done: seq<Tree>)
    requires WellFormed(c) && start + len <= Rows(c) && k <= |Kids(c)|
    ensures Writing(c, k, start, len, nodes0, buffers0, nodes, buffers, done)
            <==> TreesOf(c, 0, start, len, |nodes0|) == Trees(done, TreesOf(c, k, start, len, |nodes|))
                 && nodes == nodes0 + PreorderAll(done) && buffers == buffers0 + BufferOrderAll(done)
  {
  }

  lemma WritingStops(c: Column, start: nat, len: nat, encoding: Encoding, own: seq<Buffer>,
                     nodes: seq<Node>, buffers: seq<Buffer>, nodes0: seq<Node>, buffers0: seq<Buffer>,
                     nodes1: seq<Node>, buffers1: seq<Buffer>, done: seq<Tree>)
    requires WellFormed(c) && start + len <= Rows(c)
    requires Writing(c, |Kids(c)|, start, len, nodes0, buffers0, nodes1, buffers1, done)
    requires nodes0 == nodes + [Node(|nodes|, encoding, PhysicalOf(c), len, |Kids(c)|, |own|)]
    requires buffers0 == buffers + own
    requires |nodes| <= U16_MAX && len <= U32_MAX && |Kids(c)| <= U16_MAX && OwnBuffers(c, start, len) == Ok(own)
    ensures var t := TreeOf(c, start, len, encoding, |nodes|);
            t.Ok? && nodes1 == nodes + Preorder(t.value) && buffers1 == buffers + BufferOrder(t.value)
  {
    WritingEnds(c, start, len, encoding, own, |nodes|, |nodes1|, done);
    hide TreeOf, TreesOf, Trees, WellFormed, Kids, OwnBuffers, PhysicalOf, Preorder, PreorderAll, BufferOrder,
         BufferOrderAll;
    Reassociate(nodes, [Node(|nodes|, encoding, PhysicalOf(c), len, |Kids(c)|, |own|)], PreorderAll(done));
    Reassociate(buffers, own, BufferOrderAll(done));
  }

  lemma KidInRange(c: Column, k: nat, start: nat, len: nat)
    requires WellFormed(c) && start + len <= Rows(c) && k < |Kids(c)|
    ensures Kids(c)[k] < c && WellFormed(Kids(c)[k]) && start <= Rows(c)
    ensures KidStart(c, start) + KidLen(c, start, len) <= Rows(Kids(c)[k])
  {
  }

  /** When the k-th kid cannot be written, neither can the column, for the same reason. */
  lemma KidRefused(c: Column, k: nat, start: nat, len: nat, encoding: Encoding, own: seq<Buffer>,
                   id: nat, kidId: nat, done: seq<Tree>)
    requires WellFormed(c) && start + len <= Rows(c) && k < |Kids(c)|
    requires TreesOf(c, 0, start, len, id + 1) == Trees(done, TreesOf(c, k, start, len, kidId))
    requires id <= U16_MAX && len <= U32_MAX && |Kids(c)| <= U16_MAX && OwnBuffers(c, start, len) == Ok(own)
    ensures WellFormed(Kids(c)[k]) && KidStart(c, start) + KidLen(c, start, len) <= Rows(Kids(c)[k])
    ensures var e := MaterializedEncoding(PhysicalOf(Kids(c)[k]));
            && (e.Err? ==> TreeOf(c, start, len, encoding, id) == Err(e.error))
            && (e.Ok? ==>
                  var t := TreeOf(Kids(c)[k], KidStart(c, start), KidLen(c, start, len), e.value, kidId);
                  t.Err? ==> TreeOf(c, start, len, encoding, id) == Err(t.error))
  {
    TreesOfStep(c, k, start, len, kidId);
    TreeOfRooted(c, start, len, encoding, own, id);
    hide TreeOf, TreesOf, WellFormed, OwnBuffers, Kids, KidStart, KidLen;
  }

  lemma KidWritten(c: Column, k: nat, start: nat, len: nat, id0: nat, id: nat, done: seq<Tree>, t: Tree)
    requires WellFormed(c) && start + len <= Rows(c) && k < |Kids(c)|
    requires TreesOf(c, 0, start, len, id0) == Trees(done, TreesOf(c, k, start, len, id))
    requires MaterializedEncoding(PhysicalOf(Kids(c)[k])).Ok?
    requires WellFormed(Kids(c)[k]) && KidStart(c, start) + KidLen(c, start, len) <= Rows(Kids(c)[k])
    requires Ok(t) == TreeOf(Kids(c)[k], KidStart(c, start), KidLen(c, start, len),
                             MaterializedEncoding(PhysicalOf(Kids(c)[k])).value, id)
    ensures TreesOf(c, 0, start, len, id0) == Trees(done + [t], TreesOf(c, k + 1, start, len, id + |Preorder(t)|))
  {
    TreesOfStep(c, k, start, len, id);
    hide *;
    TreesMore(done, t, TreesOf(c, k + 1, start, len, id + |Preorder(t)|));
  }

  lemma ListsGrow(nodes: seq<Node>, buffers: seq<Buffer>, done: seq<Tree>, t: Tree)
    ensures nodes + PreorderAll(done + [t]) == nodes + PreorderAll(done) + Preorder(t)
    ensures buffers + BufferOrderAll(done + [t]) == buffers + BufferOrderAll(done) + BufferOrder(t)
  {
    hide *;
    PreorderSnoc(done, t);
    Reassociate(nodes, PreorderAll(done), Preorder(t));
    Reassociate(buffers, BufferOrderAll(done), BufferOrder(t));
  }

  lemma WritingEnds(c: Column, start: nat, len: nat, encoding: Encoding, own: seq<Buffer>, id: nat, last: nat,
                    done: seq<Tree>)
    requires WellFormed(c) && start + len <= Rows(c)
    requires TreesOf(c, 0, start, len, id + 1) == Trees(done, TreesOf(c, |Kids(c)|, start, len, last))
    requires id <= U16_MAX && len <= U32_MAX && |Kids(c)| <= U16_MAX && OwnBuffers(c, start, len) == Ok(own)
    ensures var t := TreeOf(c, start, len, encoding, id);
            && t.Ok? && Preorder(t.value)
               == [Node(id, encoding, PhysicalOf(c), len, |Kids(c)|, |own|)] + PreorderAll(done)
            && BufferOrder(t.value) == own + BufferOrderAll(done)
  {
    TreesOfEnd(c, start, len, last);
    TreeOfRooted(c, start, len, encoding, own, id);
    assert done + [] == done;
    hide TreeOf, TreesOf, WellFormed, OwnBuffers, Kids, KidStart, KidLen, PreorderAll, BufferOrderAll;
  }

  lemma TreeOfRooted(c: Column, start: nat, len: nat, encoding: Encoding, own: seq<Buffer>, id: nat)
    requires WellFormed(c) && start + len <= Rows(c)
    requires id <= U16_MAX && len <= U32_MAX && |Kids(c)| <= U16_MAX && OwnBuffers(c, start, len) == Ok(own)
    ensures TreeOf(c, start, len, encoding, id)
            == Rooted(Node(id, encoding, PhysicalOf(c), len, |Kids(c)|, |own|), own,
                      TreesOf(c, 0, start, len, id + 1))
  {
  }

  function Rooted(node: Node, own: seq<Buffer>, kids: Result<seq<Tree>>): Result<Tree> {
    match kids
    case Err(e) => Err(e)
    case Ok(ts) => Ok(Tree(node, own, ts))
  }

  lemma TreesNone(rest: Result<seq<Tree>>)
    ensures Trees([], rest) == rest
  {
    if rest.Ok? { assert [] + rest.value == rest.value; }
  }

  lemma TreesOfStep(c: Column, k: nat, start: nat, len: nat, firstId: nat)
    requires WellFormed(c) && start + len <= Rows(c) && k < |Kids(c)|
    ensures var kid, from, n := Kids(c)[k], KidStart(c, start), KidLen(c, start, len);
            && WellFormed(kid) && from + n <= Rows(kid)
            && TreesOf(c, k, start, len, firstId)
               == match MaterializedEncoding(PhysicalOf(kid))
                  case Err(e) => Err(e)
                  case Ok(encoding) =>
                    match TreeOf(kid, from, n, encoding, firstId)
                    case Err(e) => Err(e)
                    case Ok(t) => Trees([t], TreesOf(c, k + 1, start, len, firstId + |Preorder(t)|))
  {
  }

  lemma TreesOfEnd(c: Column, start: nat, len: nat, firstId: nat)
    requires WellFormed(c) && start + len <= Rows(c)
    ensures TreesOf(c, |Kids(c)|, start, len, firstId) == Ok([])
  {
  }

  function Trees(done: seq<Tree>, rest: Result<seq<Tree>>): Result<seq<Tree>> {
    match rest
    case Err(e) => Err(e)
    case Ok(ts) => Ok(done + ts)
  }

  lemma TreesMore(done: seq<Tree>, t: Tree, rest: Result<seq<Tree>>)
    ensures Trees(done, Trees([t], rest)) == Trees(done + [t], rest)
  {
    if rest.Ok? { assert done + ([t] + rest.value) == (done + [t]) + rest.value; }
  }

  lemma {:induction false} PreorderSnoc(ts: seq<Tree>, t: Tree)
    ensures PreorderAll(ts + [t]) == PreorderAll(ts) + Preorder(t)
    ensures BufferOrderAll(ts + [t]) == BufferOrderAll(ts) + BufferOrder(t)
    decreases ts
  {
    if ts == [] {
      assert [] + [t] == [t] && [t][1..] == [];
    } else {
      PreorderSnoc(ts[1..], t);
      assert (ts + [t])[1..] == ts[1..] + [t] && (ts + [t])[0] == ts[0];
      assert PreorderAll(ts + [t]) == Preorder(ts[0]) + PreorderAll(ts[1..] + [t]);
      assert BufferOrderAll(ts + [t]) == BufferOrder(ts[0]) + BufferOrderAll(ts[1..] + [t]);
      assert PreorderAll(ts) == Preorder(ts[0]) + PreorderAll(ts[1..]);
      assert BufferOrderAll(ts) == BufferOrder(ts[0]) + BufferOrderAll(ts[1..]);
      hide *;
      Reassociate(Preorder(ts[0]), PreorderAll(ts[1..]), Preorder(t));
      Reassociate(BufferOrder(ts[0]), BufferOrderAll(ts[1..]), BufferOrder(t));
    }
  }

  /** `encode_page_payload`: the finished lists must be countable in 16 bits. */
  function PageOf(c: Column, start: nat, len: nat, encoding: Encoding): Result<Tree>
    requires WellFormed(c) && start + len <= Rows(c)
  {
    match TreeOf(c, start, len, encoding, 0)
    case Err(e) => Err(e)
    case Ok(t) => if |Preorder(t)| > U16_MAX || |BufferOrder(t)| > U16_MAX then Err(ArithOverflow) else Ok(t)
  }

  /** A page that is written parses back as the very tree it was written from,
      with no node and no buffer left over. */
  method EncodePage(c: Column, start: nat, len: nat, encoding: Encoding)
    returns (r: Result<(seq<Node>, seq<Buffer>)>)
    requires WellFormed(c) && start + len <= Rows(c)
    ensures match PageOf(c, start, len, encoding)
            case Err(e) => r == Err(e)
            case Ok(t) => r.Ok? && PayloadTree(r.value.0, r.value.1, 0) == Ok(t)
  {
    var w := new PageWriter();
    var pushed := w.PushPageNode(c, start, len, encoding);
    if pushed.Err? { return Err(pushed.error); }
    ghost var t := TreeOf(c, start, len, encoding, 0).value;
    assert [] + Preorder(t) == Preorder(t) && [] + BufferOrder(t) == BufferOrder(t);
    if |w.nodes| > U16_MAX || |w.buffers| > U16_MAX { return Err(ArithOverflow); }
    PayloadTreeExact(w.nodes, w.buffers, 0, t);
    return Ok((w.nodes, w.buffers));
  }

  // ---- exactly when a range can be written ----

  /** What a caller can check: rows and ids fit, every scalar fits its width, and
      no child is itself a container. */
  ghost predicate Emittable(c: Column, start: nat, len: nat, firstId: nat)
    requires WellFormed(c) && start + len <= Rows(c)
  {
    && firstId + |Kids(c)| <= U16_MAX && len <= U32_MAX
    && (c.ScalarCol? ==> Encodable(c.vals, start, len))
    && forall i :: 0 <= i < |Kids(c)| ==> KidEmittable(c, i, start, len)
  }

  ghost predicate KidEmittable(c: Column, i: nat, start: nat, len: nat)
    requires WellFormed(c) && start + len <= Rows(c) && i < |Kids(c)|
  {
    Kids(c)[i].ScalarCol? && Encodable(Kids(c)[i].vals, KidStart(c, start), KidLen(c, start, len))
  }

  lemma ScalarEmits(c: Column, start: nat, len: nat, encoding: Encoding, firstId: nat)
    requires WellFormed(c) && c.ScalarCol? && start + len <= Rows(c)
    ensures TreeOf(c, start, len, encoding, firstId).Ok?
            <==> firstId <= U16_MAX && len <= U32_MAX && Encodable(c.vals, start, len)
    ensures TreeOf(c, start, len, encoding, firstId).Ok? ==>
              |Preorder(TreeOf(c, start, len, encoding, firstId).value)| == 1
  {
    EncodedIffEncodable(c.vals, start, len);
  }

  lemma {:induction false} KidsEmit(c: Column, k: nat, start: nat, len: nat, firstId: nat)
    requires WellFormed(c) && start + len <= Rows(c) && k <= |Kids(c)| && len <= U32_MAX
    ensures TreesOf(c, k, start, len, firstId).Ok?
            <==> (k < |Kids(c)| ==> firstId + |Kids(c)| - k <= U16_MAX + 1)
                 && forall i :: k <= i < |Kids(c)| ==> KidEmittable(c, i, start, len)
    decreases |Kids(c)| - k
  {
    if k == |Kids(c)| {
      TreesOfEnd(c, start, len, firstId);
    } else {
      KidsEmit(c, k + 1, start, len, firstId + 1);
      KidEmits(c, k, start, len, firstId);
      hide *;
    }
  }

  /** One kid is written as a single node, and exactly when it may be. */
  lemma KidEmits(c: Column, k: nat, start: nat, len: nat, firstId: nat)
    requires WellFormed(c) && start + len <= Rows(c) && k < |Kids(c)| && len <= U32_MAX
    ensures TreesOf(c, k, start, len, firstId).Ok?
            <==> firstId <= 0xFFFF && KidEmittable(c, k, start, len) && TreesOf(c, k + 1, start, len, firstId + 1).Ok?
  {
    var kid, from, n := Kids(c)[k], KidStart(c, start), KidLen(c, start, len);
    assert n <= U32_MAX;
    TreesOfStep(c, k, start, len, firstId);
    if kid.ScalarCol? {
      ScalarEmits(kid, from, n, MaterializedEncoding(PhysicalOf(kid)).value, firstId);
    }
    assert MaterializedEncoding(PhysicalOf(kid)).Ok? <==> kid.ScalarCol?;
    hide TreesOf, TreeOf, WellFormed, Encodable, KidLen, KidStart, Kids;
  }

  /** The converter writes a range exactly when it is emittable; in particular a
      list, struct or map that holds another container is never written. */
  lemma EmitsIff(c: Column, start: nat, len: nat, encoding: Encoding, firstId: nat)
    requires WellFormed(c) && start + len <= Rows(c)
    ensures TreeOf(c, start, len, encoding, firstId).Ok? <==> Emittable(c, start, len, firstId)
  {
    TreeOfIff(c, start, len, encoding, firstId);
    if firstId <= U16_MAX && len <= U32_MAX && |Kids(c)| <= U16_MAX {
      OwnBuffersIff(c, start, len);
      KidsEmit(c, 0, start, len, firstId + 1);
    }
    hide TreeOf, TreesOf, OwnBuffers, Encodable, KidEmittable, WellFormed;
  }

  lemma OwnBuffersIff(c: Column, start: nat, len: nat)
    requires WellFormed(c) && start + len <= Rows(c) && |Kids(c)| <= U16_MAX && len <= U32_MAX
    ensures OwnBuffers(c, start, len).Ok? <==> (c.ScalarCol? ==> Encodable(c.vals, start, len))
  {
    if c.ScalarCol? { EncodedIffEncodable(c.vals, start, len); }
  }

  lemma TreeOfIff(c: Column, start: nat, len: nat, encoding: Encoding, firstId: nat)
    requires WellFormed(c) && start + len <= Rows(c)
    ensures TreeOf(c, start, len, encoding, firstId).Ok?
            <==> firstId <= U16_MAX && OwnBuffers(c, start, len).Ok? && len <= U32_MAX && |Kids(c)| <= U16_MAX
                 && TreesOf(c, 0, start, len, firstId + 1).Ok?
  {
    hide TreesOf, OwnBuffers, WellFormed;
  }

  /** One row, an empty list of lists: well formed, yet it cannot be written. */
  lemma ListOfListsIsRefused()
    ensures var c := ListCol([false], SmallList, [0, 0], ListCol([], SmallList, [0], ScalarCol([], NumCodes([]))));
            WellFormed(c) && Rows(c) == 1 && TreeOf(c, 0, 1, OtherEncoding(0), 0) == Err(BadSchema)
  {
    var inner := ListCol([], SmallList, [0], ScalarCol([], NumCodes([])));
    var c := ListCol([false], SmallList, [0, 0], inner);
    assert WellFormed(inner.child) && WellFormed(inner) && WellFormed(c);
    assert Kids(c)[0] == inner && MaterializedEncoding(PhysicalOf(inner)) == Err(BadSchema);
    assert TreesOf(c, 0, 0, 1, 1) == Err(BadSchema);
  }
}
