/** The IR printer: nodes are numbered depth first, operands before their users, and then listed. */
module IrPrinter {

  /** What a node refers to, by the kinds the printer distinguishes. */
  datatype Shape =
    | UniOp(a: IrNode)
    | BinOp(a: IrNode, b: IrNode)
    | TriOp(a: IrNode, b: IrNode, c: IrNode)
    | Load(address: Address)
    | Store(address: Address, val: IrNode)
    | InplaceUniOp(address: Address)
    | InplaceBinOp(address: Address, val: IrNode)
    | FuncCall(args: seq<IrNode>)
    | ReturnVal(val: IrNode)
    | Return
    | Jump(label_: IrNode)
    | Branch(label_: IrNode, cond: IrNode)
    | Label
    | Halt

  /** A handle, as far as it points to nodes. */
  datatype Address = Plain | ArrayRef(array_: IrNode, index: IrNode) | MemberRef(obj: IrNode) | MethodRef(obj: IrNode)

  /** A node; `height` bounds the depth of the tree under it. */
  class IrNode {
    const shape: Shape
    ghost const height: nat
    var id: nat

    constructor (shape: Shape, ghost height: nat)
      ensures this.shape == shape && this.height == height
    {
      this.shape, this.height, this.id := shape, height, 0;
    }
  }

  function AddressKids(h: Address): seq<IrNode> {
    match h
    case Plain => []
    case ArrayRef(a, i) => [a, i]
    case MemberRef(o) => [o]
    case MethodRef(o) => [o]
  }

  /** The nodes a node is computed from. */
  function Kids(n: IrNode): seq<IrNode> {
    match n.shape
    case UniOp(a) => [a]
    case BinOp(a, b) => [a, b]
    case TriOp(a, b, c) => [a, b, c]
    case Load(h) => AddressKids(h)
    case Store(h, v) => AddressKids(h) + [v]
    case InplaceUniOp(h) => AddressKids(h)
    case InplaceBinOp(h, v) => AddressKids(h) + [v]
    case FuncCall(args) => args
    case ReturnVal(v) => [v]
    case Branch(_, c) => [c]
    case _ => []
  }

  /** The nodes a printed line mentions: the target of a jump, and the operands. */
  function Mentions(n: IrNode): seq<IrNode> {
    if n.shape.Jump? || n.shape.Branch? then [n.shape.label_] + Kids(n) else Kids(n)
  }

  ghost function Bound(ns: seq<IrNode>): nat {
    if ns == [] then 0 else if ns[0].height >= Bound(ns[1..]) then ns[0].height + 1 else Bound(ns[1..])
  }

  ghost predicate Tree(n: IrNode)
    decreases n.height + 1, 0
  {
    Bound(Kids(n)) <= n.height && Trees(Kids(n))
  }

  ghost predicate Trees(ns: seq<IrNode>)
    decreases Bound(ns), |ns| + 1
  {
    ns == [] || (Tree(ns[0]) && Trees(ns[1..]))
  }

  /** Postorder. */
  ghost function Order(n: IrNode): seq<IrNode>
    requires Tree(n)
    decreases n.height + 1, 0
  {
    OrderAll(Kids(n)) + [n]
  }

  ghost function OrderAll(ns: seq<IrNode>): seq<IrNode>
    requires Trees(ns)
    decreases Bound(ns), |ns| + 1
  {
    if ns == [] then [] else Order(ns[0]) + OrderAll(ns[1..])
  }

  ghost predicate NoDup(ns: seq<IrNode>) { forall i, j :: 0 <= i < j < |ns| ==> ns[i] != ns[j] }

  lemma NoDupFront(a: seq<IrNode>, b: seq<IrNode>)
    requires NoDup(a + b)
    ensures NoDup(a) && forall k, j :: 0 <= k < |a| && 0 <= j < |b| ==> a[k] != b[j]
  {
    var s := a + b;
    assert forall k :: 0 <= k < |a| ==> s[k] == a[k];
    assert forall j :: 0 <= j < |b| ==> s[|a| + j] == b[j];
  }

  /** Every listed node's id is its position. */
  ghost predicate Numbered(ns: seq<IrNode>)
    reads ns
  {
    forall k :: 0 <= k < |ns| ==> ns[k].id == k
  }

  /** A line: the node's number and the numbers it mentions. */
  datatype Line = Line(id: nat, refs: seq<nat>)

  function Ids(ns: seq<IrNode>): seq<nat>
    reads ns
  {
    seq(|ns|, k requires 0 <= k < |ns| reads ns => ns[k].id)
  }

  /** A line, with the ids as they are now. */
  function LineOf(n: IrNode): Line
    reads n, Mentions(n)
  {
    Line(n.id, Ids(Mentions(n)))
  }

  class IrPrinter {
    var lines: seq<Line>

    constructor ()
      ensures lines == []
    {
      lines := [];
    }

    /** Number a list of trees, in order. */
    method DfsNodes(ns: seq<IrNode>, list: seq<IrNode>) returns (list': seq<IrNode>)
      requires Trees(ns) && NoDup(list + OrderAll(ns)) && Numbered(list)
      modifies set n | n in OrderAll(ns)
      ensures list' == list + OrderAll(ns) && Numbered(list')
      decreases Bound(ns), |ns| + 1
    {
      list' := list;
      if ns != [] {
        assert list + OrderAll(ns) == (list + Order(ns[0])) + OrderAll(ns[1..]);
        NoDupFront(list + Order(ns[0]), OrderAll(ns[1..]));
        list' := DfsNode(ns[0], list);
        list' := DfsNodes(ns[1..], list');
      }
    }

    /** Number a tree: the operands, the nodes of the address, and then the node itself. */
    method DfsNode(node: IrNode, list: seq<IrNode>) returns (list': seq<IrNode>)
      requires Tree(node) && NoDup(list + Order(node)) && Numbered(list)
      modifies set n | n in Order(node)
      ensures list' == list + Order(node) && Numbered(list')
      decreases node.height + 1, 0
    {
      assert list + Order(node) == (list + OrderAll(Kids(node))) + [node];
      NoDupFront(list + OrderAll(Kids(node)), [node]);
      list' := DfsNodes(Kids(node), list);
      assert forall k :: 0 <= k < |list'| ==> list'[k] != [node][0];
      node.id := |list'|;
      list' := list' + [node];
    }

    /** The second pass. */
    method PrintNodes(allList: seq<IrNode>) returns (text: seq<Line>)
      ensures |text| == |allList| && forall k :: 0 <= k < |text| ==> text[k] == LineOf(allList[k])
    {
      text := [];
      for i := 0 to |allList|
        invariant |text| == i && forall k :: 0 <= k < i ==> text[k] == LineOf(allList[k])
      {
        text := text + [LineOf(allList[i])];
      }
    }

    /** Number every node, then print every node. */
    method PrintNodeList(nodeList: seq<IrNode>)
      requires Trees(nodeList) && NoDup(OrderAll(nodeList))
      modifies this`lines, set n | n in OrderAll(nodeList)
      ensures Numbered(OrderAll(nodeList))
      ensures |lines| == |old(lines)| + |OrderAll(nodeList)| && old(lines) <= lines
      ensures forall k :: 0 <= k < |OrderAll(nodeList)| ==> lines[|old(lines)| + k] == LineOf(OrderAll(nodeList)[k])
    {
      assert [] + OrderAll(nodeList) == OrderAll(nodeList);
      var allList := DfsNodes(nodeList, []);
      var text := PrintNodes(allList);
      lines := lines + text;
    }
  }

  // ----- what the numbering means -----

  /** Position `k` holds a node whose operands all stand at smaller positions. */
  ghost predicate OperandsBefore(ns: seq<IrNode>, k: nat)
    requires k < |ns|
  {
    forall kid :: kid in Kids(ns[k]) ==> kid in ns[..k]
  }

  lemma {:induction false} OrderHasRoots(ns: seq<IrNode>)
    requires Trees(ns)
    ensures forall n :: n in ns ==> n in OrderAll(ns)
    decreases |ns|
  {
    if ns != [] {
      OrderHasRoots(ns[1..]);
      assert Order(ns[0])[|OrderAll(Kids(ns[0]))|] == ns[0];
      assert ns == [ns[0]] + ns[1..];
    }
  }

  lemma {:induction false} OrderOperandsFirst(n: IrNode, k: nat)
    requires Tree(n) && k < |Order(n)|
    ensures OperandsBefore(Order(n), k)
    decreases n.height + 1, 0
  {
    var kids := OrderAll(Kids(n));
    if k < |kids| {
      AllOperandsFirst(Kids(n), k);
      assert Order(n)[..k] == kids[..k];
    } else {
      OrderHasRoots(Kids(n));
      assert Order(n)[..k] == kids;
    }
  }

  lemma {:induction false} AllOperandsFirst(ns: seq<IrNode>, k: nat)
    requires Trees(ns) && k < |OrderAll(ns)|
    ensures OperandsBefore(OrderAll(ns), k)
    decreases Bound(ns), |ns| + 1
  {
    var first, all := Order(ns[0]), OrderAll(ns);
    if k < |first| {
      OrderOperandsFirst(ns[0], k);
      assert all[..k] == first[..k];
    } else {
      var j := k - |first|;
      AllOperandsFirst(ns[1..], j);
      assert all[..k] == first + OrderAll(ns[1..])[..j];
    }
  }

  /** After the numbering, line `k` has number `k`, its operands' numbers are smaller, and every node it
      mentions that belongs to a listed tree - the target of a jump among them - has the number of its own line. */
  lemma NumberingOrdersOperands(ns: seq<IrNode>, k: nat)
    requires Trees(ns) && Numbered(OrderAll(ns)) && k < |OrderAll(ns)|
    ensures LineOf(OrderAll(ns)[k]).id == k
    ensures forall kid :: kid in Kids(OrderAll(ns)[k]) ==> kid.id < k
    ensures forall n :: n in Mentions(OrderAll(ns)[k]) && n in OrderAll(ns) ==>
              n.id < |OrderAll(ns)| && OrderAll(ns)[n.id] == n
  {
    AllOperandsFirst(ns, k);
  }
}
