/**
 The singly linked filter blocks of syscall_filter.c: a chain of nodes whose head
 also caches the tail and the total length. An instruction buffer is handed over
 to its node and never written again, so a node stores the buffer's contents.
 */
module Blocks {
  import opened Words
  import opened Bpf
  import opened Emit

  /** struct filter_block. */
  class FilterBlock {
    var instrs: Option<seq<Instr>>
    var len: nat
    var next: FilterBlock?
    var last: FilterBlock?
    var totalLen: nat

    constructor ()
      ensures instrs == None && len == 0 && next == null && last == null && totalLen == 0
    {
      instrs, len, next, last, totalLen := None, 0, null, null, 0;
    }
  }

  /** The instructions of a list of buffers, in order. */
  function Flat(codes: seq<seq<Instr>>): seq<Instr> {
    if codes == [] then [] else codes[0] + Flat(codes[1..])
  }

  lemma {:induction false} FlatConcat(a: seq<seq<Instr>>, b: seq<seq<Instr>>)
    ensures Flat(a + b) == Flat(a) + Flat(b)
  {
    if a == [] {
      assert a + b == b;
    } else {
      assert (a + b)[1..] == a[1..] + b;
      FlatConcat(a[1..], b);
    }
  }

  lemma FlatSnoc(a: seq<seq<Instr>>, code: seq<Instr>)
    ensures Flat(a + [code]) == Flat(a) + code
  {
    FlatConcat(a, [code]);
    assert Flat([code]) == code + Flat([]);
  }

  /** A proper singly linked list of these nodes, holding these buffers. */
  ghost predicate Chain(nodes: seq<FilterBlock>, codes: seq<seq<Instr>>)
    reads nodes
    decreases |nodes|
  {
    && |nodes| == |codes| > 0
    && nodes[0].instrs == Some(codes[0]) && nodes[0].len == |codes[0]|
    && nodes[0] !in nodes[1..]
    && if |nodes| == 1 then nodes[0].next == null
       else nodes[0].next == nodes[1] && Chain(nodes[1..], codes[1..])
  }

  /** Each node links to the next one, and the last one to the given node. */
  ghost predicate Linked(nodes: seq<FilterBlock>, after: FilterBlock?)
    reads nodes
  {
    forall i :: 0 <= i < |nodes| ==> nodes[i].next == NodeOr(nodes, i + 1, after)
  }

  ghost function NodeOr(nodes: seq<FilterBlock>, i: nat, after: FilterBlock?): FilterBlock? {
    if i < |nodes| then nodes[i] else after
  }

  /** Each node holds the buffer with the same index. */
  ghost predicate Hold(nodes: seq<FilterBlock>, codes: seq<seq<Instr>>)
    reads nodes
  {
    |nodes| == |codes| &&
    forall i :: 0 <= i < |nodes| ==> nodes[i].instrs == Some(codes[i]) && nodes[i].len == |codes[i]|
  }

  ghost predicate Distinct(nodes: seq<FilterBlock>) {
    forall i, j :: 0 <= i < j < |nodes| ==> nodes[i] != nodes[j]
  }

  lemma {:induction false} ChainParts(nodes: seq<FilterBlock>, codes: seq<seq<Instr>>)
    requires Chain(nodes, codes)
    ensures Distinct(nodes) && Linked(nodes, null) && Hold(nodes, codes)
    decreases |nodes|
  {
    if |nodes| > 1 {
      var rest, more := nodes[1..], codes[1..];
      ChainParts(rest, more);
      forall i | 0 < i < |nodes|
        ensures nodes[i].next == NodeOr(nodes, i + 1, null) && nodes[i] != nodes[0]
        ensures nodes[i].instrs == Some(codes[i]) && nodes[i].len == |codes[i]|
      {
        assert nodes[i] == rest[i - 1] && codes[i] == more[i - 1];
      }
      assert forall i, j :: 0 < i < j < |nodes| ==> nodes[i] == rest[i - 1] && nodes[j] == rest[j - 1];
    }
  }

  /** Linking the last node of one chain to the first of another joins them. */
  lemma {:induction false} ChainJoin(a: seq<FilterBlock>, ca: seq<seq<Instr>>, b: seq<FilterBlock>, cb: seq<seq<Instr>>)
    requires a != [] && Distinct(a) && Hold(a, ca) && Chain(b, cb) && Linked(a, b[0])
    requires forall n :: n in a ==> n !in b
    ensures Chain(a + b, ca + cb)
    decreases |a|
  {
    assert (a + b)[1..] == a[1..] + b && (ca + cb)[1..] == ca[1..] + cb;
    if |a| == 1 {
      assert a[1..] + b == b && ca[1..] + cb == cb;
    } else {
      forall i | 0 <= i < |a[1..]|
        ensures a[1..][i].next == NodeOr(a[1..], i + 1, b[0])
      {
        assert a[i + 1].next == NodeOr(a, i + 2, b[0]);
      }
      ChainJoin(a[1..], ca[1..], b, cb);
    }
  }

  /** A chain whose head knows its tail and its length. */
  ghost predicate IsList(nodes: seq<FilterBlock>, codes: seq<seq<Instr>>)
    reads nodes
  {
    && Chain(nodes, codes)
    && nodes[0].totalLen == |Flat(codes)|
    && nodes[0].last == if |nodes| == 1 then null else nodes[|nodes| - 1]
  }

  /** A list, or a head that has no buffer yet. */
  ghost predicate ListOrEmpty(head: FilterBlock, nodes: seq<FilterBlock>, codes: seq<seq<Instr>>)
    reads head, nodes
  {
    if nodes == [] then codes == [] && head.instrs == None else IsList(nodes, codes) && head == nodes[0]
  }

  /** append_filter_block: fill an empty head, or add one fresh node at the end. */
  method Append(head: FilterBlock, code: seq<Instr>, ghost nodes: seq<FilterBlock>, ghost codes: seq<seq<Instr>>)
    returns (ghost more: seq<FilterBlock>)
    requires ListOrEmpty(head, nodes, codes)
    modifies head, nodes
    ensures IsList(more, codes + [code]) && more[0] == head
    ensures |more| == |nodes| + 1 && nodes <= more && (more[|nodes|] == head || fresh(more[|nodes|]))
  {
    if head.instrs == None {
      head.instrs := Some(code);
      head.len, head.totalLen := |code|, |code|;
      head.last, head.next := null, null;
      FlatSnoc([], code);
      more := [head];
    } else {
      more := AddNode(head, code, nodes, codes);
    }
  }

  method NewBlock(code: seq<Instr>) returns (node: FilterBlock)
    ensures fresh(node) && Chain([node], [code])
  {
    node := new FilterBlock();
    node.instrs, node.len, node.totalLen := Some(code), |code|, |code|;
  }

  method AddNode(head: FilterBlock, code: seq<Instr>, ghost nodes: seq<FilterBlock>, ghost codes: seq<seq<Instr>>)
    returns (ghost more: seq<FilterBlock>)
    requires IsList(nodes, codes) && head == nodes[0]
    modifies nodes
    ensures IsList(more, codes + [code])
    ensures |more| == |nodes| + 1 && nodes <= more && fresh(more[|nodes|])
  {
    hide Flat, Distinct;
    ChainParts(nodes, codes);
    ghost var tail := nodes[|nodes| - 1];
    assert head in nodes && tail in nodes;
    assert tail == if head.next != null then head.last else head;
    var node := NewBlock(code);
    if head.next != null {
      head.last.next := node;
      head.last := node;
    } else {
      head.last, head.next := node, node;
    }
    head.totalLen := head.totalLen + |code|;
    FlatSnoc(codes, code);
    more := nodes + [node];
    assert Linked(nodes, node) && Hold(nodes, codes);
    ChainJoin(nodes, codes, [node], [code]);
  }

  /** extend_filter_block_list. The links and the length are always right, but the
      tail pointer is right only when the second list has at least two nodes:
      a one-node list has a null tail pointer, which is copied. */
  method Extend(list: FilterBlock, another: FilterBlock,
                ghost nodes: seq<FilterBlock>, ghost codes: seq<seq<Instr>>,
                ghost nodes': seq<FilterBlock>, ghost codes': seq<seq<Instr>>)
    requires IsList(nodes, codes) && list == nodes[0]
    requires IsList(nodes', codes') && another == nodes'[0]
    requires forall n :: n in nodes ==> n !in nodes'
    modifies nodes
    ensures Chain(nodes + nodes', codes + codes')
    ensures list.totalLen == |Flat(codes + codes')|
    ensures IsList(nodes + nodes', codes + codes') <==> |nodes'| >= 2
  {
    hide Flat;
    ChainParts(nodes, codes);
    ghost var tail := nodes[|nodes| - 1];
    assert list in nodes && tail in nodes;
    assert tail == if list.last != null then list.last else list;
    if list.last != null {
      list.last.next := another;
      list.last := another.last;
    } else {
      list.next := another;
      list.last := another.last;
    }
    list.totalLen := list.totalLen + another.totalLen;
    FlatConcat(codes, codes');
    assert Linked(nodes, another) && Hold(nodes, codes);
    ChainJoin(nodes, codes, nodes', codes');
  }

  /** The inner loop of flatten_block_list: copy one buffer, up to the limit. */
  method CopyBlock(instrs: seq<Instr>, filter: array<Instr>, index: nat, cap: nat) returns (ok: bool)
    requires index <= cap <= filter.Length
    modifies filter
    ensures ok <==> index + |instrs| <= cap
    ensures ok ==> filter[..] == Written(old(filter[..]), index, instrs)
  {
    for i := 0 to |instrs|
      invariant index + i <= cap
      invariant filter[..] == Written(old(filter[..]), index, instrs[..i])
    {
      if index + i >= cap {
        return false;
      }
      filter[index + i] := instrs[i];
      assert instrs[..i + 1] == instrs[..i] + [instrs[i]];
    }
    assert instrs[..|instrs|] == instrs;
    return true;
  }

  /** flatten_block_list: refuses exactly when the buffer is too small. */
  method Flatten(head: FilterBlock?, filter: array<Instr>, index: nat, cap: nat,
                 ghost nodes: seq<FilterBlock>, ghost codes: seq<seq<Instr>>) returns (ok: bool)
    requires if head == null then nodes == [] && codes == [] else Chain(nodes, codes) && head == nodes[0]
    requires index <= cap <= filter.Length
    modifies filter
    ensures ok <==> index + |Flat(codes)| <= cap
    ensures ok ==> filter[..] == Written(old(filter[..]), index, Flat(codes))
  {
    var at, curr := index, head;
    ghost var k := 0;
    while curr != null
      invariant k <= |nodes| == |codes|
      invariant if curr == null then k == |nodes| else k < |nodes| && curr == nodes[k] && Chain(nodes[k..], codes[k..])
      invariant at == index + |Flat(codes[..k])| <= cap
      invariant filter[..] == Written(old(filter[..]), index, Flat(codes[..k]))
      decreases |nodes| - k
    {
      FlatTake(codes, k);
      assert nodes[k..][1..] == nodes[k + 1..] && codes[k..][1..] == codes[k + 1..];
      var copied := CopyBlock(curr.instrs.value, filter, at, cap);
      if !copied {
        return false;
      }
      WrittenTwice(old(filter[..]), index, Flat(codes[..k]), codes[k]);
      at, curr, k := at + curr.len, curr.next, k + 1;
    }
    assert codes[..k] == codes;
    return true;
  }

  lemma FlatTake(codes: seq<seq<Instr>>, k: nat)
    requires k < |codes|
    ensures Flat(codes[..k + 1]) == Flat(codes[..k]) + codes[k]
    ensures |Flat(codes[..k + 1])| <= |Flat(codes)|
  {
    assert codes[..k + 1] == codes[..k] + [codes[k]];
    FlatSnoc(codes[..k], codes[k]);
    assert codes == codes[..k + 1] + codes[k + 1..];
    FlatConcat(codes[..k + 1], codes[k + 1..]);
  }

  /** A list as the compiler holds it: the pointer to its head, with the chain and
      the buffers it stands for. A list without buffers stands for a null pointer. */
  class FilterList {
    var head: FilterBlock
    ghost var nodes: seq<FilterBlock>
    ghost var codes: seq<seq<Instr>>
    ghost var Repr: set<FilterBlock>

    ghost predicate Valid()
      reads this, Repr
    {
      && head in Repr && (forall n :: n in nodes ==> n in Repr)
      && ListOrEmpty(head, nodes, codes)
    }

    constructor ()
      ensures Valid() && codes == [] && fresh(Repr)
    {
      head := new FilterBlock();
      nodes, codes := [], [];
      new;
      Repr := {head};
    }

    method Add(code: seq<Instr>)
      requires Valid()
      modifies this, Repr
      ensures Valid() && codes == old(codes) + [code] && fresh(Repr - old(Repr))
    {
      ghost var ns, cs := nodes, codes;
      codes := codes + [code];
      nodes := Append(head, code, ns, cs);
      Repr := Repr + {nodes[|ns|]};
    }

    /** Put another list behind this one; an empty list becomes the other one. */
    method AddAll(other: FilterList)
      requires this != other && Valid() && other.Valid() && Repr !! other.Repr && |other.codes| >= 2
      modifies this, Repr
      ensures Valid() && codes == old(codes) + other.codes && Repr == old(Repr) + other.Repr
    {
      ghost var ns, cs := nodes, codes;
      Repr := Repr + other.Repr;
      if head.instrs == None {
        head, nodes, codes := other.head, other.nodes, other.codes;
      } else {
        nodes, codes := ns + other.nodes, cs + other.codes;
        Extend(head, other.head, ns, cs, other.nodes, other.codes);
      }
    }
  }
}
