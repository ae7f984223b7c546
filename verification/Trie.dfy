/**
 The structure of the path-compressed prefix trie: an arena of nodes linked by
 index. Every live node has an absolute bit path; splitting and merging edges
 never changes the path of a surviving node, so all invariants are local.
 */
module Trie {
  import opened Common
  import opened Bits

  /** A prefix: the address family and the leading bits. */
  datatype Prefix = Prefix(v6: bool, bits: seq<bool>)

  function AddressBits(v6: bool): nat {
    if v6 then 128 else 32
  }

  const V4_ROOT: nat := 0
  const V6_ROOT: nat := 1

  function RootOf(v6: bool): nat {
    if v6 then V6_ROOT else V4_ROOT
  }

  datatype Node<V> = Node(bits: Word, len: nat, zero: Option<nat>, one: Option<nat>, value: Option<V>) {
    function Child(b: bool): Option<nat> {
      if b then one else zero
    }

    function WithChild(b: bool, c: Option<nat>): Node<V> {
      if b then this.(one := c) else this.(zero := c)
    }

    /** The run of address bits leading into the node. */
    function Edge(): seq<bool>
      requires len <= WIDTH
    {
      bits[..len]
    }
  }

  function NewNode<V>(bits: Word, len: nat, value: Option<V>): Node<V> {
    Node(Mask(bits, len), len, None, None, value)
  }

  /** Arena slots: `None` is a vacant slot. */
  type Arena<V> = seq<Option<Node<V>>>

  predicate Live<V>(a: Arena<V>, i: nat) {
    i < |a| && a[i].Some?
  }

  /** Ghost description of the shape: each live node's path and parent, and the node at each path. */
  datatype Shape = Shape(paths: map<nat, Prefix>, parents: map<nat, nat>, nodes: map<Prefix, nat>)

  // ---------------------------------------------------------------------
  // The invariant
  // ---------------------------------------------------------------------

  ghost predicate NodeOk<V>(a: Arena<V>, g: Shape, i: nat)
    requires Live(a, i) && i in g.paths
  {
    var n := a[i].value;
    && IsRun(n.bits, n.len)
    && |g.paths[i].bits| <= AddressBits(g.paths[i].v6)
    && g.paths[i] in g.nodes && g.nodes[g.paths[i]] == i
  }

  /** The `b` child of `i` exists only where its path says, and `i` is its only parent. */
  ghost predicate LinkOk<V>(a: Arena<V>, g: Shape, i: nat, b: bool)
    requires Live(a, i) && i in g.paths
  {
    a[i].value.Child(b).Some? ==>
      var c := a[i].value.Child(b).value;
      && 2 <= c && Live(a, c) && c in g.paths && a[c].value.len <= WIDTH
      && c in g.parents && g.parents[c] == i
      && g.paths[c] == Prefix(g.paths[i].v6, g.paths[i].bits + a[c].value.Edge())
      && a[c].value.len > 0 && a[c].value.bits[0] == b
  }

  /** A non-root node hangs off its parent. */
  ghost predicate ParentOk<V>(a: Arena<V>, g: Shape, c: nat)
    requires Live(a, c) && c in g.paths
  {
    && c in g.parents && Live(a, g.parents[c]) && g.parents[c] in g.paths
    && a[c].value.len > 0
    && a[g.parents[c]].value.Child(a[c].value.bits[0]) == Some(c)
  }

  /** Path compression: a non-root node carries a value or branches. */
  predicate Compressed<V>(n: Node<V>) {
    n.value.Some? || (n.zero.Some? && n.one.Some?)
  }

  /** Everything the invariant says about node `i` and its `b` link. */
  ghost predicate AtNode<V>(a: Arena<V>, g: Shape, except: Option<nat>, i: nat, b: bool)
    requires i in g.paths
  {
    && Live(a, i) && NodeOk(a, g, i) && LinkOk(a, g, i, b)
    && (2 <= i ==> ParentOk(a, g, i))
    && (2 <= i && except != Some(i) ==> Compressed(a[i].value))
  }

  /** The arena is a trie of shape `g`; node `except` alone may lack compression. */
  ghost predicate WfExcept<V>(a: Arena<V>, g: Shape, except: Option<nat>) {
    && |a| >= 2
    && (forall i: nat :: i in g.paths <==> Live(a, i))
    && Live(a, V4_ROOT) && Live(a, V6_ROOT)
    && g.paths[V4_ROOT] == Prefix(false, []) && g.paths[V6_ROOT] == Prefix(true, [])
    && (forall i, b {:trigger AtNode(a, g, except, i, b)} | i in g.paths :: AtNode(a, g, except, i, b))
    && (forall p {:trigger g.nodes[p]} | p in g.nodes :: g.nodes[p] in g.paths && g.paths[g.nodes[p]] == p)
  }

  ghost predicate Wf<V>(a: Arena<V>, g: Shape) {
    WfExcept(a, g, None)
  }

  /** Node `i` holds the value stored for its path, if any. */
  ghost predicate ValueOk<V>(a: Arena<V>, g: Shape, m: map<Prefix, V>, i: nat)
    requires Live(a, i) && i in g.paths
  {
    a[i].value.value == if g.paths[i] in m then Some(m[g.paths[i]]) else None
  }

  /** The stored prefixes are exactly the valued nodes. */
  ghost predicate Stores<V>(a: Arena<V>, g: Shape, m: map<Prefix, V>) {
    && (forall i {:trigger ValueOk(a, g, m, i)} | i in g.paths :: Live(a, i) && ValueOk(a, g, m, i))
    && m.Keys <= g.nodes.Keys
  }

  // ---------------------------------------------------------------------
  // Finding the way down
  // ---------------------------------------------------------------------

  /**
   A live node below `x` lies under `x`'s child in its direction: path
   compression never hides a node off the path to it.
   */
  lemma {:induction false} Descend<V>(a: Arena<V>, g: Shape, e: Option<nat>, x: nat, y: nat)
    requires WfExcept(a, g, e) && x in g.paths && y in g.paths
    requires g.paths[x].v6 == g.paths[y].v6
    requires |g.paths[x].bits| < |g.paths[y].bits| && g.paths[x].bits <= g.paths[y].bits
    ensures var b := g.paths[y].bits[|g.paths[x].bits|];
            && a[x].value.Child(b).Some?
            && var c := a[x].value.Child(b).value;
            && c in g.paths && g.paths[c].bits <= g.paths[y].bits
    decreases |g.paths[y].bits|
  {
    var px, py := g.paths[x].bits, g.paths[y].bits;
    assert y != V4_ROOT && y != V6_ROOT;
    assert AtNode(a, g, e, y, true);
    var m := g.parents[y];
    assert AtNode(a, g, e, m, a[y].value.bits[0]) && AtNode(a, g, e, x, true);
    var pm := g.paths[m].bits;
    assert pm <= py && |pm| < |py| && py[|pm|] == a[y].value.bits[0];
    if |pm| == |px| {
      assert pm == px;
    } else if |pm| > |px| {
      Descend(a, g, e, x, m);
    } else {
      assert pm <= px;
      Descend(a, g, e, m, x);
    }
  }

  // ---------------------------------------------------------------------
  // Local changes
  // ---------------------------------------------------------------------

  /** The arenas differ at most in `changed`. */
  ghost predicate Same<V>(a: Arena<V>, a': Arena<V>, changed: set<nat>) {
    |a| == |a'| && forall i: nat | i < |a| && i !in changed :: a'[i] == a[i]
  }

  /** Changing only the value of `x` keeps the shape. */
  lemma NewValue<V>(a: Arena<V>, a': Arena<V>, g: Shape, x: nat, v: Option<V>)
    requires Wf(a, g) && x in g.paths
    requires Same(a, a', {x}) && a'[x] == Some(a[x].value.(value := v))
    ensures WfExcept(a', g, Some(x))
    ensures v.Some? || x < 2 || (a[x].value.zero.Some? && a[x].value.one.Some?) ==> Wf(a', g)
  {
    forall i, b | i in g.paths
      ensures AtNode(a', g, Some(x), i, b)
      ensures v.Some? || x < 2 || (a[x].value.zero.Some? && a[x].value.one.Some?) ==> AtNode(a', g, None, i, b)
    {
      assert AtNode(a, g, None, i, b);
    }
  }

  /** ... and changes the stored map at that path only. */
  lemma NewValueStored<V>(a: Arena<V>, a': Arena<V>, g: Shape, m: map<Prefix, V>, x: nat, v: Option<V>)
    requires Wf(a, g) && Stores(a, g, m) && x in g.paths
    requires Same(a, a', {x}) && a'[x] == Some(a[x].value.(value := v))
    ensures Stores(a', g, if v.Some? then m[g.paths[x] := v.value] else m - {g.paths[x]})
  {
    var m' := if v.Some? then m[g.paths[x] := v.value] else m - {g.paths[x]};
    assert AtNode(a, g, None, x, true);
    forall i | i in g.paths ensures Live(a', i) && ValueOk(a', g, m', i) {
      assert ValueOk(a, g, m, i) && AtNode(a, g, None, i, true);
    }
  }

  function Grown(g: Shape, x: nat, l: nat, net: Prefix): Shape {
    Shape(g.paths[l := net], g.parents[l := x], g.nodes[net := l])
  }

  function Leaf<V>(net: Prefix, pos: nat, v: V): Node<V>
    requires pos <= |net.bits| <= WIDTH
  {
    NewNode(Shl(Pad(net.bits), pos), |net.bits| - pos, Some(v))
  }

  lemma LeafEdge<V>(net: Prefix, pos: nat, v: V)
    requires pos < |net.bits| <= WIDTH
    ensures var n := Leaf(net, pos, v);
            IsRun(n.bits, n.len) && n.Edge() == net.bits[pos..] && n.bits[0] == net.bits[pos]
  {
    var w := Pad(net.bits);
    MaskIsRun(Shl(w, pos), |net.bits| - pos);
    ShlDrops(w, |net.bits|, pos);
    assert w[pos..|net.bits|] == net.bits[pos..];
    assert Leaf(net, pos, v).bits[0] == Leaf(net, pos, v).Edge()[0];
  }

  /** A leaf for `net` can be hung off `x`, at the vacant slot `l`. */
  ghost predicate Attachable<V>(a: Arena<V>, g: Shape, e: Option<nat>, x: nat, l: nat, net: Prefix) {
    && WfExcept(a, g, e) && x in g.paths
    && g.paths[x].v6 == net.v6 && |net.bits| <= AddressBits(net.v6)
    && |g.paths[x].bits| < |net.bits| && g.paths[x].bits <= net.bits
    && 2 <= l < |a| && a[l].None?
    && var b := net.bits[|g.paths[x].bits|];
    && a[x].value.Child(b).None?
    && (e == None || (e == Some(x) && a[x].value.Child(!b).Some?))
  }

  lemma NoNodeAt<V>(a: Arena<V>, g: Shape, e: Option<nat>, x: nat, l: nat, net: Prefix)
    requires Attachable(a, g, e, x, l, net)
    ensures net !in g.nodes
  {
    if net in g.nodes {
      Descend(a, g, e, x, g.nodes[net]);
      assert false;
    }
  }

  ghost predicate Attached<V>(a: Arena<V>, a': Arena<V>, g: Shape, e: Option<nat>, x: nat, l: nat, net: Prefix, v: V)
    requires Attachable(a, g, e, x, l, net)
  {
    var pos := |g.paths[x].bits|;
    && Same(a, a', {x, l})
    && a'[l] == Some(Leaf(net, pos, v))
    && a'[x] == Some(a[x].value.WithChild(net.bits[pos], Some(l)))
  }

  /** A leaf linked under the right path satisfies the invariant on both of its sides. */
  lemma LeafAt<V>(a: Arena<V>, g: Shape, x: nat, l: nat, net: Prefix, pos: nat, v: V, d: bool)
    requires pos < |net.bits| <= AddressBits(net.v6) && 2 <= l && Live(a, x) && Live(a, l) && x in g.paths
              && l in g.paths
    requires a[l] == Some(Leaf(net, pos, v)) && a[x].value.Child(net.bits[pos]) == Some(l)
    requires g.paths[x] == Prefix(net.v6, net.bits[..pos]) && g.paths[l] == net
    requires l in g.parents && g.parents[l] == x && net in g.nodes && g.nodes[net] == l
    ensures AtNode(a, g, None, l, d) && LinkOk(a, g, x, net.bits[pos])
  {
    LeafEdge(net, pos, v);
    assert net.bits[..pos] + net.bits[pos..] == net.bits;
  }

  lemma AddLeafNew<V>(a: Arena<V>, a': Arena<V>, g: Shape, e: Option<nat>, x: nat, l: nat, net: Prefix, v: V, d: bool)
    requires Attachable(a, g, e, x, l, net) && Attached(a, a', g, e, x, l, net, v)
    ensures AtNode(a', Grown(g, x, l, net), None, l, d)
    ensures LinkOk(a', Grown(g, x, l, net), x, net.bits[|g.paths[x].bits|])
  {
    assert g.paths[x].bits == net.bits[..|g.paths[x].bits|];
    LeafAt(a', Grown(g, x, l, net), x, l, net, |g.paths[x].bits|, v, d);
  }

  /** A link stays right while its two ends keep their paths and the child keeps its edge. */
  lemma LinkKept<V>(a: Arena<V>, a': Arena<V>, g: Shape, g': Shape, i: nat, d: bool)
    requires Live(a, i) && Live(a', i) && i in g.paths && i in g'.paths && LinkOk(a, g, i, d)
    requires g'.paths[i] == g.paths[i] && a'[i].value.Child(d) == a[i].value.Child(d)
    requires a[i].value.Child(d).Some? ==>
               var c := a[i].value.Child(d).value;
               && Live(a', c) && a'[c].value.bits == a[c].value.bits && a'[c].value.len == a[c].value.len
               && c in g'.paths && g'.paths[c] == g.paths[c] && c in g'.parents && g'.parents[c] == i
    ensures LinkOk(a', g', i, d)
  {
  }

  lemma AddLeafLink<V>(a: Arena<V>, a': Arena<V>, g: Shape, e: Option<nat>, x: nat, l: nat, net: Prefix, v: V,
                       i: nat, d: bool)
    requires Attachable(a, g, e, x, l, net) && Attached(a, a', g, e, x, l, net, v)
    requires i in g.paths && !(i == x && d == net.bits[|g.paths[x].bits|])
    ensures Live(a', i) && LinkOk(a', Grown(g, x, l, net), i, d)
  {
    assert AtNode(a, g, e, i, d);
    LinkKept(a, a', g, Grown(g, x, l, net), i, d);
  }

  lemma AddLeafParent<V>(a: Arena<V>, a': Arena<V>, g: Shape, e: Option<nat>, x: nat, l: nat, net: Prefix, v: V, i: nat)
    requires Attachable(a, g, e, x, l, net) && Attached(a, a', g, e, x, l, net, v)
    requires i in g.paths && 2 <= i
    ensures Live(a', i) && ParentOk(a', Grown(g, x, l, net), i)
  {
    assert AtNode(a, g, e, i, true);
    assert a'[i].value.bits == a[i].value.bits && a'[i].value.len == a[i].value.len;
  }

  lemma AddLeafNode<V>(a: Arena<V>, a': Arena<V>, g: Shape, e: Option<nat>, x: nat, l: nat, net: Prefix, v: V, i: nat)
    requires Attachable(a, g, e, x, l, net) && Attached(a, a', g, e, x, l, net, v)
    requires i in g.paths && net !in g.nodes
    ensures Live(a', i) && NodeOk(a', Grown(g, x, l, net), i)
    ensures 2 <= i ==> Compressed(a'[i].value)
  {
    assert AtNode(a, g, e, i, true);
  }

  lemma AddLeafOld<V>(a: Arena<V>, a': Arena<V>, g: Shape, e: Option<nat>, x: nat, l: nat, net: Prefix, v: V, i: nat,
                      d: bool)
    requires Attachable(a, g, e, x, l, net) && Attached(a, a', g, e, x, l, net, v)
    requires i in g.paths && i != l && net !in g.nodes
    ensures AtNode(a', Grown(g, x, l, net), None, i, d)
  {
    AddLeafNode(a, a', g, e, x, l, net, v, i);
    if i == x && d == net.bits[|g.paths[x].bits|] {
      AddLeafNew(a, a', g, e, x, l, net, v, d);
    } else {
      AddLeafLink(a, a', g, e, x, l, net, v, i, d);
    }
    if 2 <= i {
      AddLeafParent(a, a', g, e, x, l, net, v, i);
    }
  }

  /** Hanging a new leaf for `net` off `x`. */
  lemma AddLeaf<V>(a: Arena<V>, a': Arena<V>, g: Shape, e: Option<nat>, x: nat, l: nat, net: Prefix, v: V)
    requires Attachable(a, g, e, x, l, net) && Attached(a, a', g, e, x, l, net, v)
    ensures Wf(a', Grown(g, x, l, net))
  {
    var g' := Grown(g, x, l, net);
    NoNodeAt(a, g, e, x, l, net);
    forall i, d | i in g'.paths ensures AtNode(a', g', None, i, d) {
      if i == l {
        AddLeafNew(a, a', g, e, x, l, net, v, d);
      } else {
        AddLeafOld(a, a', g, e, x, l, net, v, i, d);
      }
    }
  }

  lemma AddLeafStored<V>(a: Arena<V>, a': Arena<V>, g: Shape, m: map<Prefix, V>, e: Option<nat>, x: nat, l: nat,
                         net: Prefix, v: V)
    requires Attachable(a, g, e, x, l, net) && Attached(a, a', g, e, x, l, net, v) && Stores(a, g, m)
    ensures Stores(a', Grown(g, x, l, net), m[net := v]) && net !in m
  {
    var g' := Grown(g, x, l, net);
    NoNodeAt(a, g, e, x, l, net);
    forall i | i in g'.paths ensures Live(a', i) && ValueOk(a', g', m[net := v], i) {
      if i != l {
        assert ValueOk(a, g, m, i) && AtNode(a, g, e, i, true);
      }
    }
  }

  // Splitting an edge -----------------------------------------------------

  /** The node put in the middle of the edge into `c`, `shared` bits down. */
  function Middle<V>(c: Node<V>, id: nat, shared: nat, v: Option<V>): Node<V>
    requires shared < c.len <= WIDTH
  {
    NewNode(c.bits, shared, v).WithChild(Shl(c.bits, shared)[0], Some(id))
  }

  /** The child with the first `shared` bits of its edge cut off. */
  function Shortened<V>(c: Node<V>, shared: nat): Node<V>
    requires shared < c.len <= WIDTH
  {
    c.(bits := Shl(c.bits, shared), len := c.len - shared)
  }

  lemma SplitEdges<V>(c: Node<V>, id: nat, shared: nat, v: Option<V>)
    requires 0 < shared < c.len && IsRun(c.bits, c.len)
    ensures var mid, low := Middle(c, id, shared, v), Shortened(c, shared);
            && IsRun(mid.bits, mid.len) && IsRun(low.bits, low.len)
            && mid.Edge() + low.Edge() == c.Edge() && mid.Edge() == c.Edge()[..shared]
            && mid.bits[0] == c.bits[0] && mid.value == v
            && mid.Child(low.bits[0]) == Some(id) && mid.Child(!low.bits[0]) == None
  {
    MaskIsRun(c.bits, shared);
    ShlDrops(c.bits, c.len, shared);
    assert c.bits[..shared] + c.bits[shared..c.len] == c.bits[..c.len];
  }

  /** The edge from `x` to its `b` child `c` can be split `shared` bits down, at the vacant slot `mid`. */
  ghost predicate Splittable<V>(a: Arena<V>, g: Shape, x: nat, b: bool, c: nat, mid: nat, shared: nat) {
    && Wf(a, g) && x in g.paths && a[x].value.Child(b) == Some(c)
    && c in g.paths && 0 < shared < a[c].value.len <= WIDTH
    && 2 <= mid < |a| && a[mid].None?
  }

  function MidPath<V>(a: Arena<V>, g: Shape, x: nat, c: nat, shared: nat): Prefix
    requires x in g.paths && Live(a, c) && shared <= a[c].value.len <= WIDTH
  {
    Prefix(g.paths[x].v6, g.paths[x].bits + a[c].value.Edge()[..shared])
  }

  function SplitShape<V>(a: Arena<V>, g: Shape, x: nat, c: nat, mid: nat, shared: nat): Shape
    requires x in g.paths && Live(a, c) && shared <= a[c].value.len <= WIDTH
  {
    var p := MidPath(a, g, x, c, shared);
    Shape(g.paths[mid := p], g.parents[mid := x][c := mid], g.nodes[p := mid])
  }

  ghost predicate Splits<V>(a: Arena<V>, a': Arena<V>, g: Shape, x: nat, b: bool, c: nat, mid: nat, shared: nat,
                            v: Option<V>)
    requires Splittable(a, g, x, b, c, mid, shared)
  {
    && Same(a, a', {x, c, mid})
    && a'[mid] == Some(Middle(a[c].value, c, shared, v))
    && a'[c] == Some(Shortened(a[c].value, shared))
    && a'[x] == Some(a[x].value.WithChild(b, Some(mid)))
  }

  lemma NoNodeBetween<V>(a: Arena<V>, g: Shape, x: nat, b: bool, c: nat, mid: nat, shared: nat)
    requires Splittable(a, g, x, b, c, mid, shared)
    ensures MidPath(a, g, x, c, shared) !in g.nodes
    ensures x != c && IsRun(a[c].value.bits, a[c].value.len)
    ensures g.paths[c] == Prefix(g.paths[x].v6, g.paths[x].bits + a[c].value.Edge())
    ensures |MidPath(a, g, x, c, shared).bits| <= AddressBits(g.paths[x].v6) && a[c].value.bits[0] == b
    ensures 2 <= c && c in g.parents && g.parents[c] == x
  {
    assert AtNode(a, g, None, x, b) && AtNode(a, g, None, c, b);
    var p := MidPath(a, g, x, c, shared);
    assert p.bits[|g.paths[x].bits|] == b;
    if p in g.nodes {
      Descend(a, g, None, x, g.nodes[p]);
      assert false;
    }
  }

  /** The link from the parent to the middle node. */
  lemma SplitLinkTop<V>(a: Arena<V>, a': Arena<V>, g: Shape, x: nat, b: bool, c: nat, mid: nat, shared: nat,
                        v: Option<V>)
    requires Splittable(a, g, x, b, c, mid, shared) && Splits(a, a', g, x, b, c, mid, shared, v)
    ensures LinkOk(a', SplitShape(a, g, x, c, mid, shared), x, b)
  {
    NoNodeBetween(a, g, x, b, c, mid, shared);
    SplitEdges(a[c].value, c, shared, v);
  }

  /** The link from the middle node to the old child. */
  lemma SplitLinkNew<V>(a: Arena<V>, a': Arena<V>, g: Shape, x: nat, b: bool, c: nat, mid: nat, shared: nat,
                        v: Option<V>, d: bool)
    requires Splittable(a, g, x, b, c, mid, shared) && Splits(a, a', g, x, b, c, mid, shared, v)
    ensures LinkOk(a', SplitShape(a, g, x, c, mid, shared), mid, d)
  {
    NoNodeBetween(a, g, x, b, c, mid, shared);
    SplitEdges(a[c].value, c, shared, v);
    assert MidPath(a, g, x, c, shared).bits + a'[c].value.Edge() == g.paths[c].bits;
  }

  lemma SplitLinkOld<V>(a: Arena<V>, a': Arena<V>, g: Shape, x: nat, b: bool, c: nat, mid: nat, shared: nat,
                        v: Option<V>, i: nat, d: bool)
    requires Splittable(a, g, x, b, c, mid, shared) && Splits(a, a', g, x, b, c, mid, shared, v)
    requires i in g.paths && !(i == x && d == b)
    ensures Live(a', i) && LinkOk(a', SplitShape(a, g, x, c, mid, shared), i, d)
  {
    NoNodeBetween(a, g, x, b, c, mid, shared);
    assert AtNode(a, g, None, i, d);
    assert a'[i].value.Child(d) == a[i].value.Child(d) != Some(c);
    LinkKept(a, a', g, SplitShape(a, g, x, c, mid, shared), i, d);
  }

  lemma SplitNode<V>(a: Arena<V>, a': Arena<V>, g: Shape, x: nat, b: bool, c: nat, mid: nat, shared: nat,
                     v: Option<V>, i: nat)
    requires Splittable(a, g, x, b, c, mid, shared) && Splits(a, a', g, x, b, c, mid, shared, v)
    requires i == mid || i in g.paths
    ensures Live(a', i) && NodeOk(a', SplitShape(a, g, x, c, mid, shared), i)
  {
    NoNodeBetween(a, g, x, b, c, mid, shared);
    SplitEdges(a[c].value, c, shared, v);
    assert AtNode(a, g, None, c, true);
    if i != mid {
      assert AtNode(a, g, None, i, true);
    }
  }

  lemma SplitParent<V>(a: Arena<V>, a': Arena<V>, g: Shape, x: nat, b: bool, c: nat, mid: nat, shared: nat,
                       v: Option<V>, i: nat)
    requires Splittable(a, g, x, b, c, mid, shared) && Splits(a, a', g, x, b, c, mid, shared, v)
    requires 2 <= i && (i == mid || i in g.paths)
    ensures Live(a', i) && ParentOk(a', SplitShape(a, g, x, c, mid, shared), i)
    ensures i == mid || Compressed(a'[i].value)
  {
    NoNodeBetween(a, g, x, b, c, mid, shared);
    SplitEdges(a[c].value, c, shared, v);
    assert AtNode(a, g, None, x, b);
    if i != mid {
      assert AtNode(a, g, None, i, true);
    }
  }

  /** Splitting an edge keeps every old path; the middle node still needs a value or a second child. */
  lemma Split<V>(a: Arena<V>, a': Arena<V>, g: Shape, x: nat, b: bool, c: nat, mid: nat, shared: nat, v: Option<V>)
    requires Splittable(a, g, x, b, c, mid, shared) && Splits(a, a', g, x, b, c, mid, shared, v)
    ensures WfExcept(a', SplitShape(a, g, x, c, mid, shared), if v.Some? then None else Some(mid))
  {
    var g', e := SplitShape(a, g, x, c, mid, shared), if v.Some? then None else Some(mid);
    NoNodeBetween(a, g, x, b, c, mid, shared);
    SplitEdges(a[c].value, c, shared, v);
    forall i, d | i in g'.paths ensures AtNode(a', g', e, i, d) {
      SplitNode(a, a', g, x, b, c, mid, shared, v, i);
      SplitLinkTop(a, a', g, x, b, c, mid, shared, v);
      SplitLinkNew(a, a', g, x, b, c, mid, shared, v, d);
      if i in g.paths && !(i == x && d == b) {
        SplitLinkOld(a, a', g, x, b, c, mid, shared, v, i, d);
      }
      if 2 <= i {
        SplitParent(a, a', g, x, b, c, mid, shared, v, i);
      }
    }
  }

  lemma SplitStored<V>(a: Arena<V>, a': Arena<V>, g: Shape, m: map<Prefix, V>, x: nat, b: bool, c: nat, mid: nat,
                       shared: nat, v: Option<V>)
    requires Splittable(a, g, x, b, c, mid, shared) && Splits(a, a', g, x, b, c, mid, shared, v) && Stores(a, g, m)
    ensures var p := MidPath(a, g, x, c, shared);
            Stores(a', SplitShape(a, g, x, c, mid, shared), if v.Some? then m[p := v.value] else m) && p !in m
  {
    var p, g' := MidPath(a, g, x, c, shared), SplitShape(a, g, x, c, mid, shared);
    var m' := if v.Some? then m[p := v.value] else m;
    NoNodeBetween(a, g, x, b, c, mid, shared);
    SplitEdges(a[c].value, c, shared, v);
    forall i | i in g'.paths ensures Live(a', i) && ValueOk(a', g', m', i) {
      if i != mid {
        assert ValueOk(a, g, m, i) && AtNode(a, g, None, i, true);
      }
    }
  }

  // Dropping and merging nodes ---------------------------------------------

  /** The shape without node `x`. */
  function Shrunk(g: Shape, x: nat): Shape
    requires x in g.paths
  {
    Shape(g.paths - {x}, g.parents - {x}, g.nodes - {g.paths[x]})
  }

  /** A valueless non-root node `x`, the `b` child of `p`. */
  ghost predicate Removable<V>(a: Arena<V>, g: Shape, p: nat, b: bool, x: nat) {
    && WfExcept(a, g, Some(x)) && 2 <= x && x in g.paths && p in g.paths
    && a[p].value.Child(b) == Some(x) && a[x].value.value == None
  }

  lemma RemovableFacts<V>(a: Arena<V>, g: Shape, p: nat, b: bool, x: nat)
    requires Removable(a, g, p, b, x)
    ensures x in g.parents && g.parents[x] == p && p != x && a[x].value.len > 0 && a[x].value.bits[0] == b
    ensures IsRun(a[x].value.bits, a[x].value.len)
    ensures g.paths[x] == Prefix(g.paths[p].v6, g.paths[p].bits + a[x].value.Edge())
    ensures forall i, d | i in g.paths && a[i].value.Child(d) == Some(x) :: i == p && d == b
    ensures forall i | i in g.paths && i != x :: g.paths[i] != g.paths[x]
  {
    assert AtNode(a, g, Some(x), p, b) && AtNode(a, g, Some(x), x, b);
    forall i, d | i in g.paths && a[i].value.Child(d) == Some(x) ensures i == p && d == b {
      assert AtNode(a, g, Some(x), i, d);
    }
    forall i | i in g.paths && i != x ensures g.paths[i] != g.paths[x] {
      assert AtNode(a, g, Some(x), i, b);
    }
  }

  ghost predicate Dropped<V>(a: Arena<V>, a': Arena<V>, p: nat, b: bool, x: nat)
    requires Live(a, p) && x < |a|
  {
    && Same(a, a', {p, x}) && a'[x] == None
    && a'[p] == Some(a[p].value.WithChild(b, None))
  }

  lemma DropAt<V>(a: Arena<V>, a': Arena<V>, g: Shape, p: nat, b: bool, x: nat, i: nat, d: bool)
    requires Removable(a, g, p, b, x) && a[x].value.zero.None? && a[x].value.one.None?
    requires Dropped(a, a', p, b, x) && i in g.paths && i != x && p != x
    ensures Live(a', i) && NodeOk(a', Shrunk(g, x), i) && LinkOk(a', Shrunk(g, x), i, d)
    ensures 2 <= i && i != p ==> Compressed(a'[i].value)
  {
    RemovableFacts(a, g, p, b, x);
    assert AtNode(a, g, Some(x), i, d);
    assert a'[i].value.Child(d) == if i == p && d == b then None else a[i].value.Child(d);
    if !(i == p && d == b) {
      LinkKept(a, a', g, Shrunk(g, x), i, d);
    }
  }

  lemma DropParent<V>(a: Arena<V>, a': Arena<V>, g: Shape, p: nat, b: bool, x: nat, i: nat)
    requires Removable(a, g, p, b, x) && a[x].value.zero.None? && a[x].value.one.None?
    requires Dropped(a, a', p, b, x) && i in g.paths && i != x && p != x && 2 <= i
    ensures Live(a', i) && ParentOk(a', Shrunk(g, x), i)
  {
    RemovableFacts(a, g, p, b, x);
    assert AtNode(a, g, Some(x), i, true);
    assert AtNode(a, g, Some(x), g.parents[i], a[i].value.bits[0]);
    assert a'[i].value.bits == a[i].value.bits && a'[i].value.len == a[i].value.len;
  }

  /** Dropping a childless node; its parent may then have to be merged. */
  lemma Drop<V>(a: Arena<V>, a': Arena<V>, g: Shape, p: nat, b: bool, x: nat)
    requires Removable(a, g, p, b, x) && a[x].value.zero.None? && a[x].value.one.None?
    requires Dropped(a, a', p, b, x)
    ensures WfExcept(a', Shrunk(g, x), Some(p))
    ensures p < 2 || Compressed(a[p].value.WithChild(b, None)) ==> Wf(a', Shrunk(g, x))
  {
    RemovableFacts(a, g, p, b, x);
    var g' := Shrunk(g, x);
    forall i, d | i in g'.paths
      ensures AtNode(a', g', Some(p), i, d)
      ensures p < 2 || Compressed(a[p].value.WithChild(b, None)) ==> AtNode(a', g', None, i, d)
    {
      DropAt(a, a', g, p, b, x, i, d);
      if 2 <= i {
        DropParent(a, a', g, p, b, x, i);
      }
    }
  }

  lemma DropStored<V>(a: Arena<V>, a': Arena<V>, g: Shape, m: map<Prefix, V>, p: nat, b: bool, x: nat)
    requires Removable(a, g, p, b, x) && Stores(a, g, m) && Dropped(a, a', p, b, x)
    ensures Stores(a', Shrunk(g, x), m)
  {
    RemovableFacts(a, g, p, b, x);
    assert ValueOk(a, g, m, x);
    forall i | i in Shrunk(g, x).paths ensures Live(a', i) && ValueOk(a', Shrunk(g, x), m, i) {
      assert ValueOk(a, g, m, i);
    }
  }

  /** The child with the removed node's edge put in front of its own. */
  function Joined<V>(x: Node<V>, c: Node<V>): Node<V> {
    c.(bits := Or(x.bits, Shr(c.bits, x.len)), len := c.len + x.len)
  }

  ghost predicate Merges<V>(a: Arena<V>, a': Arena<V>, p: nat, b: bool, x: nat, c: nat)
    requires Live(a, p) && Live(a, x) && Live(a, c)
  {
    && Same(a, a', {p, x, c}) && a'[x] == None
    && a'[c] == Some(Joined(a[x].value, a[c].value))
    && a'[p] == Some(a[p].value.WithChild(b, Some(c)))
  }

  function MergedShape(g: Shape, p: nat, x: nat, c: nat): Shape
    requires x in g.paths
  {
    Shape(g.paths - {x}, (g.parents - {x})[c := p], g.nodes - {g.paths[x]})
  }

  /** `c` is the only child of the removable node `x`. */
  ghost predicate OnlyChild<V>(a: Arena<V>, g: Shape, p: nat, b: bool, x: nat, k: bool, c: nat) {
    && Removable(a, g, p, b, x)
    && a[x].value.Child(k) == Some(c) && a[x].value.Child(!k) == None
    && Live(a, c)
  }

  /** Joining two edges gives one masked edge that spans both. */
  lemma JoinedEdge<V>(n: Node<V>, m: Node<V>)
    requires IsRun(n.bits, n.len) && IsRun(m.bits, m.len) && n.len > 0 && n.len + m.len <= WIDTH
    ensures var j := Joined(n, m);
            IsRun(j.bits, j.len) && j.len == n.len + m.len && j.Edge() == n.Edge() + m.Edge() && j.bits[0] == n.bits[0]
  {
    OrJoins(n.bits, n.len, m.bits, m.len);
    var j := Joined(n, m);
    assert j.bits[0] == j.Edge()[0] == n.Edge()[0];
  }

  /** No other node has `c` for a child. */
  lemma MergeUnique<V>(a: Arena<V>, g: Shape, p: nat, b: bool, x: nat, k: bool, c: nat, i: nat, d: bool)
    requires OnlyChild(a, g, p, b, x, k, c) && i in g.paths && a[i].value.Child(d) == Some(c)
    ensures i == x
  {
    RemovableFacts(a, g, p, b, x);
    assert AtNode(a, g, Some(x), x, k) && AtNode(a, g, Some(x), i, d);
  }

  lemma MergeFacts<V>(a: Arena<V>, g: Shape, p: nat, b: bool, x: nat, k: bool, c: nat)
    requires OnlyChild(a, g, p, b, x, k, c)
    ensures c in g.paths && 2 <= c && c != x && c != p && c in g.parents && g.parents[c] == x
    ensures var j := Joined(a[x].value, a[c].value);
            && IsRun(j.bits, j.len) && j.len > 0 && j.bits[0] == b
            && g.paths[c] == Prefix(g.paths[p].v6, g.paths[p].bits + j.Edge())
  {
    RemovableFacts(a, g, p, b, x);
    assert AtNode(a, g, Some(x), x, k) && AtNode(a, g, Some(x), c, k);
    var n, m := a[x].value, a[c].value;
    assert |g.paths[c].bits| == |g.paths[p].bits| + n.len + m.len;
    JoinedEdge(n, m);
    assert g.paths[p].bits + (n.Edge() + m.Edge()) == (g.paths[p].bits + n.Edge()) + m.Edge();
  }

  lemma MergeAt<V>(a: Arena<V>, a': Arena<V>, g: Shape, p: nat, b: bool, x: nat, k: bool, c: nat, i: nat, d: bool)
    requires OnlyChild(a, g, p, b, x, k, c) && Merges(a, a', p, b, x, c)
    requires i in g.paths && i != x
    ensures Live(a', i) && LinkOk(a', MergedShape(g, p, x, c), i, d)
  {
    RemovableFacts(a, g, p, b, x);
    MergeFacts(a, g, p, b, x, k, c);
    assert AtNode(a, g, Some(x), i, d);
    if !(i == p && d == b) {
      MergeOtherLink(a, a', g, p, b, x, k, c, i, d);
    }
  }

  lemma MergeOtherLink<V>(a: Arena<V>, a': Arena<V>, g: Shape, p: nat, b: bool, x: nat, k: bool, c: nat, i: nat,
                          d: bool)
    requires OnlyChild(a, g, p, b, x, k, c) && Merges(a, a', p, b, x, c)
    requires i in g.paths && i != x && !(i == p && d == b) && c != x && c != p
    ensures Live(a', i) && LinkOk(a', MergedShape(g, p, x, c), i, d)
  {
    RemovableFacts(a, g, p, b, x);
    assert AtNode(a, g, Some(x), i, d);
    assert a'[i].value.Child(d) == a[i].value.Child(d);
    if a[i].value.Child(d) == Some(c) {
      MergeUnique(a, g, p, b, x, k, c, i, d);
    }
    LinkKept(a, a', g, MergedShape(g, p, x, c), i, d);
  }

  lemma MergeNode<V>(a: Arena<V>, a': Arena<V>, g: Shape, p: nat, b: bool, x: nat, k: bool, c: nat, i: nat)
    requires OnlyChild(a, g, p, b, x, k, c) && Merges(a, a', p, b, x, c)
    requires i in g.paths && i != x
    ensures Live(a', i) && NodeOk(a', MergedShape(g, p, x, c), i)
    ensures 2 <= i ==> Compressed(a'[i].value)
  {
    RemovableFacts(a, g, p, b, x);
    MergeFacts(a, g, p, b, x, k, c);
    assert AtNode(a, g, Some(x), i, true);
  }

  lemma MergeParent<V>(a: Arena<V>, a': Arena<V>, g: Shape, p: nat, b: bool, x: nat, k: bool, c: nat, i: nat)
    requires OnlyChild(a, g, p, b, x, k, c) && Merges(a, a', p, b, x, c)
    requires i in g.paths && i != x && 2 <= i
    ensures Live(a', i) && ParentOk(a', MergedShape(g, p, x, c), i)
  {
    RemovableFacts(a, g, p, b, x);
    MergeFacts(a, g, p, b, x, k, c);
    if i != c {
      assert AtNode(a, g, Some(x), i, true);
      assert AtNode(a, g, Some(x), g.parents[i], a[i].value.bits[0]);
      assert a'[i].value.bits == a[i].value.bits && a'[i].value.len == a[i].value.len;
    }
  }

  /** Merging a single-child node into its child. */
  lemma Merge<V>(a: Arena<V>, a': Arena<V>, g: Shape, p: nat, b: bool, x: nat, k: bool, c: nat)
    requires OnlyChild(a, g, p, b, x, k, c) && Merges(a, a', p, b, x, c)
    ensures Wf(a', MergedShape(g, p, x, c))
  {
    RemovableFacts(a, g, p, b, x);
    var g' := MergedShape(g, p, x, c);
    forall i, d | i in g'.paths ensures AtNode(a', g', None, i, d) {
      MergeNode(a, a', g, p, b, x, k, c, i);
      MergeAt(a, a', g, p, b, x, k, c, i, d);
      if 2 <= i {
        MergeParent(a, a', g, p, b, x, k, c, i);
      }
    }
  }

  lemma MergeStored<V>(a: Arena<V>, a': Arena<V>, g: Shape, m: map<Prefix, V>, p: nat, b: bool, x: nat, k: bool, c: nat)
    requires OnlyChild(a, g, p, b, x, k, c) && Merges(a, a', p, b, x, c) && Stores(a, g, m)
    ensures Stores(a', MergedShape(g, p, x, c), m)
  {
    RemovableFacts(a, g, p, b, x);
    assert ValueOk(a, g, m, x);
    forall i | i in MergedShape(g, p, x, c).paths ensures Live(a', i) && ValueOk(a', MergedShape(g, p, x, c), m, i) {
      assert ValueOk(a, g, m, i);
    }
  }
}
