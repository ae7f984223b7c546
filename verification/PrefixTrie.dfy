/**
 The fixed-capacity prefix trie: the mutable arena, its allocator, and the four
 public operations, proved against a plain map from prefixes to values.
 */
module PrefixTrie {
  import opened Common
  import opened Bits
  import opened Trie

  // ---------------------------------------------------------------------
  // Reference: a plain map with longest-prefix match
  // ---------------------------------------------------------------------

  /** The value of the longest stored prefix among the first `n` bits of the address. */
  function LongestMatch<V>(m: map<Prefix, V>, v6: bool, bits: seq<bool>, n: nat): Option<V>
    requires n <= |bits|
  {
    if Prefix(v6, bits[..n]) in m then Some(m[Prefix(v6, bits[..n])])
    else if n == 0 then None
    else LongestMatch(m, v6, bits, n - 1)
  }

  predicate Covers(p: Prefix, v6: bool, bits: seq<bool>) {
    p.v6 == v6 && p.bits <= bits
  }

  /** What "longest match" means: the answer is stored, covers the address, and nothing longer does. */
  lemma {:induction false} LongestMatchIsLongest<V>(m: map<Prefix, V>, v6: bool, bits: seq<bool>, n: nat)
    requires n <= |bits|
    ensures var r := LongestMatch(m, v6, bits, n);
            && (r.None? <==> forall p | p in m && Covers(p, v6, bits) :: |p.bits| > n)
            && (r.Some? ==> exists p :: p in m && Covers(p, v6, bits) && |p.bits| <= n && r.value == m[p]
                              && forall q | q in m && Covers(q, v6, bits) && |q.bits| <= n :: |q.bits| <= |p.bits|)
  {
    var here := Prefix(v6, bits[..n]);
    assert forall p | p in m && Covers(p, v6, bits) && |p.bits| == n :: p == here;
    if here !in m && n > 0 {
      LongestMatchIsLongest(m, v6, bits, n - 1);
    }
  }

  lemma {:induction false} NothingBetween<V>(m: map<Prefix, V>, v6: bool, bits: seq<bool>, lo: nat, hi: nat)
    requires lo <= hi <= |bits|
    requires forall n | lo < n <= hi :: Prefix(v6, bits[..n]) !in m
    ensures LongestMatch(m, v6, bits, hi) == LongestMatch(m, v6, bits, lo)
  {
    if lo < hi {
      NothingBetween(m, v6, bits, lo, hi - 1);
    }
  }

  // ---------------------------------------------------------------------
  // Capacity
  // ---------------------------------------------------------------------

  function ChildOf<V>(a: Arena<V>, i: nat, b: bool): nat {
    if Live(a, i) && a[i].value.Child(b).Some? then a[i].value.Child(b).value else 0
  }

  function NonDefault<V>(m: map<Prefix, V>): set<Prefix> {
    set p | p in m && p.bits != []
  }

  function NonRoot(g: Shape): set<nat> {
    set i: nat | i in g.paths && 2 <= i
  }

  /** The non-root nodes without, and with, a value. */
  function Inner<V>(a: Arena<V>, g: Shape): set<nat> {
    set i: nat | i in g.paths && 2 <= i && Live(a, i) && a[i].value.value.None?
  }

  function Valued<V>(a: Arena<V>, g: Shape): set<nat> {
    set i: nat | i in g.paths && 2 <= i && Live(a, i) && a[i].value.value.Some?
  }

  /** Valueless non-root nodes have two children each, and no two nodes share a child. */
  lemma TwoChildrenEach<V>(a: Arena<V>, g: Shape)
    requires Wf(a, g)
    ensures 2 * |Inner(a, g)| <= |NonRoot(g)|
  {
    var all, inner := NonRoot(g), Inner(a, g);
    var ones := set i: nat | i in all && a[i].value.len > 0 && a[i].value.bits[0];
    forall b: bool, i | i in inner
      ensures ChildOf(a, i, b) in (if b then ones else all - ones)
      ensures ChildOf(a, i, b) in g.parents && g.parents[ChildOf(a, i, b)] == i
    {
      assert AtNode(a, g, None, i, b);
    }
    InjectionSize(inner, ones, i => ChildOf(a, i, true));
    InjectionSize(inner, all - ones, i => ChildOf(a, i, false));
    assert |all| == |ones| + |all - ones|;
  }

  /** Valued non-root nodes are no more than the stored non-default prefixes. */
  lemma ValuedNodes<V>(a: Arena<V>, g: Shape, m: map<Prefix, V>)
    requires Wf(a, g) && Stores(a, g, m)
    ensures |Valued(a, g)| <= |NonDefault(m)|
  {
    forall i | i in Valued(a, g)
      ensures g.paths[i] in NonDefault(m) && g.paths[i] in g.nodes && g.nodes[g.paths[i]] == i
    {
      assert ValueOk(a, g, m, i) && AtNode(a, g, None, i, true);
      assert AtNode(a, g, None, g.parents[i], a[i].value.bits[0]);
    }
    InjectionSize(Valued(a, g), NonDefault(m), i => if i in g.paths then g.paths[i] else Prefix(false, []));
  }

  lemma NodesAndRoots<V>(a: Arena<V>, g: Shape)
    requires Wf(a, g)
    ensures |g.paths| <= |NonRoot(g)| + 2
  {
    forall i | i in g.paths ensures i in NonRoot(g) + {V4_ROOT, V6_ROOT} {
    }
    InjectionSize(g.paths.Keys, NonRoot(g) + {V4_ROOT, V6_ROOT}, i => i);
    UnionSize(NonRoot(g), {V4_ROOT, V6_ROOT});
  }

  /** At most twice as many live non-root nodes as stored non-default prefixes. */
  lemma NonRootBound<V>(a: Arena<V>, g: Shape, m: map<Prefix, V>)
    requires Wf(a, g) && Stores(a, g, m)
    ensures |NonRoot(g)| <= 2 * |NonDefault(m)|
  {
    TwoChildrenEach(a, g);
    ValuedNodes(a, g, m);
    assert NonRoot(g) == Inner(a, g) + Valued(a, g);
    UnionSize(Inner(a, g), Valued(a, g));
  }

  /** Two roots and two nodes per stored prefix are enough for any set of prefixes. */
  lemma NodeBound<V>(a: Arena<V>, g: Shape, m: map<Prefix, V>)
    requires Wf(a, g) && Stores(a, g, m)
    ensures |g.paths| <= 2 + 2 * |NonDefault(m)| && |NonDefault(m)| <= |m|
  {
    NodesAndRoots(a, g);
    NonRootBound(a, g, m);
    InjectionSize(NonDefault(m), m.Keys, p => p);
  }

  lemma UnionSize<T>(s: set<T>, t: set<T>)
    ensures |s + t| <= |s| + |t|
  {
    assert s + t == s + (t - s);
    InjectionSize(t - s, t, x => x);
  }

  /** A pool with nodes to spare has a vacant slot. */
  lemma VacantSlot<V>(a: Arena<V>, g: Shape, e: Option<nat>)
    requires WfExcept(a, g, e) && |g.paths| < |a|
    ensures exists i: nat :: 2 <= i < |a| && a[i].None?
  {
    if forall i: nat | 2 <= i < |a| :: a[i].Some? {
      FullPool(a, g, e);
      assert false;
    }
  }

  lemma FullPool<V>(a: Arena<V>, g: Shape, e: Option<nat>)
    requires WfExcept(a, g, e) && forall i: nat | 2 <= i < |a| :: a[i].Some?
    ensures |g.paths| == |a|
  {
    assert forall i: nat | i < |a| :: Live(a, i);
    assert g.paths.Keys == Range(|a|);
  }

  // ---------------------------------------------------------------------
  // Comparing a run of bits with an edge
  // ---------------------------------------------------------------------

  predicate EdgeMatch<V>(c: Node<V>, rest: Word, rem: nat) {
    c.len <= rem && c.len <= WIDTH && CommonLen(rest, c.bits, c.len) == c.len
  }

  /** The shifted key agrees with the wanted bits, and the agreement ends where the bits part. */
  lemma RestBits(bits: seq<bool>, pos: nat, w: Word, n: nat)
    requires pos + n <= |bits| <= WIDTH
    ensures Shl(Pad(bits), pos)[..n] == bits[pos..pos + n]
    ensures pos < |bits| ==> Pad(bits)[pos] == bits[pos]
    ensures CommonLen(Shl(Pad(bits), pos), w, n) == CommonLen(bits[pos..], w, n)
  {
    ShlDrops(Pad(bits), |bits|, pos);
    var rest := Shl(Pad(bits), pos);
    assert rest[..|bits| - pos] == bits[pos..];
    assert forall k | 0 <= k < n :: rest[k] == bits[pos + k] == bits[pos..][k];
    CommonLenUnique(rest, bits[pos..], w, n);
  }

  lemma CommonLenUnique(a: seq<bool>, b: seq<bool>, w: seq<bool>, n: nat)
    requires n <= |a| && n <= |b| && n <= |w| && forall k | 0 <= k < n :: a[k] == b[k]
    ensures CommonLen(a, w, n) == CommonLen(b, w, n)
  {
  }

  /** Bits that agree with an edge go on with it, and bits that part from it do not. */
  lemma EdgeContinues(edge: seq<bool>, bits: seq<bool>, pos: nat)
    requires pos + |edge| <= |bits|
    ensures bits[..pos] + edge <= bits <==> bits[pos..pos + |edge|] == edge
    ensures bits[pos..pos + |edge|] == edge ==> bits[..pos + |edge|] == bits[..pos] + edge
  {
    assert bits[..pos + |edge|] == bits[..pos] + bits[pos..pos + |edge|];
    if bits[..pos] + edge <= bits {
      assert bits[..pos] + edge == bits[..pos + |edge|];
      assert edge == (bits[..pos] + edge)[pos..] == bits[pos..pos + |edge|];
    }
  }

  /** An edge matches exactly when the child's path is a prefix of the wanted bits. */
  lemma EdgeMatchMeaning<V>(c: Node<V>, bits: seq<bool>, pos: nat)
    requires pos <= |bits| <= WIDTH && c.len <= WIDTH
    ensures EdgeMatch(c, Shl(Pad(bits), pos), |bits| - pos) <==> bits[..pos] + c.Edge() <= bits
    ensures EdgeMatch(c, Shl(Pad(bits), pos), |bits| - pos) ==> bits[..pos + c.len] == bits[..pos] + c.Edge()
  {
    if c.len <= |bits| - pos {
      var rest := Shl(Pad(bits), pos);
      RestBits(bits, pos, c.bits, c.len);
      EdgeContinues(c.Edge(), bits, pos);
      assert CommonLen(rest, c.bits, c.len) == c.len <==> rest[..c.len] == c.bits[..c.len];
    }
  }

  // ---------------------------------------------------------------------
  // Walking down
  // ---------------------------------------------------------------------

  /** Node `x` is the one whose path is the first `pos` bits of the prefix or address `t`. */
  ghost predicate Reached(g: Shape, t: Prefix, x: nat, pos: nat) {
    && pos <= |t.bits| <= AddressBits(t.v6)
    && x in g.paths && g.paths[x] == Prefix(t.v6, t.bits[..pos])
  }

  /** No live node lies on the way to `t` strictly after `lo` and up to `hi` bits down. */
  ghost predicate Bare(g: Shape, t: Prefix, lo: nat, hi: nat) {
    hi <= |t.bits| && forall n | lo < n <= hi :: Prefix(t.v6, t.bits[..n]) !in g.nodes
  }

  lemma RootReached<V>(a: Arena<V>, g: Shape, t: Prefix)
    requires Wf(a, g) && |t.bits| <= AddressBits(t.v6)
    ensures Reached(g, t, RootOf(t.v6), 0)
  {
  }

  /** One step of the walk: the child in the next bit's direction, if its edge fits, is the next live node. */
  lemma WalkStep<V>(a: Arena<V>, g: Shape, t: Prefix, x: nat, pos: nat)
    requires Wf(a, g) && Reached(g, t, x, pos) && pos < |t.bits|
    ensures Pad(t.bits)[pos] == t.bits[pos]
    ensures match a[x].value.Child(t.bits[pos])
            case None => Bare(g, t, pos, |t.bits|)
            case Some(c) =>
              && Live(a, c) && c in g.paths && 2 <= c && 0 < a[c].value.len <= WIDTH
              && a[c].value.bits[0] == t.bits[pos]
              && if EdgeMatch(a[c].value, Shl(Pad(t.bits), pos), |t.bits| - pos)
                 then Reached(g, t, c, pos + a[c].value.len) && Bare(g, t, pos, pos + a[c].value.len - 1)
                 else Bare(g, t, pos, |t.bits|)
  {
    var b, bits := t.bits[pos], t.bits;
    assert AtNode(a, g, None, x, b);
    RestBits(bits, pos, Pad(bits), 0);
    var child := a[x].value.Child(b);
    if child.Some? {
      EdgeMatchMeaning(a[child.value].value, bits, pos);
    }
    forall n | pos < n <= |bits| && Prefix(t.v6, bits[..n]) in g.nodes
      ensures child.Some? && bits[..pos] + a[child.value].value.Edge() <= bits && pos + a[child.value].value.len <= n
    {
      var y := g.nodes[Prefix(t.v6, bits[..n])];
      assert bits[..pos] <= bits[..n] && bits[..n][pos] == b;
      Descend(a, g, None, x, y);
      assert g.paths[child.value].bits <= bits[..n] <= bits;
    }
  }

  /** Where no live node lies, nothing better matches. */
  lemma BareMatch<V>(g: Shape, m: map<Prefix, V>, t: Prefix, lo: nat, hi: nat)
    requires m.Keys <= g.nodes.Keys && lo <= hi && Bare(g, t, lo, hi)
    ensures LongestMatch(m, t.v6, t.bits, hi) == LongestMatch(m, t.v6, t.bits, lo)
  {
    NothingBetween(m, t.v6, t.bits, lo, hi);
  }

  /** At the next live node, its value is the better match if it has one. */
  lemma NodeMatch<V>(a: Arena<V>, g: Shape, m: map<Prefix, V>, t: Prefix, c: nat, pos: nat, end: nat)
    requires Stores(a, g, m) && pos < end && Reached(g, t, c, end) && Bare(g, t, pos, end - 1) && Live(a, c)
    ensures LongestMatch(m, t.v6, t.bits, end) ==
            if a[c].value.value.Some? then a[c].value.value else LongestMatch(m, t.v6, t.bits, pos)
  {
    BareMatch(g, m, t, pos, end - 1);
    assert ValueOk(a, g, m, c);
  }

  /** Where the walk ends, no longer prefix matches. */
  lemma MatchEnds<V>(a: Arena<V>, g: Shape, m: map<Prefix, V>, t: Prefix, x: nat, pos: nat)
    requires Wf(a, g) && Stores(a, g, m) && Reached(g, t, x, pos) && pos < |t.bits|
    requires var child := a[x].value.Child(t.bits[pos]);
             child.None? || (Live(a, child.value)
               && !EdgeMatch(a[child.value].value, Shl(Pad(t.bits), pos), |t.bits| - pos))
    ensures LongestMatch(m, t.v6, t.bits, |t.bits|) == LongestMatch(m, t.v6, t.bits, pos)
  {
    WalkStep(a, g, t, x, pos);
    BareMatch(g, m, t, pos, |t.bits|);
  }

  /** Where the walk goes on, the next node's value is the better match if it has one. */
  lemma MatchGoesOn<V>(a: Arena<V>, g: Shape, m: map<Prefix, V>, t: Prefix, x: nat, pos: nat, c: nat)
    requires Wf(a, g) && Stores(a, g, m) && Reached(g, t, x, pos) && pos < |t.bits|
    requires a[x].value.Child(t.bits[pos]) == Some(c) && Live(a, c)
    requires EdgeMatch(a[c].value, Shl(Pad(t.bits), pos), |t.bits| - pos)
    ensures 0 < a[c].value.len && Reached(g, t, c, pos + a[c].value.len)
    ensures LongestMatch(m, t.v6, t.bits, pos + a[c].value.len) ==
            if a[c].value.value.Some? then a[c].value.value else LongestMatch(m, t.v6, t.bits, pos)
  {
    WalkStep(a, g, t, x, pos);
    NodeMatch(a, g, m, t, c, pos, pos + a[c].value.len);
  }

  /** A child is a live node. */
  lemma ChildIsLive<V>(a: Arena<V>, g: Shape, x: nat, b: bool)
    requires Wf(a, g) && x in g.paths
    ensures Live(a, x) && (a[x].value.Child(b).Some? ==> Live(a, a[x].value.Child(b).value))
  {
    assert AtNode(a, g, None, x, b);
  }

  function BareRoots(): Shape {
    Shape(map[V4_ROOT := Prefix(false, []), V6_ROOT := Prefix(true, [])], map[],
          map[Prefix(false, []) := V4_ROOT, Prefix(true, []) := V6_ROOT])
  }

  lemma BareRootsAreTrie<V>(a: Arena<V>)
    requires |a| >= 2 && (forall i: nat | 2 <= i < |a| :: a[i].None?)
    requires a[V4_ROOT] == a[V6_ROOT] == Some(NewNode(Zeros(WIDTH), 0, None))
    ensures Wf(a, BareRoots()) && Stores(a, BareRoots(), map[]) && |BareRoots().paths| == 2
  {
    var g := BareRoots();
    assert g.paths.Keys == {V4_ROOT, V6_ROOT};
    forall i, b | i in g.paths ensures AtNode(a, g, None, i, b) {
      BareRootOk(a, i, b);
    }
    BareRootsStoreNothing(a);
  }

  lemma BareRootsStoreNothing<V>(a: Arena<V>)
    requires |a| >= 2 && a[V4_ROOT] == a[V6_ROOT] == Some(NewNode(Zeros(WIDTH), 0, None))
    ensures Stores(a, BareRoots(), map[])
  {
    var g := BareRoots();
    assert g.paths.Keys == {V4_ROOT, V6_ROOT};
    forall i | i in g.paths ensures Live(a, i) && ValueOk(a, g, map[], i) {
    }
  }

  lemma BareRootOk<V>(a: Arena<V>, i: nat, b: bool)
    requires |a| >= 2 && (i == V4_ROOT || i == V6_ROOT)
    requires a[i] == Some(NewNode(Zeros(WIDTH), 0, None))
    ensures AtNode(a, BareRoots(), None, i, b)
  {
    MaskIsRun(Zeros(WIDTH), 0);
  }

  /** The edges from a root down to `node`. */
  ghost predicate Trail<V>(a: Arena<V>, g: Shape, path: seq<(nat, bool)>, node: nat) {
    && node in g.paths && (path == [] <==> node < 2)
    && (forall k {:trigger path[k]} | 0 <= k < |path| ::
          && path[k].0 in g.paths && Live(a, path[k].0) && (k == 0 <==> path[k].0 < 2)
          && a[path[k].0].value.Child(path[k].1) == Some(if k == |path| - 1 then node else path[k + 1].0))
  }

  lemma TrailExtends<V>(a: Arena<V>, g: Shape, path: seq<(nat, bool)>, node: nat, branch: bool, child: nat)
    requires Trail(a, g, path, node) && Live(a, node) && child in g.paths && 2 <= child
    requires a[node].value.Child(branch) == Some(child)
    ensures Trail(a, g, path + [(node, branch)], child)
  {
    var path' := path + [(node, branch)];
    forall k | 0 <= k < |path'|
      ensures path'[k].0 in g.paths && Live(a, path'[k].0) && (k == 0 <==> path'[k].0 < 2)
      ensures a[path'[k].0].value.Child(path'[k].1) == Some(if k == |path'| - 1 then child else path'[k + 1].0)
    {
      if k < |path| {
        assert path'[k] == path[k];
      }
    }
  }

  /** The trail does not depend on values. */
  lemma TrailKept<V>(a: Arena<V>, a': Arena<V>, g: Shape, path: seq<(nat, bool)>, node: nat, x: nat, v: Option<V>)
    requires Trail(a, g, path, node) && Live(a, x) && a' == a[x := Some(a[x].value.(value := v))]
    ensures Trail(a', g, path, node)
  {
  }

  /** On a trail of two edges or more, the grandparent is neither the parent nor the node. */
  lemma GrandparentApart<V>(a: Arena<V>, g: Shape, path: seq<(nat, bool)>, node: nat)
    requires WfExcept(a, g, Some(node)) && Trail(a, g, path, node) && |path| >= 2
    ensures path[|path| - 2].0 != path[|path| - 1].0 && path[|path| - 2].0 != node
    ensures a[path[|path| - 2].0].value.Child(path[|path| - 2].1) == Some(path[|path| - 1].0)
  {
    var (grand, gb) := path[|path| - 2];
    var (parent, b) := path[|path| - 1];
    assert AtNode(a, g, Some(node), grand, gb) && AtNode(a, g, Some(node), parent, b);
    assert |g.paths[grand].bits| < |g.paths[parent].bits| < |g.paths[node].bits|;
  }

  lemma Recompressed<V>(a: Arena<V>, g: Shape, x: nat)
    requires WfExcept(a, g, Some(x)) && Live(a, x) && Compressed(a[x].value)
    ensures Wf(a, g)
  {
    forall i, b | i in g.paths ensures AtNode(a, g, None, i, b) {
      assert AtNode(a, g, Some(x), i, b);
    }
  }

  /** The root pair and any non-root node are three live nodes. */
  lemma NonRootCounted<V>(a: Arena<V>, g: Shape, e: Option<nat>, x: nat)
    requires WfExcept(a, g, e) && x in g.paths && 2 <= x
    ensures |g.paths| >= 3
  {
    var three := {V4_ROOT, V6_ROOT, x};
    InjectionSize(three, g.paths.Keys, i => i);
    assert |three| == 3;
  }

  lemma MergeDistinct<V>(a: Arena<V>, g: Shape, p: nat, b: bool, x: nat, k: bool)
    requires Removable(a, g, p, b, x) && a[x].value.Child(k).Some? && a[x].value.Child(!k).None?
    ensures var c := a[x].value.Child(k).value;
            Live(a, c) && c != x && c != p && p != x
  {
    assert AtNode(a, g, Some(x), x, k);
    MergeFacts(a, g, p, b, x, k, a[x].value.Child(k).value);
    RemovableFacts(a, g, p, b, x);
  }

  /** A whole merge, in terms of the arena before and after. */
  lemma MergeStep<V>(a: Arena<V>, a': Arena<V>, g: Shape, m: map<Prefix, V>, p: nat, b: bool, x: nat, k: bool, c: nat)
    requires OnlyChild(a, g, p, b, x, k, c) && Stores(a, g, m)
    requires c != x && c != p && p != x
    requires a' == a[c := Some(Joined(a[x].value, a[c].value))][p := Some(a[p].value.WithChild(b, Some(c)))][x := None]
    ensures Wf(a', MergedShape(g, p, x, c)) && Stores(a', MergedShape(g, p, x, c), m)
    ensures 3 <= |g.paths| == |MergedShape(g, p, x, c).paths| + 1
  {
    assert Merges(a, a', p, b, x, c);
    Merge(a, a', g, p, b, x, k, c);
    MergeStored(a, a', g, m, p, b, x, k, c);
    NonRootCounted(a, g, Some(x), x);
    OneLess(g, x);
  }

  /** Removing a node from the shape removes one path. */
  lemma OneLess(g: Shape, x: nat)
    requires x in g.paths
    ensures |g.paths - {x}| == |g.paths| - 1
  {
    assert (g.paths - {x}).Keys == g.paths.Keys - {x};
  }

  datatype CapacityError = CapacityError

  // ---------------------------------------------------------------------
  // Where a prefix belongs
  // ---------------------------------------------------------------------

  /** Where the walk for a prefix ends: at its node, at a missing child, or inside the edge into `child`. */
  datatype Spot = AtEnd | NoChild | Diverges(child: nat, shared: nat)

  ghost predicate SpotOk<V>(a: Arena<V>, net: Prefix, node: nat, pos: nat, spot: Spot) {
    && Live(a, node) && pos <= |net.bits|
    && match spot
       case AtEnd => pos == |net.bits|
       case NoChild => pos < |net.bits| && a[node].value.Child(net.bits[pos]).None?
       case Diverges(child, shared) =>
         && pos < |net.bits| && Live(a, child) && a[node].value.Child(net.bits[pos]) == Some(child)
         && 0 < shared < a[child].value.len <= WIDTH && shared <= |net.bits| - pos
         && net.bits[pos..pos + shared] == a[child].value.bits[..shared]
         && (shared < |net.bits| - pos ==> a[child].value.bits[shared] == !net.bits[pos + shared])
  }

  /** Comparing the rest of the prefix with the child's edge decides between going on and stopping inside the edge. */
  lemma CompareEdge<V>(a: Arena<V>, g: Shape, net: Prefix, x: nat, pos: nat, c: nat)
    requires Wf(a, g) && Reached(g, net, x, pos) && pos < |net.bits| && a[x].value.Child(net.bits[pos]) == Some(c)
    ensures Live(a, c) && 0 < a[c].value.len <= WIDTH
    ensures var len := a[c].value.len;
            var shared := CommonLen(Shl(Pad(net.bits), pos), a[c].value.bits, Min(len, |net.bits| - pos));
            if shared == len then Reached(g, net, c, pos + len) else SpotOk(a, net, x, pos, Diverges(c, shared))
  {
    WalkStep(a, g, net, x, pos);
    RestBits(net.bits, pos, a[c].value.bits, Min(a[c].value.len, |net.bits| - pos));
  }

  /** A prefix whose walk ends early is not stored. */
  lemma NotStored<V>(a: Arena<V>, g: Shape, m: map<Prefix, V>, net: Prefix, node: nat, pos: nat, spot: Spot)
    requires Wf(a, g) && Stores(a, g, m) && Reached(g, net, node, pos) && SpotOk(a, net, node, pos, spot)
              && !spot.AtEnd?
    ensures net !in m
  {
    WalkStep(a, g, net, node, pos);
    assert net.bits[..|net.bits|] == net.bits;
    if spot.Diverges? {
      NoEdgeMatch(a[spot.child].value, net.bits, pos, spot.shared);
    }
  }

  /** An edge that parts from the prefix, or outlasts it, does not match. */
  lemma NoEdgeMatch<V>(c: Node<V>, bits: seq<bool>, pos: nat, shared: nat)
    requires pos <= |bits| <= WIDTH && shared < c.len <= WIDTH && shared <= |bits| - pos
    requires shared < |bits| - pos ==> c.bits[shared] == !bits[pos + shared]
    ensures !EdgeMatch(c, Shl(Pad(bits), pos), |bits| - pos)
  {
    EdgeMatchMeaning(c, bits, pos);
    if shared < |bits| - pos {
      assert (bits[..pos] + c.Edge())[pos + shared] == c.bits[shared];
    }
  }

  /** Completing an insertion by hanging the leaf, in terms of the arena before and after. */
  lemma HangLeaf<V>(a: Arena<V>, a': Arena<V>, g: Shape, m: map<Prefix, V>, e: Option<nat>, x: nat, l: nat,
                    net: Prefix, pos: nat, v: V)
    requires WfExcept(a, g, e) && Stores(a, g, m) && Reached(g, net, x, pos) && pos < |net.bits|
    requires 2 <= l < |a| && a[l].None? && a[x].value.Child(net.bits[pos]).None?
    requires e == None || (e == Some(x) && a[x].value.Child(!net.bits[pos]).Some?)
    requires a' == a[l := Some(Leaf(net, pos, v))][x := Some(a[x].value.WithChild(net.bits[pos], Some(l)))]
    ensures Wf(a', Grown(g, x, l, net)) && Stores(a', Grown(g, x, l, net), m[net := v])
    ensures |Grown(g, x, l, net).paths| == |g.paths| + 1
  {
    assert net.bits[..pos] <= net.bits && |net.bits[..pos]| == pos;
    assert Attachable(a, g, e, x, l, net);
    assert Attached(a, a', g, e, x, l, net, v);
    AddLeaf(a, a', g, e, x, l, net, v);
    AddLeafStored(a, a', g, m, e, x, l, net, v);
    assert l !in g.paths;
    assert Grown(g, x, l, net).paths.Keys == g.paths.Keys + {l};
  }

  lemma SecondLeaf<V>(net: Prefix, pos: nat, shared: nat, v: V)
    requires pos + shared <= |net.bits| <= WIDTH
    ensures NewNode(Shl(Shl(Pad(net.bits), pos), shared), |net.bits| - pos - shared, Some(v))
         == Leaf(net, pos + shared, v)
  {
    ShlTwice(Pad(net.bits), pos, shared);
  }

  /** The arena after the edge into `c` is split by `mid`. */
  function SplitArena<V>(a: Arena<V>, x: nat, b: bool, c: nat, mid: nat, shared: nat, v: Option<V>): Arena<V>
    requires Live(a, x) && Live(a, c) && mid < |a| && shared < a[c].value.len <= WIDTH
  {
    a[mid := Some(Middle(a[c].value, c, shared, v))][c := Some(Shortened(a[c].value, shared))]
     [x := Some(a[x].value.WithChild(b, Some(mid)))]
  }

  /** No node is its own child. */
  lemma ChildApart<V>(a: Arena<V>, g: Shape, x: nat, b: bool)
    requires Wf(a, g) && x in g.paths && Live(a, x) && a[x].value.Child(b).Some?
    ensures a[x].value.Child(b) != Some(x)
  {
    assert AtNode(a, g, None, x, b);
  }

  /** Where the walk stops inside an edge, the edge can be split there. */
  lemma SplitPlace<V>(a: Arena<V>, g: Shape, x: nat, c: nat, mid: nat, net: Prefix, pos: nat, shared: nat)
    requires Wf(a, g) && Reached(g, net, x, pos) && c in g.paths && 2 <= mid < |a| && a[mid].None?
    requires SpotOk(a, net, x, pos, Diverges(c, shared))
    ensures Splittable(a, g, x, net.bits[pos], c, mid, shared) && x != c && mid !in g.paths
    ensures MidPath(a, g, x, c, shared) == Prefix(net.v6, net.bits[..pos + shared])
    ensures |SplitShape(a, g, x, c, mid, shared).paths| == |g.paths| + 1
    ensures Reached(SplitShape(a, g, x, c, mid, shared), net, mid, pos + shared)
  {
    assert Splittable(a, g, x, net.bits[pos], c, mid, shared);
    NoNodeBetween(a, g, x, net.bits[pos], c, mid, shared);
    assert SplitShape(a, g, x, c, mid, shared).paths.Keys == g.paths.Keys + {mid};
  }

  lemma SplitArenaSplits<V>(a: Arena<V>, g: Shape, x: nat, b: bool, c: nat, mid: nat, shared: nat, v: Option<V>)
    requires Splittable(a, g, x, b, c, mid, shared) && x != c && Live(a, x) && Live(a, c)
    ensures Splits(a, SplitArena(a, x, b, c, mid, shared, v), g, x, b, c, mid, shared, v)
  {
  }

  /** A middle node without a value still lacks the child on the side the prefix takes. */
  lemma MiddleSides<V>(a: Arena<V>, g: Shape, x: nat, c: nat, mid: nat, net: Prefix, pos: nat, shared: nat)
    requires SpotOk(a, net, x, pos, Diverges(c, shared)) && Splittable(a, g, x, net.bits[pos], c, mid, shared)
    requires shared < |net.bits| - pos
    ensures var n := Middle(a[c].value, c, shared, None);
            n.Child(net.bits[pos + shared]).None? && n.Child(!net.bits[pos + shared]).Some?
  {
    NoNodeBetween(a, g, x, net.bits[pos], c, mid, shared);
    SplitEdges(a[c].value, c, shared, None);
    ShlDrops(a[c].value.bits, a[c].value.len, shared);
  }

  /** Splitting the edge where the prefix parts from it, in terms of the arena before and after. */
  lemma SplitEdge<V>(a: Arena<V>, a': Arena<V>, g: Shape, m: map<Prefix, V>, x: nat, c: nat, mid: nat, net: Prefix,
                     pos: nat, shared: nat, v: Option<V>)
    requires pos < |net.bits| && pos + shared <= |net.bits|
    requires Splittable(a, g, x, net.bits[pos], c, mid, shared) && Splits(a, a', g, x, net.bits[pos], c, mid, shared, v)
    requires Stores(a, g, m) && MidPath(a, g, x, c, shared) == Prefix(net.v6, net.bits[..pos + shared])
    requires v.Some? <==> shared == |net.bits| - pos
    ensures WfExcept(a', SplitShape(a, g, x, c, mid, shared), if v.Some? then None else Some(mid))
    ensures Stores(a', SplitShape(a, g, x, c, mid, shared), if v.Some? then m[net := v.value] else m)
  {
    Split(a, a', g, x, net.bits[pos], c, mid, shared, v);
    SplitStored(a, a', g, m, x, net.bits[pos], c, mid, shared, v);
    assert net.bits[..|net.bits|] == net.bits;
  }

  class PrefixTrie<V> {
    const maxPrefixes: nat
    /** Two roots, then two nodes per prefix. */
    const pool: array<Option<Node<V>>>
    var used: nat
    /** The map the calls so far have built, and the shape that represents it. */
    ghost var contents: map<Prefix, V>
    ghost var shape: Shape

    ghost predicate Valid()
      reads this, pool
    {
      && pool.Length == 2 + 2 * maxPrefixes
      && Wf(pool[..], shape) && Stores(pool[..], shape, contents)
      && |shape.paths| == 2 + used
    }

    constructor (maxPrefixes: nat)
      ensures Valid() && fresh(pool) && this.maxPrefixes == maxPrefixes && contents == map[]
    {
      this.maxPrefixes := maxPrefixes;
      var p := new Option<Node<V>>[2 + 2 * maxPrefixes](_ => None);
      var root: Node<V> := NewNode(Zeros(WIDTH), 0, None);
      p[V4_ROOT], p[V6_ROOT] := Some(root), Some(root);
      pool := p;
      used := 0;
      contents := map[];
      shape := BareRoots();
      new;
      BareRootsAreTrie(pool[..]);
    }

    /** Longest-prefix match. */
    method Lookup(addr: Prefix) returns (best: Option<V>)
      requires Valid() && |addr.bits| == AddressBits(addr.v6)
      ensures best == LongestMatch(contents, addr.v6, addr.bits, |addr.bits|)
    {
      var key, klen := Pad(addr.bits), |addr.bits|;
      var node, pos := RootOf(addr.v6), 0;
      RootReached(pool[..], shape, addr);
      best := ValueAt(node, addr, 0);
      while pos < klen
        invariant Reached(shape, addr, node, pos)
        invariant best == LongestMatch(contents, addr.v6, addr.bits, pos)
      {
        ChildIsLive(pool[..], shape, node, key[pos]);
        var child := pool[node].value.Child(key[pos]);
        if child.None? || !EdgeMatch(pool[child.value].value, Shl(key, pos), klen - pos) {
          MatchEnds(pool[..], shape, contents, addr, node, pos);
          return;
        }
        MatchGoesOn(pool[..], shape, contents, addr, node, pos, child.value);
        node := child.value;
        pos := pos + pool[node].value.len;
        if pool[node].value.value.Some? {
          best := pool[node].value.value;
        }
      }
    }

    /** The value stored at a reached node is the one stored for its path. */
    method ValueAt(node: nat, t: Prefix, ghost pos: nat) returns (v: Option<V>)
      requires Valid() && Reached(shape, t, node, pos)
      ensures var p := Prefix(t.v6, t.bits[..pos]);
              v == if p in contents then Some(contents[p]) else None
    {
      assert ValueOk(pool[..], shape, contents, node);
      v := pool[node].value.value;
    }

    /** The value stored for exactly `net`. */
    method Get(net: Prefix) returns (v: Option<V>)
      requires Valid() && |net.bits| <= AddressBits(net.v6)
      ensures v == if net in contents then Some(contents[net]) else None
    {
      var key, klen := Pad(net.bits), |net.bits|;
      var node, pos := RootOf(net.v6), 0;
      RootReached(pool[..], shape, net);
      while pos < klen
        invariant Reached(shape, net, node, pos)
      {
        WalkStep(pool[..], shape, net, node, pos);
        assert net.bits[..klen] == net.bits;
        var child := pool[node].value.Child(key[pos]);
        if child.None? || !EdgeMatch(pool[child.value].value, Shl(key, pos), klen - pos) {
          return None;
        }
        node := child.value;
        pos := pos + pool[node].value.len;
      }
      assert net.bits[..klen] == net.bits;
      v := ValueAt(node, net, klen);
    }

    /** The first vacant slot of the pool, if any. */
    method FirstFree() returns (r: Option<nat>)
      requires pool.Length >= 2
      ensures r.Some? ==> 2 <= r.value < pool.Length && pool[r.value].None?
      ensures r.None? ==> forall i: nat | 2 <= i < pool.Length :: pool[i].Some?
    {
      for i := 2 to pool.Length
        invariant forall k: nat | 2 <= k < i :: pool[k].Some?
      {
        if pool[i].None? {
          return Some(i);
        }
      }
      return None;
    }

    /** Takes a vacant slot, which the caller's capacity check has secured. */
    method Alloc(node: Node<V>) returns (id: nat)
      requires pool.Length >= 2 && exists i: nat :: 2 <= i < pool.Length && pool[i].None?
      modifies this`used, pool
      ensures 2 <= id < pool.Length && old(pool[id]) == None
      ensures pool[..] == old(pool[..])[id := Some(node)] && used == old(used) + 1
    {
      var r := FirstFree();
      id := r.value;
      pool[id] := Some(node);
      used := used + 1;
    }

    predicate HasCapacity(needed: nat)
      reads this
    {
      SaturatingSub(2 * maxPrefixes, used) >= needed
    }

    /** One step towards where `net` belongs: on to the child, or to a stop at this node. */
    method StepDown(net: Prefix, node: nat, pos: nat) returns (next: Option<nat>, spot: Spot)
      requires Valid() && Reached(shape, net, node, pos) && pos < |net.bits|
      ensures next.Some? ==> Live(pool[..], next.value) && pool[next.value].value.len > 0
      ensures next.Some? ==> Reached(shape, net, next.value, pos + pool[next.value].value.len)
      ensures next.None? ==> SpotOk(pool[..], net, node, pos, spot) && !spot.AtEnd?
    {
      var child := pool[node].value.Child(net.bits[pos]);
      if child.None? {
        return None, NoChild;
      }
      CompareEdge(pool[..], shape, net, node, pos, child.value);
      var c := pool[child.value].value;
      var shared := CommonLen(Shl(Pad(net.bits), pos), c.bits, Min(c.len, |net.bits| - pos));
      if shared == c.len {
        return child, AtEnd;
      }
      return None, Diverges(child.value, shared);
    }

    /** Walks to where `net` belongs. */
    method FindSpot(net: Prefix) returns (node: nat, pos: nat, spot: Spot)
      requires Valid() && |net.bits| <= AddressBits(net.v6)
      ensures Reached(shape, net, node, pos) && SpotOk(pool[..], net, node, pos, spot)
    {
      node, pos, spot := RootOf(net.v6), 0, AtEnd;
      RootReached(pool[..], shape, net);
      while pos < |net.bits|
        invariant Reached(shape, net, node, pos)
        decreases |net.bits| - pos
      {
        var next;
        next, spot := StepDown(net, node, pos);
        if next.None? {
          return;
        }
        node := next.value;
        pos := pos + pool[node].value.len;
      }
      spot := AtEnd;
    }

    /**
     Stores `value` for `net` and returns what was stored before. Fails only
     when fewer than two nodes are left in the pool, and then changes nothing. A
     default route needs no node, and there are two for every other prefix, so
     below `maxPrefixes` of those it never fails.
     */
    method Insert(net: Prefix, value: V) returns (r: Result<Option<V>, CapacityError>)
      requires Valid() && |net.bits| <= AddressBits(net.v6)
      modifies this`used, this`contents, this`shape, pool
      ensures Valid()
      ensures r.Ok? ==> contents == old(contents)[net := value]
      ensures r.Ok? ==> r.value == if net in old(contents) then Some(old(contents)[net]) else None
      ensures r.Err? ==> contents == old(contents) && pool[..] == old(pool[..]) && used == old(used)
      ensures net in old(contents) || net.bits == [] || |NonDefault(old(contents))| < maxPrefixes ==> r.Ok?
      ensures r.Err? ==> !HasCapacity(2)
    {
      NodeBound(pool[..], shape, contents);
      var node, pos, spot := FindSpot(net);
      match spot
      case AtEnd =>
        assert net.bits[..pos] == net.bits;
        var previous := ValueAt(node, net, pos);
        Replace(node, net, Some(value));
        return Ok(previous);
      case _ =>
        NotStored(pool[..], shape, contents, net, node, pos, spot);
        r := InsertNew(net, value, node, pos, spot);
    }

    /** Adds the nodes for a prefix that is not stored, once there is room for all of them. */
    method InsertNew(net: Prefix, value: V, node: nat, pos: nat, spot: Spot)
      returns (r: Result<Option<V>, CapacityError>)
      requires Valid() && Reached(shape, net, node, pos) && SpotOk(pool[..], net, node, pos, spot) && !spot.AtEnd?
      requires spot.Diverges? ==> spot.child in shape.paths
      modifies this`used, this`contents, this`shape, pool
      ensures Valid()
      ensures r.Ok? ==> contents == old(contents)[net := value] && r.value == None
      ensures r.Err? ==> contents == old(contents) && pool[..] == old(pool[..]) && used == old(used)
      ensures old(HasCapacity(2)) ==> r.Ok?
    {
      match spot
      case NoChild =>
        if !HasCapacity(1) {
          return Err(CapacityError);
        }
        InsertLeaf(net, value, node, pos, NewNode(Shl(Pad(net.bits), pos), |net.bits| - pos, Some(value)), None);
        return Ok(None);
      case Diverges(child, shared) =>
        if !HasCapacity(if shared == |net.bits| - pos then 1 else 2) {
          return Err(CapacityError);
        }
        InsertSplit(net, value, node, pos, child, shared);
        return Ok(None);
    }

    /** Overwrites or takes the value of the node for `net`. */
    method Replace(node: nat, net: Prefix, v: Option<V>)
      requires Valid() && node in shape.paths && shape.paths[node] == net
      modifies this`contents, pool
      ensures pool.Length == 2 + 2 * maxPrefixes && |shape.paths| == 2 + used
      ensures pool[..] == old(pool[..])[node := Some(old(pool[node]).value.(value := v))]
      ensures contents == if v.Some? then old(contents)[net := v.value] else old(contents) - {net}
      ensures WfExcept(pool[..], shape, Some(node)) && Stores(pool[..], shape, contents)
      ensures v.Some? || node < 2 || (pool[node].value.zero.Some? && pool[node].value.one.Some?) ==> Valid()
    {
      ghost var before := pool[..];
      pool[node] := Some(pool[node].value.(value := v));
      NewValue(before, pool[..], shape, node, v);
      NewValueStored(before, pool[..], shape, contents, node, v);
      contents := if v.Some? then contents[net := v.value] else contents - {net};
    }

    /** Hangs a new leaf off `node`, which may be a middle node still short of a second child. */
    method InsertLeaf(net: Prefix, value: V, node: nat, pos: nat, leaf: Node<V>, ghost e: Option<nat>)
      requires pool.Length == 2 + 2 * maxPrefixes && |shape.paths| == 2 + used && HasCapacity(1)
      requires WfExcept(pool[..], shape, e) && Stores(pool[..], shape, contents)
      requires Reached(shape, net, node, pos) && pos < |net.bits| && leaf == Leaf(net, pos, value)
      requires pool[node].value.Child(net.bits[pos]).None?
      requires e == None || (e == Some(node) && pool[node].value.Child(!net.bits[pos]).Some?)
      modifies this`used, this`contents, this`shape, pool
      ensures Valid() && contents == old(contents)[net := value]
    {
      ghost var before := pool[..];
      VacantSlot(before, shape, e);
      LeafEdge(net, pos, value);
      var id := Alloc(leaf);
      pool[node] := Some(pool[node].value.WithChild(leaf.bits[0], Some(id)));
      assert pool[..] == before[id := Some(leaf)][node := pool[node]];
      HangLeaf(before, pool[..], shape, contents, e, node, id, net, pos, value);
      contents := contents[net := value];
      shape := Grown(shape, node, id, net);
    }

    /** Splits the edge into `child` where it parts from the prefix; `shared` bits are common. */
    method InsertSplit(net: Prefix, value: V, node: nat, pos: nat, child: nat, shared: nat)
      requires Valid() && Reached(shape, net, node, pos) && child in shape.paths
      requires SpotOk(pool[..], net, node, pos, Diverges(child, shared))
      requires HasCapacity(if shared == |net.bits| - pos then 1 else 2)
      modifies this`used, this`contents, this`shape, pool
      ensures Valid() && contents == old(contents)[net := value]
    {
      if shared == |net.bits| - pos {
        var _ := MakeMiddle(net, node, pos, child, shared, Some(value));
      } else {
        var mid := MakeMiddle(net, node, pos, child, shared, None);
        AddSecond(net, value, mid, pos, shared);
      }
    }

    /** The second child of a fresh middle node, for the rest of the prefix. */
    method AddSecond(net: Prefix, value: V, mid: nat, pos: nat, shared: nat)
      requires pool.Length == 2 + 2 * maxPrefixes && |shape.paths| == 2 + used && HasCapacity(1)
      requires WfExcept(pool[..], shape, Some(mid)) && Stores(pool[..], shape, contents)
      requires Reached(shape, net, mid, pos + shared) && pos + shared < |net.bits|
      requires pool[mid].value.Child(net.bits[pos + shared]).None?
                && pool[mid].value.Child(!net.bits[pos + shared]).Some?
      modifies this`used, this`contents, this`shape, pool
      ensures Valid() && contents == old(contents)[net := value]
    {
      var rest := Shl(Pad(net.bits), pos);
      SecondLeaf(net, pos, shared, value);
      var leaf := NewNode(Shl(rest, shared), |net.bits| - pos - shared, Some(value));
      InsertLeaf(net, value, mid, pos + shared, leaf, Some(mid));
    }

    method MakeMiddle(net: Prefix, node: nat, pos: nat, child: nat, shared: nat, v: Option<V>) returns (mid: nat)
      requires Valid() && Reached(shape, net, node, pos) && child in shape.paths && HasCapacity(1)
      requires SpotOk(pool[..], net, node, pos, Diverges(child, shared))
      requires v.Some? <==> shared == |net.bits| - pos
      modifies this`used, this`contents, this`shape, pool
      ensures pool.Length == 2 + 2 * maxPrefixes && |shape.paths| == 2 + used && used == old(used) + 1
      ensures Reached(shape, net, mid, pos + shared) && mid < pool.Length
      ensures v.Some? ==> Valid() && contents == old(contents)[net := v.value]
      ensures v.None? ==>
                WfExcept(pool[..], shape, Some(mid)) && Stores(pool[..], shape, contents) && contents == old(contents)
      ensures v.None? ==> pool[mid].Some? && pool[mid].value.Child(net.bits[pos + shared]).None?
                          && pool[mid].value.Child(!net.bits[pos + shared]).Some?
    {
      ghost var before := pool[..];
      VacantSlot(before, shape, None);
      ChildApart(before, shape, node, net.bits[pos]);
      mid := FreshMiddle(node, net.bits[pos], child, shared, v);
      SplitPlace(before, shape, node, child, mid, net, pos, shared);
      SplitArenaSplits(before, shape, node, net.bits[pos], child, mid, shared, v);
      SplitEdge(before, pool[..], shape, contents, node, child, mid, net, pos, shared, v);
      if v.None? {
        MiddleSides(before, shape, node, child, mid, net, pos, shared);
      }
      shape := SplitShape(before, shape, node, child, mid, shared);
      contents := if v.Some? then contents[net := v.value] else contents;
    }

    /** Allocates the middle node and rewires parent and child around it. */
    method FreshMiddle(node: nat, b: bool, child: nat, shared: nat, v: Option<V>) returns (mid: nat)
      requires Live(pool[..], node) && Live(pool[..], child) && node != child && shared < pool[child].value.len <= WIDTH
      requires pool.Length >= 2 && exists i: nat :: 2 <= i < pool.Length && pool[i].None?
      modifies this`used, pool
      ensures 2 <= mid < pool.Length && old(pool[..])[mid].None? && used == old(used) + 1
      ensures pool[..] == SplitArena(old(pool[..]), node, b, child, mid, shared, v)
    {
      ghost var before := pool[..];
      var c := pool[child].value;
      mid := Alloc(NewNode(c.bits, shared, None));
      var low := c.(bits := Shl(c.bits, shared), len := c.len - shared);
      pool[child] := Some(low);
      pool[mid] := Some(pool[mid].value.WithChild(low.bits[0], Some(child)));
      pool[node] := Some(pool[node].value.WithChild(b, Some(mid)));
      pool[mid] := Some(pool[mid].value.(value := v));
      assert pool[..] == before[mid := pool[mid]][child := Some(low)][node := pool[node]];
    }

    /** Walks to the node of exactly `net`, recording the edges taken. */
    method FindExact(net: Prefix) returns (found: Option<nat>, path: seq<(nat, bool)>)
      requires Valid() && |net.bits| <= AddressBits(net.v6)
      ensures found.None? ==> net !in contents
      ensures found.Some? ==> found.value in shape.paths && shape.paths[found.value] == net
      ensures found.Some? ==> Trail(pool[..], shape, path, found.value) && |path| <= WIDTH
    {
      var key, klen := Pad(net.bits), |net.bits|;
      var node, pos := RootOf(net.v6), 0;
      path := [];
      RootReached(pool[..], shape, net);
      while pos < klen
        invariant Reached(shape, net, node, pos)
        invariant Trail(pool[..], shape, path, node) && |path| <= pos
      {
        WalkStep(pool[..], shape, net, node, pos);
        assert net.bits[..klen] == net.bits;
        var branch := key[pos];
        var child := pool[node].value.Child(branch);
        if child.None? || !EdgeMatch(pool[child.value].value, Shl(key, pos), klen - pos) {
          return None, path;
        }
        TrailExtends(pool[..], shape, path, node, branch, child.value);
        path := path + [(node, branch)];
        node := child.value;
        pos := pos + pool[node].value.len;
      }
      assert net.bits[..klen] == net.bits;
      return Some(node), path;
    }

    /** Removes and returns the value stored for exactly `net`; nothing else changes. */
    method Remove(net: Prefix) returns (v: Option<V>)
      requires Valid() && |net.bits| <= AddressBits(net.v6)
      modifies this`used, this`contents, this`shape, pool
      ensures Valid()
      ensures v == if net in old(contents) then Some(old(contents)[net]) else None
      ensures contents == old(contents) - {net}
    {
      var found, path := FindExact(net);
      if found.None? {
        return None;
      }
      var node := found.value;
      assert ValueOk(pool[..], shape, contents, node);
      v := pool[node].value.value;
      if v.None? {
        return None;
      }
      TrailKept(pool[..], pool[..][node := Some(pool[node].value.(value := None))], shape, path, node, node, None);
      Replace(node, net, None);
      if path != [] {
        Prune(path, node);
      }
    }

    /** Restores compression after the node at the end of the trail lost its value. */
    method Prune(path: seq<(nat, bool)>, node: nat)
      requires pool.Length == 2 + 2 * maxPrefixes && |shape.paths| == 2 + used
      requires WfExcept(pool[..], shape, Some(node)) && Stores(pool[..], shape, contents)
      requires path != [] && Trail(pool[..], shape, path, node) && pool[node].value.value == None
      modifies this`used, this`shape, pool
      ensures Valid()
    {
      var (parent, branch) := path[|path| - 1];
      var n := pool[node].value;
      assert Removable(pool[..], shape, parent, branch, node);
      if n.zero.Some? && n.one.Some? {
        Recompressed(pool[..], shape, node);
        return;
      }
      if n.zero.Some? || n.one.Some? {
        MergeIntoChild(parent, branch, node, n.one.Some?);
        return;
      }
      PruneLeaf(path, node);
    }

    method PruneLeaf(path: seq<(nat, bool)>, node: nat)
      requires pool.Length == 2 + 2 * maxPrefixes && |shape.paths| == 2 + used
      requires WfExcept(pool[..], shape, Some(node)) && Stores(pool[..], shape, contents)
      requires path != [] && Trail(pool[..], shape, path, node) && pool[node].value.value == None
      requires pool[node].value.zero.None? && pool[node].value.one.None?
      modifies this`used, this`shape, pool
      ensures Valid()
    {
      var (parent, branch) := path[|path| - 1];
      assert Removable(pool[..], shape, parent, branch, node);
      ghost var before := pool[..];
      if |path| >= 2 {
        assert Compressed(before[parent].value) by {
          RemovableFacts(before, shape, parent, branch, node);
          assert AtNode(before, shape, Some(node), parent, branch);
        }
        GrandparentApart(before, shape, path, node);
      }
      DropLeaf(parent, branch, node);
      if |path| >= 2 {
        var (grand, grandBranch) := path[|path| - 2];
        var p := pool[parent].value;
        if p.value.None? && (p.zero.Some? != p.one.Some?) {
          MergeIntoChild(grand, grandBranch, parent, p.one.Some?);
        }
      }
    }

    /** Merges the valueless single-child node `node` into its child on side `side`. */
    method MergeIntoChild(parent: nat, branch: bool, node: nat, side: bool)
      requires pool.Length == 2 + 2 * maxPrefixes && |shape.paths| == 2 + used
      requires Removable(pool[..], shape, parent, branch, node) && Stores(pool[..], shape, contents)
      requires pool[node].value.Child(side).Some? && pool[node].value.Child(!side).None?
      modifies this`used, this`shape, pool
      ensures Valid()
    {
      ghost var before := pool[..];
      var child := pool[node].value.Child(side).value;
      MergeDistinct(before, shape, parent, branch, node, side);
      Bypass(parent, branch, node, child);
      MergeStep(before, pool[..], shape, contents, parent, branch, node, side, child);
      used := used - 1;
      shape := MergedShape(shape, parent, node, child);
    }

    /** Joins the edge of `node` to that of `child`, and links `child` to `parent` in its place. */
    method Bypass(parent: nat, branch: bool, node: nat, child: nat)
      requires Live(pool[..], parent) && Live(pool[..], node) && Live(pool[..], child)
      requires child != node && child != parent && parent != node
      modifies pool
      ensures pool[..] == old(pool[..])[child := Some(Joined(old(pool[node]).value, old(pool[child]).value))]
                              [parent := Some(old(pool[parent]).value.WithChild(branch, Some(child)))][node := None]
    {
      var n, c := pool[node].value, pool[child].value;
      pool[child] := Some(c.(bits := Or(n.bits, Shr(c.bits, n.len)), len := c.len + n.len));
      pool[parent] := Some(pool[parent].value.WithChild(branch, Some(child)));
      pool[node] := None;
    }

    /** Drops the valueless childless node `node`; its parent may now need merging. */
    method DropLeaf(parent: nat, branch: bool, node: nat)
      requires pool.Length == 2 + 2 * maxPrefixes && |shape.paths| == 2 + used
      requires Removable(pool[..], shape, parent, branch, node) && Stores(pool[..], shape, contents)
      requires pool[node].value.zero.None? && pool[node].value.one.None?
      modifies this`used, this`shape, pool
      ensures pool.Length == 2 + 2 * maxPrefixes && |shape.paths| == 2 + used
      ensures WfExcept(pool[..], shape, Some(parent)) && Stores(pool[..], shape, contents)
      ensures shape == old(Shrunk(shape, node)) && Dropped(old(pool[..]), pool[..], parent, branch, node)
      ensures parent < 2 || Compressed(old(pool[parent].value).WithChild(branch, None)) ==> Valid()
    {
      ghost var before := pool[..];
      RemovableFacts(before, shape, parent, branch, node);
      pool[parent] := Some(pool[parent].value.WithChild(branch, None));
      pool[node] := None;
      NonRootCounted(before, shape, Some(node), node);
      OneLess(shape, node);
      used := used - 1;
      assert Dropped(before, pool[..], parent, branch, node);
      Drop(before, pool[..], shape, parent, branch, node);
      DropStored(before, pool[..], shape, contents, parent, branch, node);
      shape := Shrunk(shape, node);
    }
  }
}
