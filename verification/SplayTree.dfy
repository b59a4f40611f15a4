/** The intrusive splay tree (ustd/splay_tree.hh), for the instance that the kernel uses: regions
    keyed by their base address, with parent and child links rewritten in place.

    `order` is the sequence of nodes from left to right. For each node the tree records, as ghost
    data, its position in `order` and the stretch of `order` that its subtree covers. A shape is
    right when every node agrees with its neighbours about links and stretches, so each statement
    looks at one node and the nodes it is linked to. */
module SplayTree {
  import opened Regions
  import opened Sums

  datatype Dir = L | R

  function Other(d: Dir): Dir { if d.L? then R else L }

  /** One node of a shape: its links, its position, and its stretch order[lo..hi]. */
  datatype Cell = Cell(parent: Region?, left: Region?, right: Region?, lo: int, pos: int, hi: int)

  type Shape = map<Region, Cell>

  function Child(c: Cell, d: Dir): Region? { if d.L? then c.left else c.right }

  function WithChild(c: Cell, d: Dir, n: Region?): Cell {
    if d.L? then c.(left := n) else c.(right := n)
  }

  // The stretch of a node is its left child's, the node itself, and its right child's.
  ghost predicate SpanOk(m: Shape, n: Region)
    requires n in m
  {
    var c := m[n];
    && c.lo <= c.pos < c.hi
    && (c.left == null <==> c.lo == c.pos)
    && (c.right == null <==> c.pos + 1 == c.hi)
    && (c.left != null ==> c.left in m && m[c.left].lo == c.lo && m[c.left].hi == c.pos)
    && (c.right != null ==> c.right in m && m[c.right].lo == c.pos + 1 && m[c.right].hi == c.hi)
  }

  ghost predicate DownOk(m: Shape, n: Region)
    requires n in m
  {
    var c := m[n];
    && (c.left != null ==> c.left in m && m[c.left].parent == n)
    && (c.right != null ==> c.right in m && m[c.right].parent == n)
  }

  ghost predicate UpOk(m: Shape, root: Region?, n: Region)
    requires n in m
  {
    var c := m[n];
    && (c.parent == null <==> n == root)
    && (c.parent != null ==> c.parent in m && (m[c.parent].left == n || m[c.parent].right == n))
  }

  ghost predicate Fits(m: Shape, root: Region?, n: Region?) {
    n != null ==> n in m && SpanOk(m, n) && DownOk(m, n) && UpOk(m, root, n)
  }

  ghost predicate LinksOk(m: Shape, root: Region?) {
    forall n {:trigger Fits(m, root, n)} :: n in m ==> Fits(m, root, n)
  }

  // Positions and `order` are each other's inverse, and stretches lie inside `order`.
  ghost predicate Placed(m: Shape, order: seq<Region>) {
    && (forall n :: n in m ==> 0 <= m[n].pos < |order| && order[m[n].pos] == n)
    && (forall n :: n in m ==> 0 <= m[n].lo <= m[n].pos < m[n].hi <= |order|)
    && (forall i :: 0 <= i < |order| ==> order[i] in m && m[order[i]].pos == i)
  }

  ghost predicate RootOk(m: Shape, root: Region?, order: seq<Region>) {
    && (root == null <==> order == [])
    && (root != null ==> root in m && m[root].lo == 0 && m[root].hi == |order|)
  }

  ghost predicate ShapeOk(m: Shape, root: Region?, order: seq<Region>) {
    LinksOk(m, root) && Placed(m, order) && RootOk(m, root, order)
  }

  ghost predicate Around(m: Shape, root: Region?, n: Region) {
    n in m && Fits(m, root, n) && Fits(m, root, m[n].left) && Fits(m, root, m[n].right) && Fits(m, root, m[n].parent)
  }

  lemma NeighboursFit(m: Shape, root: Region?, n: Region)
    requires LinksOk(m, root) && n in m
    ensures Around(m, root, n)
  {
    assert Fits(m, root, n);
  }

  // ----- rotation -----

  /** m' is m after rotate<d>(node): the child `pivot` of `node` on the other side takes its place. */
  ghost predicate Rotated(m: Shape, m': Shape, d: Dir, node: Region, pivot: Region, inner: Region?, parent: Region?) {
    && m'.Keys == m.Keys
    && node in m && pivot in m
    && Child(m[node], Other(d)) == pivot && Child(m[pivot], d) == inner && m[node].parent == parent
    && m'[node] == WithChild(m[node], Other(d), inner).(parent := pivot,
         lo := if d.L? then m[node].lo else m[pivot].pos + 1,
         hi := if d.L? then m[pivot].pos else m[node].hi)
    && m'[pivot] == WithChild(m[pivot], d, node).(parent := parent, lo := m[node].lo, hi := m[node].hi)
    && (inner != null ==> inner in m && m'[inner] == m[inner].(parent := node))
    && (parent != null ==>
          parent in m && m'[parent] == WithChild(m[parent], if m[parent].left == node then L else R, pivot))
    && forall n :: n in m && n != node && n != pivot && n != inner && n != parent ==> m'[n] == m[n]
  }

  ghost function AfterRotation(m: Shape, d: Dir, node: Region, pivot: Region, inner: Region?, parent: Region?): Shape
    requires node in m && pivot in m && (inner != null ==> inner in m) && (parent != null ==> parent in m)
  {
    var m1 := if inner == null then m else m[inner := m[inner].(parent := node)];
    var m2 := if parent == null then m1
              else m1[parent := WithChild(m[parent], if m[parent].left == node then L else R, pivot)];
    m2[node := WithChild(m[node], Other(d), inner).(parent := pivot,
               lo := if d.L? then m[node].lo else m[pivot].pos + 1,
               hi := if d.L? then m[pivot].pos else m[node].hi)]
      [pivot := WithChild(m[pivot], d, node).(parent := parent, lo := m[node].lo, hi := m[node].hi)]
  }

  lemma AfterRotationIsRotated(m: Shape, d: Dir, node: Region, pivot: Region, inner: Region?, parent: Region?)
    requires node in m && pivot in m && (inner != null ==> inner in m) && (parent != null ==> parent in m)
    requires node != pivot && inner != node && inner != pivot && parent != node && parent != pivot
    requires inner == null || inner != parent
    requires Child(m[node], Other(d)) == pivot && Child(m[pivot], d) == inner && m[node].parent == parent
    ensures Rotated(m, AfterRotation(m, d, node, pivot, inner, parent), d, node, pivot, inner, parent)
  {
  }

  ghost predicate AllFit(m: Shape, root: Region?, node: Region, pivot: Region, inner: Region?, parent: Region?) {
    Fits(m, root, node) && Fits(m, root, pivot) && Fits(m, root, inner) && Fits(m, root, parent)
  }

  lemma RotationSpans(m: Shape, m': Shape, root: Region?, d: Dir, node: Region, pivot: Region, inner: Region?,
                      parent: Region?)
    requires Rotated(m, m', d, node, pivot, inner, parent) && AllFit(m, root, node, pivot, inner, parent)
    ensures SpanOk(m', node) && SpanOk(m', pivot)
    ensures inner != null ==> SpanOk(m', inner)
    ensures parent != null ==> SpanOk(m', parent)
  {
  }

  lemma RotationDown(m: Shape, m': Shape, root: Region?, d: Dir, node: Region, pivot: Region, inner: Region?,
                     parent: Region?)
    requires Rotated(m, m', d, node, pivot, inner, parent) && AllFit(m, root, node, pivot, inner, parent)
    ensures DownOk(m', node) && DownOk(m', pivot)
    ensures inner != null ==> DownOk(m', inner)
    ensures parent != null ==> DownOk(m', parent)
  {
  }

  lemma RotationUp(m: Shape, m': Shape, root: Region?, d: Dir, node: Region, pivot: Region, inner: Region?,
                   parent: Region?)
    requires Rotated(m, m', d, node, pivot, inner, parent) && AllFit(m, root, node, pivot, inner, parent)
    requires parent != null ==> Fits(m, root, m[parent].parent)
    ensures var root' := if parent == null then pivot else root;
      && UpOk(m', root', node) && UpOk(m', root', pivot)
      && (inner != null ==> UpOk(m', root', inner))
      && (parent != null ==> UpOk(m', root', parent))
  {
  }

  lemma RotationElsewhere(m: Shape, m': Shape, root: Region?, d: Dir, node: Region, pivot: Region, inner: Region?,
                          parent: Region?, n: Region)
    requires Rotated(m, m', d, node, pivot, inner, parent) && AllFit(m, root, node, pivot, inner, parent)
    requires n in m && n != node && n != pivot && n != inner && n != parent
    requires Around(m, root, n)
    ensures Fits(m', if parent == null then pivot else root, n)
  {
  }

  lemma RotationNodesDiffer(m: Shape, root: Region?, d: Dir, node: Region)
    requires LinksOk(m, root) && node in m && Child(m[node], Other(d)) != null
    ensures var pivot := Child(m[node], Other(d)); var parent := m[node].parent;
      && pivot in m
      && var inner := Child(m[pivot], d);
      && (inner != null ==> inner in m) && (parent != null ==> parent in m)
      && node != pivot && inner != node && inner != pivot && parent != node && parent != pivot
      && (inner == null || inner != parent)
  {
    NeighboursFit(m, root, node);
    NeighboursFit(m, root, Child(m[node], Other(d)));
  }

  lemma RotationKeepsLinks(m: Shape, m': Shape, root: Region?, d: Dir, node: Region, pivot: Region, inner: Region?,
                           parent: Region?)
    requires LinksOk(m, root) && Rotated(m, m', d, node, pivot, inner, parent)
    ensures LinksOk(m', if parent == null then pivot else root)
  {
    assert AllFit(m, root, node, pivot, inner, parent) by {
      NeighboursFit(m, root, node);
      NeighboursFit(m, root, pivot);
    }
    assert parent != null ==> Fits(m, root, m[parent].parent) by {
      if parent != null {
        NeighboursFit(m, root, parent);
      }
    }
    forall n | n in m' ensures Fits(m', if parent == null then pivot else root, n) {
      if n != node && n != pivot && n != inner && n != parent {
        NeighboursFit(m, root, n);
        RotationElsewhere(m, m', root, d, node, pivot, inner, parent, n);
      } else {
        RotationSpans(m, m', root, d, node, pivot, inner, parent);
        RotationDown(m, m', root, d, node, pivot, inner, parent);
        RotationUp(m, m', root, d, node, pivot, inner, parent);
      }
    }
  }

  lemma RotationKeepsPlaces(m: Shape, m': Shape, d: Dir, node: Region, pivot: Region, inner: Region?,
                            parent: Region?, n: Region)
    requires Rotated(m, m', d, node, pivot, inner, parent) && n in m
    ensures m'[n].pos == m[n].pos
    ensures n != node && n != pivot ==> m'[n].lo == m[n].lo && m'[n].hi == m[n].hi
  {
  }

  /** A rotation keeps the shape right and the node sequence as it is. */
  lemma RotationKeepsShape(m: Shape, m': Shape, root: Region?, order: seq<Region>,
                           d: Dir, node: Region, pivot: Region, inner: Region?, parent: Region?)
    requires ShapeOk(m, root, order) && Rotated(m, m', d, node, pivot, inner, parent)
    ensures ShapeOk(m', if parent == null then pivot else root, order)
  {
    RotationKeepsLinks(m, m', root, d, node, pivot, inner, parent);
    forall n | n in m
      ensures m'[n].pos == m[n].pos && (n != node && n != pivot ==> m'[n].lo == m[n].lo && m'[n].hi == m[n].hi)
    {
      RotationKeepsPlaces(m, m', d, node, pivot, inner, parent, n);
    }
    assert Fits(m, root, node) && Fits(m, root, pivot);
    assert 0 <= m'[node].lo <= m'[node].pos < m'[node].hi <= |order|;
    assert Placed(m', order);
  }

  // ----- attaching a node at a gap -----

  ghost function WithNode(order: seq<Region>, node: Region, p: nat): (r: seq<Region>)
    requires p <= |order|
    ensures |r| == |order| + 1
  {
    order[..p] + [node] + order[p..]
  }

  lemma WithNodeAt(order: seq<Region>, node: Region, p: nat, i: nat)
    requires p <= |order| && i <= |order|
    ensures WithNode(order, node, p)[i] == if i < p then order[i] else if i == p then node else order[i - 1]
  {
  }

  // Makes room for one node at position p.
  ghost function Opened(c: Cell, p: int): Cell {
    c.(lo := if c.lo <= p then c.lo else c.lo + 1,
       pos := if c.pos < p then c.pos else c.pos + 1,
       hi := if c.hi < p then c.hi else c.hi + 1)
  }

  /** m' is m with `node` attached below `q` on side d, at position p. */
  ghost predicate Attached(m: Shape, m': Shape, node: Region, q: Region, d: Dir, p: int) {
    && node !in m && q in m
    && m'.Keys == m.Keys + {node}
    && Child(m[q], d) == null && p == (if d.L? then m[q].pos else m[q].pos + 1)
    && m'[node] == Cell(q, null, null, p, p, p + 1)
    && m'[q] == WithChild(Opened(m[q], p), d, node)
    && forall n :: n in m && n != q ==> m'[n] == Opened(m[n], p)
  }

  ghost function AfterAttach(m: Shape, node: Region, q: Region, d: Dir, p: int): Shape
    requires q in m
  {
    var widened := map n | n in m :: Opened(m[n], p);
    widened[q := WithChild(Opened(m[q], p), d, node)][node := Cell(q, null, null, p, p, p + 1)]
  }

  // The node on the far side of the gap has the gap inside its stretch.
  ghost predicate GapOpen(m: Shape, order: seq<Region>, d: Dir, p: int) {
    if d.L? then 0 < p <= |order| ==> order[p - 1] in m && m[order[p - 1]].hi > p
    else 0 <= p < |order| ==> order[p] in m && m[order[p]].lo < p
  }

  lemma AttachFits(m: Shape, m': Shape, root: Region?, node: Region, q: Region, d: Dir, p: int, n: Region)
    requires Attached(m, m', node, q, d, p)
    requires Around(m, root, n)
    requires Fits(m, root, q) && root in m
    requires n != q ==> (m[n].pos == p ==> m[n].lo < p) && (m[n].pos + 1 == p ==> m[n].hi > p)
    ensures Fits(m', root, n)
  {
  }

  lemma AttachPlaces(m: Shape, m': Shape, order: seq<Region>, node: Region, q: Region, d: Dir, p: nat)
    requires Placed(m, order) && Attached(m, m', node, q, d, p) && p <= |order|
    ensures Placed(m', WithNode(order, node, p))
  {
    hide WithNode;
    var order' := WithNode(order, node, p);
    WithNodeAt(order, node, p, p);
    forall n | n in m' ensures 0 <= m'[n].pos < |order'| && order'[m'[n].pos] == n {
      if n != node {
        AttachSpan(m, m', order, node, q, d, p, n);
        WithNodeAt(order, node, p, m'[n].pos);
      }
    }
    forall n | n in m' ensures 0 <= m'[n].lo <= m'[n].pos < m'[n].hi <= |order'| {
      if n != node {
        AttachSpan(m, m', order, node, q, d, p, n);
      }
    }
    forall i | 0 <= i < |order'| ensures order'[i] in m' && m'[order'[i]].pos == i {
      WithNodeAt(order, node, p, i);
      if i != p {
        AttachSpan(m, m', order, node, q, d, p, order'[i]);
      }
    }
  }

  lemma AttachSpan(m: Shape, m': Shape, order: seq<Region>, node: Region, q: Region, d: Dir, p: nat, n: Region)
    requires Placed(m, order) && Attached(m, m', node, q, d, p) && n in m
    ensures m'[n].lo == Opened(m[n], p).lo && m'[n].pos == Opened(m[n], p).pos && m'[n].hi == Opened(m[n], p).hi
    ensures 0 <= m'[n].lo <= m'[n].pos < m'[n].hi <= |order| + 1
  {
  }

  lemma AttachedNodeFits(m: Shape, m': Shape, root: Region, node: Region, q: Region, d: Dir, p: int)
    requires Attached(m, m', node, q, d, p) && root in m
    ensures Fits(m', root, node)
  {
  }

  /** Attaching a node at a gap keeps the shape right and adds exactly that node there. */
  lemma AttachKeepsShape(m: Shape, m': Shape, root: Region, order: seq<Region>, node: Region, q: Region, d: Dir, p: nat)
    requires ShapeOk(m, root, order) && Attached(m, m', node, q, d, p)
    requires p <= |order| && GapOpen(m, order, d, p)
    ensures ShapeOk(m', root, WithNode(order, node, p))
  {
    hide Fits, WithNode;
    forall n | n in m' ensures Fits(m', root, n) {
      if n == node {
        AttachedNodeFits(m, m', root, node, q, d, p);
      } else {
        NeighboursFit(m, root, q);
        NeighboursFit(m, root, n);
        assert m[n].pos == p ==> n == order[p];
        assert m[n].pos + 1 == p ==> n == order[p - 1];
        AttachFits(m, m', root, node, q, d, p, n);
      }
    }
    AttachPlaces(m, m', order, node, q, d, p);
  }

  ghost predicate SortedByBase(order: seq<Region>) {
    forall i, j :: 0 <= i < j < |order| ==> order[i].base <= order[j].base
  }

  // A key goes behind all keys that are not larger.
  ghost predicate FitsAt(order: seq<Region>, key: nat, p: int) {
    && (forall i :: 0 <= i < p && i < |order| ==> order[i].base <= key)
    && (forall i :: p <= i < |order| && 0 <= i ==> key < order[i].base)
  }

  // Everything before the stretch of n is at most `key`, everything behind it is above, and the
  // nodes next to the stretch have n below them.
  ghost predicate Leads(m: Shape, order: seq<Region>, key: nat, n: Region)
    requires n in m && Placed(m, order)
  {
    && (forall i :: 0 <= i < m[n].lo ==> order[i].base <= key)
    && (forall i :: m[n].hi <= i < |order| ==> key < order[i].base)
    && (0 < m[n].lo ==> m[order[m[n].lo - 1]].hi >= m[n].hi)
    && (m[n].hi < |order| ==> m[order[m[n].hi]].lo <= m[n].lo)
  }

  lemma LeadsDown(m: Shape, root: Region?, order: seq<Region>, key: nat, n: Region)
    requires ShapeOk(m, root, order) && SortedByBase(order) && n in m && Leads(m, order, key, n)
    ensures var child := Child(m[n], if key < n.base then L else R);
      child != null ==> child in m && Leads(m, order, key, child) && m[child].hi - m[child].lo < m[n].hi - m[n].lo
  {
    assert Fits(m, root, n) && order[m[n].pos] == n;
  }

  // At the end of the search there is a gap for the key.
  lemma LeadsToGap(m: Shape, root: Region?, order: seq<Region>, key: nat, n: Region)
    requires ShapeOk(m, root, order) && SortedByBase(order) && n in m && Leads(m, order, key, n)
    requires Child(m[n], if key < n.base then L else R) == null
    ensures var p := if key < n.base then m[n].pos else m[n].pos + 1;
      && 0 <= p <= |order| && GapOpen(m, order, if key < n.base then L else R, p)
      && FitsAt(order, key, p)
  {
    assert Fits(m, root, n) && order[m[n].pos] == n;
  }

  lemma SortedInsert(order: seq<Region>, node: Region, p: nat)
    requires SortedByBase(order) && p <= |order| && FitsAt(order, node.base, p)
    ensures SortedByBase(WithNode(order, node, p))
  {
  }

  lemma FrontInsert(order: seq<Region>, key: nat, p: nat)
    requires FitsAt(order, key, p) && p <= |order| && order != []
    ensures p == 0 <==> key < order[0].base
  {
  }

  // ----- detaching the root -----

  lemma RootFacts(m: Shape, x: Region, order: seq<Region>)
    requires ShapeOk(m, x, order)
    ensures x in m && 0 <= m[x].pos < |order| && order[m[x].pos] == x
    ensures m[x].left != null ==>
      m[x].left in m && m[x].left != x && m[x].left != m[x].right && m[m[x].left].hi == m[x].pos
    ensures m[x].right != null ==> m[x].right in m && m[x].right != x && m[m[x].right].pos > m[x].pos
    ensures m[x].left == null <==> m[x].pos == 0
  {
    NeighboursFit(m, x, x);
  }

  lemma PlaceOf(m: Shape, root: Region?, order: seq<Region>, i: nat)
    requires ShapeOk(m, root, order) && i < |order|
    ensures order[i] in m && m[order[i]].pos == i
    ensures forall j :: 0 <= j < |order| && j != i ==> order[j] != order[i]
  {
    assert forall j :: 0 <= j < |order| ==> m[order[j]].pos == j;
  }

  lemma OtherNode(m: Shape, root: Region?, order: seq<Region>, n: Region)
    requires ShapeOk(m, root, order) && n in m
    ensures exists i :: 0 <= i < |order| && order[i] == n
  {
  }

  ghost function Without(order: seq<Region>, p: nat): (r: seq<Region>)
    requires p < |order|
    ensures |r| == |order| - 1
  {
    order[..p] + order[p + 1..]
  }

  lemma WithoutFront(order: seq<Region>, p: nat)
    requires p < |order| && |order| > 1
    ensures Without(order, p)[0] == order[if p == 0 then 1 else 0]
  {
  }

  lemma SortedWithout(order: seq<Region>, p: nat)
    requires SortedByBase(order) && p < |order|
    ensures SortedByBase(Without(order, p))
  {
  }

  // Closes up position p of a sequence of `count` nodes; stretches that ended at p now run to the end.
  ghost function Closed(c: Cell, p: int, count: int): (r: Cell)
    ensures r.parent == c.parent && r.left == c.left && r.right == c.right
  {
    c.(lo := if c.lo <= p then c.lo else c.lo - 1,
       pos := if c.pos < p then c.pos else c.pos - 1,
       hi := if c.hi < p then c.hi else if c.hi == p then count - 1 else c.hi - 1)
  }

  // The new root once the old root's subtrees are joined.
  function Joined(left: Region?, right: Region?): Region? {
    if left != null then left else right
  }

  /** m' is m without its root x: the right subtree hangs below the last node `last` of the left
      one, or takes over when there is no left one. */
  ghost predicate Detached(m: Shape, m': Shape, x: Region, last: Region?, count: int) {
    && x in m && m'.Keys == m.Keys - {x}
    && var c := m[x];
    && (last != null <==> c.left != null && c.right != null)
    && (last != null ==> last in m && last != x && m[last].right == null && m[last].hi == c.pos)
    && forall n :: n in m && n != x ==>
         m'[n] == Closed(m[n], c.pos, count).(
           parent := if n == Joined(c.left, c.right) then null else if n == c.right then last else m[n].parent,
           right := if n == last then c.right else m[n].right)
  }

  ghost predicate AroundRoot(m: Shape, x: Region, last: Region?, count: int) {
    && x in m
    && Fits(m, x, x) && Fits(m, x, m[x].left) && Fits(m, x, m[x].right) && Fits(m, x, last)
    && m[x].lo == 0 && m[x].hi == count
  }

  lemma DetachSpans(m: Shape, m': Shape, x: Region, last: Region?, count: int, n: Region)
    requires Detached(m, m', x, last, count) && AroundRoot(m, x, last, count) && Around(m, x, n) && n != x
    requires m[n].hi == m[x].pos && m[n].right == null ==> m[x].right == null || n == last
    requires forall k :: k in m && m[k].pos == m[x].pos ==> k == x
    ensures SpanOk(m', n)
  {
  }

  lemma DetachLinks(m: Shape, m': Shape, x: Region, last: Region?, count: int, n: Region)
    requires Detached(m, m', x, last, count) && AroundRoot(m, x, last, count) && Around(m, x, n) && n != x
    ensures DownOk(m', n) && UpOk(m', Joined(m[x].left, m[x].right), n)
  {
  }

  lemma DetachPlaces(m: Shape, m': Shape, order: seq<Region>, x: Region, last: Region?)
    requires Placed(m, order) && Detached(m, m', x, last, |order|)
    ensures Placed(m', Without(order, m[x].pos))
  {
    var p := m[x].pos;
    var order' := Without(order, p);
    forall n | n in m' ensures 0 <= m'[n].pos < |order'| && order'[m'[n].pos] == n {
      assert m'[n].pos == Closed(m[n], p, |order|).pos && m[n].pos != p;
    }
    forall i | 0 <= i < |order'| ensures order'[i] in m' && m'[order'[i]].pos == i {
      var n := order'[i];
      assert n == order[if i < p then i else i + 1];
      assert m'[n].pos == Closed(m[n], p, |order|).pos;
    }
  }

  /** Detaching the root keeps the shape right and removes exactly that node. */
  lemma DetachKeepsShape(m: Shape, m': Shape, order: seq<Region>, x: Region, last: Region?)
    requires ShapeOk(m, x, order) && Detached(m, m', x, last, |order|)
    ensures ShapeOk(m', Joined(m[x].left, m[x].right), Without(order, m[x].pos))
  {
    NeighboursFit(m, x, x);
    assert last != null ==> Fits(m, x, last);
    assert forall k :: k in m && m[k].pos == m[x].pos ==> k == x;
    forall n | n in m' ensures Fits(m', Joined(m[x].left, m[x].right), n) {
      NeighboursFit(m, x, n);
      if m[n].hi == m[x].pos && m[n].right == null && last != null {
        assert m[n].pos == m[last].pos;
        assert n == order[m[n].pos] == last;
      }
      DetachSpans(m, m', x, last, |order|, n);
      DetachLinks(m, m', x, last, |order|, n);
    }
    DetachPlaces(m, m', order, x, last);
  }

  // ----- reading the links from left to right -----

  /** The nodes below n in the order in which the child links visit them. */
  ghost function InOrder(m: Shape, root: Region?, n: Region?): seq<Region>
    requires LinksOk(m, root) && (n != null ==> n in m)
    decreases if n == null then 0 else m[n].hi - m[n].lo
  {
    if n == null then []
    else
      assert Fits(m, root, n);
      InOrder(m, root, m[n].left) + [n] + InOrder(m, root, m[n].right)
  }

  /** Following the links from the root visits exactly the recorded sequence. */
  lemma {:induction false} LinksVisitOrder(m: Shape, root: Region?, order: seq<Region>, n: Region)
    requires ShapeOk(m, root, order) && n in m
    ensures InOrder(m, root, n) == order[m[n].lo..m[n].hi]
    decreases m[n].hi - m[n].lo
  {
    var c := m[n];
    assert Fits(m, root, n);
    if c.left != null {
      LinksVisitOrder(m, root, order, c.left);
    }
    if c.right != null {
      LinksVisitOrder(m, root, order, c.right);
    }
    assert order[c.pos] == n;
    assert order[c.lo..c.hi] == order[c.lo..c.pos] + [n] + order[c.pos + 1..c.hi];
  }

  // ----- the tree object -----

  // ----- what splaying costs -----

  /** The number of times that a number can be halved. */
  ghost function Rank(n: nat): nat
    requires n > 0
  {
    if n == 1 then 0 else 1 + Rank(n / 2)
  }

  lemma {:induction false} RankGrows(a: nat, b: nat)
    requires 0 < a <= b
    ensures Rank(a) <= Rank(b)
  {
    if a > 1 {
      RankGrows(a / 2, b / 2);
    }
  }

  /** Two parts of a whole cannot both have its rank. */
  lemma {:induction false} PartsRank(a: nat, b: nat, c: nat)
    requires a > 0 && b > 0 && a + b <= c
    ensures Rank(a) < Rank(c) || Rank(b) < Rank(c)
  {
    if a > 1 && b > 1 {
      PartsRank(a / 2, b / 2, c / 2);
    }
  }

  ghost function RankOf(c: Cell): nat
    requires c.lo < c.hi
  {
    Rank(c.hi - c.lo)
  }

  ghost predicate Stretched(m: Shape, order: seq<Region>) {
    forall i :: 0 <= i < |order| ==> order[i] in m && m[order[i]].lo < m[order[i]].hi
  }

  ghost function Ranks(m: Shape, order: seq<Region>): seq<int>
    requires Stretched(m, order)
  {
    seq(|order|, i requires 0 <= i < |order| => RankOf(m[order[i]]))
  }

  ghost function Same(): int -> int { x => x }

  /** The ranks of all subtrees together: how much splaying is paid for in advance. */
  ghost function Potential(m: Shape, order: seq<Region>): int
    requires Stretched(m, order)
  {
    Sum(Same(), Ranks(m, order))
  }

  lemma ShapeStretched(m: Shape, root: Region?, order: seq<Region>)
    requires ShapeOk(m, root, order)
    ensures Stretched(m, order)
  {
  }

  lemma {:induction false} SumBounds(s: seq<int>, bound: nat)
    requires forall i :: 0 <= i < |s| ==> 0 <= s[i] <= bound
    ensures 0 <= Sum(Same(), s) <= |s| * bound
  {
    if s != [] {
      SumBounds(s[..|s| - 1], bound);
      assert |s| * bound == (|s| - 1) * bound + bound;
    }
  }

  lemma PotentialBounds(m: Shape, root: Region?, order: seq<Region>)
    requires ShapeOk(m, root, order) && order != []
    ensures Stretched(m, order) && 0 <= Potential(m, order) <= |order| * Rank(|order|)
  {
    hide Rank;
    ShapeStretched(m, root, order);
    forall i | 0 <= i < |order| ensures 0 <= Ranks(m, order)[i] <= Rank(|order|) {
      RankGrows(m[order[i]].hi - m[order[i]].lo, |order|);
    }
    SumBounds(Ranks(m, order), Rank(|order|));
  }

  // A rotation changes the ranks of two nodes.
  lemma RotationPotential(m: Shape, m': Shape, order: seq<Region>, d: Dir, node: Region, pivot: Region, inner: Region?,
                          parent: Region?)
    requires Placed(m, order) && Rotated(m, m', d, node, pivot, inner, parent) && node != pivot
    requires Stretched(m, order) && Stretched(m', order)
    ensures Potential(m', order) == Potential(m, order) + RankOf(m'[node]) - RankOf(m[node])
                                    + RankOf(m'[pivot]) - RankOf(m[pivot])
  {
    hide Rank, Sum;
    var a, b := Ranks(m, order), Ranks(m', order);
    var i, j := m[node].pos, m[pivot].pos;
    SumUpdate(Same(), a, i, b[i]);
    SumUpdate(Same(), a[i := b[i]], j, b[j]);
    forall k | 0 <= k < |order| ensures b[k] == a[i := b[i]][j := b[j]][k] {
      RotationKeepsPlaces(m, m', d, node, pivot, inner, parent, order[k]);
    }
    assert b == a[i := b[i]][j := b[j]];
  }

  // Three subtrees before a round with a grandparent and after it.
  lemma {:induction false} RoundPays(x: nat, p: nat, g: nat, x': nat, p': nat, g': nat)
    requires 0 < x <= p <= g == x' && 0 < p' <= x' && 0 < g' <= x' && (x + g' <= x' || p' + g' <= x')
    ensures Rank(x') + Rank(p') + Rank(g') + 1 - Rank(x) - Rank(p) - Rank(g) <= 3 * (Rank(x') - Rank(x))
  {
    hide Rank;
    RankGrows(x, p);
    RankGrows(p, g);
    RankGrows(p', x');
    RankGrows(g', x');
    if x + g' <= x' {
      PartsRank(x, g', x');
    } else {
      PartsRank(p', g', x');
    }
  }

  // The stretches of a node and its parent.
  lemma ChildStretch(m: Shape, root: Region?, order: seq<Region>, d: Dir, parent: Region, child: Region)
    requires ShapeOk(m, root, order) && parent in m && Child(m[parent], d) == child
    ensures child in m && parent != child
    ensures 0 < m[child].hi - m[child].lo < m[parent].hi - m[parent].lo && m[child].lo <= m[child].pos < m[child].hi
    ensures if d.L? then m[child].lo == m[parent].lo && m[child].hi == m[parent].pos
            else m[child].lo == m[parent].pos + 1 && m[child].hi == m[parent].hi
  {
    assert Fits(m, root, parent);
    assert Fits(m, root, child);
  }

  /** A single rotation at the root costs no more than the node gains. */
  lemma ZigPays(m: Shape, m': Shape, root: Region?, order: seq<Region>, d: Dir, node: Region, parent: Region,
                inner: Region?, above: Region?)
    requires ShapeOk(m, root, order) && Rotated(m, m', d, parent, node, inner, above) && Stretched(m', order)
    ensures Stretched(m, order) && m[node].lo < m[node].hi && m'[node].lo < m'[node].hi
    ensures Potential(m', order) <= Potential(m, order) + RankOf(m'[node]) - RankOf(m[node])
  {
    hide Rank, Potential, LinksOk;
    ShapeStretched(m, root, order);
    ChildStretch(m, root, order, Other(d), parent, node);
    RotationPotential(m, m', order, d, parent, node, inner, above);
    RankGrows(m'[parent].hi - m'[parent].lo, m'[node].hi - m'[node].lo);
  }

  ghost function Width(m: Shape, n: Region): int
    requires n in m
  {
    m[n].hi - m[n].lo
  }

  lemma PlacedStays(m: Shape, m': Shape, order: seq<Region>, d: Dir, node: Region, pivot: Region, inner: Region?,
                    parent: Region?)
    requires Placed(m, order) && Rotated(m, m', d, node, pivot, inner, parent) && node != pivot
    requires 0 <= m'[node].lo <= m'[node].pos < m'[node].hi <= |order|
    requires 0 <= m'[pivot].lo <= m'[pivot].pos < m'[pivot].hi <= |order|
    ensures Placed(m', order) && Stretched(m', order)
  {
    forall n | n in m' ensures m'[n].pos == m[n].pos && 0 <= m'[n].lo <= m'[n].pos < m'[n].hi <= |order| {
      RotationKeepsPlaces(m, m', d, node, pivot, inner, parent, n);
    }
  }

  /** From m to m2 the grandparent has rotated and then the parent, both in the same direction. */
  ghost predicate SameSide(m: Shape, m1: Shape, m2: Shape, d: Dir, node: Region, parent: Region, grandparent: Region) {
    && node in m && parent in m && grandparent in m && Child(m[parent], Other(d)) == node && node in m1
    && Rotated(m, m1, d, grandparent, parent, Child(m[parent], d), m[grandparent].parent)
    && Rotated(m1, m2, d, parent, node, Child(m1[node], d), m[grandparent].parent)
  }

  /** From m to m2 the parent has rotated and then, in the other direction, the grandparent. */
  ghost predicate TwoSides(m: Shape, m1: Shape, m2: Shape, d: Dir, node: Region, parent: Region, grandparent: Region) {
    && node in m && parent in m && grandparent in m && Child(m[grandparent], d) == parent
    && node in m1 && grandparent in m1
    && Rotated(m, m1, d, parent, node, Child(m[node], d), grandparent)
    && Rotated(m1, m2, Other(d), grandparent, node, Child(m1[node], Other(d)), m1[grandparent].parent)
  }

  lemma ZigZigWidths(m: Shape, m1: Shape, m2: Shape, root: Region?, order: seq<Region>, d: Dir, node: Region,
                     parent: Region, grandparent: Region)
    requires ShapeOk(m, root, order) && SameSide(m, m1, m2, d, node, parent, grandparent)
    ensures m1.Keys == m2.Keys == m.Keys && parent in m && grandparent in m && node != parent && parent != grandparent
    ensures 0 < Width(m, node) < Width(m, parent) < Width(m, grandparent) == Width(m2, node)
    ensures Width(m1, node) == Width(m, node) && Width(m1, parent) == Width(m, grandparent)
    ensures Width(m1, grandparent) == Width(m2, grandparent) > 0 && 0 < Width(m2, parent) <= Width(m2, node)
    ensures Width(m, node) + Width(m2, grandparent) < Width(m2, node)
    ensures Placed(m1, order)
  {
    var inner, above, inner1 := Child(m[parent], d), m[grandparent].parent, Child(m1[node], d);
    hide LinksOk;
    ChildStretch(m, root, order, Other(d), parent, node);
    ChildStretch(m, root, order, Other(d), grandparent, parent);
    RotationKeepsPlaces(m, m1, d, grandparent, parent, inner, above, node);
    RotationKeepsPlaces(m1, m2, d, parent, node, inner1, above, grandparent);
    PlacedStays(m, m1, order, d, grandparent, parent, inner, above);
  }

  /** The double rotation of nodes on the same side costs, with one for the round itself, no more than three
      times what the node gains. */
  lemma ZigZigPays(m: Shape, m1: Shape, m2: Shape, root: Region?, order: seq<Region>, d: Dir, node: Region,
                   parent: Region, grandparent: Region)
    requires ShapeOk(m, root, order) && Stretched(m1, order) && Stretched(m2, order)
    requires SameSide(m, m1, m2, d, node, parent, grandparent)
    ensures Stretched(m, order) && node in m && node in m2 && 0 < Width(m, node) < Width(m2, node)
    ensures Potential(m2, order) + 1 <= Potential(m, order) + 3 * (RankOf(m2[node]) - RankOf(m[node]))
  {
    hide Rank, Potential, ShapeOk, Rotated, Placed, Stretched;
    ZigZigWidths(m, m1, m2, root, order, d, node, parent, grandparent);
    var inner, above, inner1 := Child(m[parent], d), m[grandparent].parent, Child(m1[node], d);
    ShapeStretched(m, root, order);
    PlacedOf(m, root, order);
    RotationPotential(m, m1, order, d, grandparent, parent, inner, above);
    RotationPotential(m1, m2, order, d, parent, node, inner1, above);
    RoundPays(Width(m, node), Width(m, parent), Width(m, grandparent),
              Width(m2, node), Width(m2, parent), Width(m2, grandparent));
  }

  lemma LinkedBelow(m: Shape, root: Region?, order: seq<Region>, d: Dir, parent: Region, child: Region)
    requires ShapeOk(m, root, order) && parent in m && Child(m[parent], d) == child
    ensures child in m && m[child].parent == parent && child != parent && m[parent].left != m[parent].right
  {
    assert Fits(m, root, parent) && Fits(m, root, child);
  }

  // After the first of two rotations the node stands where its parent stood.
  lemma SecondPivot(m: Shape, m1: Shape, d: Dir, node: Region, parent: Region, grandparent: Region)
    requires node in m && parent in m && grandparent in m && node != grandparent && parent != grandparent
    requires Rotated(m, m1, d, parent, node, Child(m[node], d), grandparent) && Child(m[grandparent], d) == parent
    requires m[grandparent].left != m[grandparent].right
    ensures m1.Keys == m.Keys && m1[node].parent == grandparent && Child(m1[grandparent], d) == node
  {
  }

  lemma ZigZagWidths(m: Shape, m1: Shape, m2: Shape, root: Region?, order: seq<Region>, d: Dir, node: Region,
                     parent: Region, grandparent: Region)
    requires ShapeOk(m, root, order) && TwoSides(m, m1, m2, d, node, parent, grandparent)
    ensures m1.Keys == m2.Keys == m.Keys && parent in m && node in m && node != parent && node != grandparent
    ensures 0 < Width(m, node) < Width(m, parent) < Width(m, grandparent) == Width(m2, node)
    ensures Width(m1, parent) == Width(m2, parent) > 0 && Width(m1, node) == Width(m, parent)
    ensures Width(m1, grandparent) == Width(m, grandparent) && 0 < Width(m2, grandparent)
    ensures Width(m2, parent) + Width(m2, grandparent) < Width(m2, node)
    ensures Placed(m1, order)
  {
    var inner, above, inner1 := Child(m[node], d), m1[grandparent].parent, Child(m1[node], Other(d));
    hide LinksOk;
    ChildStretch(m, root, order, Other(d), parent, node);
    ChildStretch(m, root, order, d, grandparent, parent);
    RotationKeepsPlaces(m, m1, d, parent, node, inner, grandparent, grandparent);
    RotationKeepsPlaces(m1, m2, Other(d), grandparent, node, inner1, above, parent);
    PlacedStays(m, m1, order, d, parent, node, inner, grandparent);
  }

  /** And so does the double rotation of nodes on different sides. */
  lemma ZigZagPays(m: Shape, m1: Shape, m2: Shape, root: Region?, order: seq<Region>, d: Dir, node: Region,
                   parent: Region, grandparent: Region)
    requires ShapeOk(m, root, order) && Stretched(m1, order) && Stretched(m2, order)
    requires TwoSides(m, m1, m2, d, node, parent, grandparent)
    ensures Stretched(m, order) && node in m && node in m2 && 0 < Width(m, node) < Width(m2, node)
    ensures Potential(m2, order) + 1 <= Potential(m, order) + 3 * (RankOf(m2[node]) - RankOf(m[node]))
  {
    hide Rank, Potential, ShapeOk, Rotated, Placed, Stretched;
    ZigZagWidths(m, m1, m2, root, order, d, node, parent, grandparent);
    var inner, above, inner1 := Child(m[node], d), m1[grandparent].parent, Child(m1[node], Other(d));
    ShapeStretched(m, root, order);
    PlacedOf(m, root, order);
    RotationPotential(m, m1, order, d, parent, node, inner, grandparent);
    RotationPotential(m1, m2, order, Other(d), grandparent, node, inner1, above);
    RoundPays(Width(m, node), Width(m, parent), Width(m, grandparent),
              Width(m2, node), Width(m2, parent), Width(m2, grandparent));
  }

  lemma WidthBounds(m: Shape, root: Region?, order: seq<Region>, node: Region)
    requires ShapeOk(m, root, order) && node in m
    ensures 0 < Width(m, node) <= |order|
    ensures m[node].parent == null ==> node == root && Width(m, node) == |order|
  {
    assert Fits(m, root, node);
  }

  lemma PlacedOf(m: Shape, root: Region?, order: seq<Region>)
    requires ShapeOk(m, root, order)
    ensures Placed(m, order)
  {
  }

  // ----- depth -----

  /** How many links lie between a node and the root. */
  ghost function RootDistance(m: Shape, root: Region?, order: seq<Region>, n: Region): nat
    requires ShapeOk(m, root, order) && n in m
    decreases |order| - Width(m, n)
  {
    WidthBounds(m, root, order, n);
    if m[n].parent == null then 0
    else
      ParentWider(m, root, order, n);
      1 + RootDistance(m, root, order, m[n].parent)
  }

  lemma ParentWider(m: Shape, root: Region?, order: seq<Region>, n: Region)
    requires ShapeOk(m, root, order) && n in m && m[n].parent != null
    ensures m[n].parent in m && Width(m, n) < Width(m, m[n].parent) <= |order|
  {
    assert Fits(m, root, n);
    var parent := m[n].parent;
    ChildStretch(m, root, order, if m[parent].left == n then L else R, parent, n);
    WidthBounds(m, root, order, parent);
  }

  // Above a rotation nothing changes.
  lemma {:induction false} DepthAbove(m: Shape, m': Shape, root: Region?, root': Region?, order: seq<Region>, n: Region,
                                      width: int)
    requires ShapeOk(m, root, order) && ShapeOk(m', root', order) && m'.Keys == m.Keys && n in m
    requires forall x :: x in m && Width(m, x) > width ==> m'[x].parent == m[x].parent
    requires Width(m, n) > width
    ensures RootDistance(m', root', order, n) == RootDistance(m, root, order, n)
    decreases |order| - Width(m, n)
  {
    hide ShapeOk;
    WidthBounds(m, root, order, n);
    if m[n].parent != null {
      ParentWider(m, root, order, n);
      DepthAbove(m, m', root, root', order, m[n].parent, width);
    }
  }

  /** In a rotation the pivot comes to the depth of the node. */
  lemma RotationDepth(m: Shape, m': Shape, root: Region?, root': Region?, order: seq<Region>, d: Dir, node: Region,
                      pivot: Region, inner: Region?, parent: Region?)
    requires ShapeOk(m, root, order) && ShapeOk(m', root', order) && Rotated(m, m', d, node, pivot, inner, parent)
    ensures RootDistance(m', root', order, pivot) == RootDistance(m, root, order, node)
  {
    if parent != null {
      hide LinksOk, Placed, RootOk, RootDistance;
      ParentWider(m, root, order, node);
      ChildStretch(m, root, order, Other(d), node, pivot);
      if inner != null {
        ChildStretch(m, root, order, d, pivot, inner);
      }
      DepthAbove(m, m', root, root', order, parent, Width(m, node));
      DepthBelow(m, root, order, node);
      DepthBelow(m', root', order, pivot);
    }
  }

  lemma ChildDepth(m: Shape, root: Region?, order: seq<Region>, d: Dir, parent: Region, child: Region)
    requires ShapeOk(m, root, order) && parent in m && Child(m[parent], d) == child
    ensures child in m && m[child].parent == parent
    ensures RootDistance(m, root, order, child) == 1 + RootDistance(m, root, order, parent)
  {
    assert Fits(m, root, parent);
    DepthBelow(m, root, order, child);
  }

  lemma SameSideDepth(m: Shape, m1: Shape, m2: Shape, root: Region?, root1: Region?, root2: Region?,
                      order: seq<Region>, d: Dir, node: Region, parent: Region, grandparent: Region)
    requires ShapeOk(m, root, order) && ShapeOk(m1, root1, order) && ShapeOk(m2, root2, order)
    requires SameSide(m, m1, m2, d, node, parent, grandparent)
    ensures node in m2 && RootDistance(m2, root2, order, node) + 2 == RootDistance(m, root, order, node)
  {
    hide ShapeOk, RootDistance;
    ChildDepth(m, root, order, Other(d), parent, node);
    ChildDepth(m, root, order, Other(d), grandparent, parent);
    RotationDepth(m, m1, root, root1, order, d, grandparent, parent, Child(m[parent], d), m[grandparent].parent);
    RotationDepth(m1, m2, root1, root2, order, d, parent, node, Child(m1[node], d), m[grandparent].parent);
  }

  lemma TwoSidesDepth(m: Shape, m1: Shape, m2: Shape, root: Region?, root1: Region?, root2: Region?,
                      order: seq<Region>, d: Dir, node: Region, parent: Region, grandparent: Region)
    requires ShapeOk(m, root, order) && ShapeOk(m1, root1, order) && ShapeOk(m2, root2, order)
    requires TwoSides(m, m1, m2, d, node, parent, grandparent)
    ensures node in m2 && RootDistance(m2, root2, order, node) + 2 == RootDistance(m, root, order, node)
  {
    hide ShapeOk, RootDistance;
    ChildDepth(m, root, order, Other(d), parent, node);
    RotationDepth(m, m1, root, root1, order, d, parent, node, Child(m[node], d), grandparent);
    ChildDepth(m1, root1, order, d, grandparent, node);
    RotationDepth(m1, m2, root1, root2, order, Other(d), grandparent, node, Child(m1[node], Other(d)),
                  m1[grandparent].parent);
  }

  lemma SearchStart(m: Shape, root: Region?, order: seq<Region>)
    requires ShapeOk(m, root, order)
    ensures root == null <==> order == []
    ensures root != null ==>
      root in m && m[root].lo == 0 && m[root].hi == |order| && RootDistance(m, root, order, root) == 0
  {
    if root != null {
      assert Fits(m, root, root);
    }
  }

  lemma EveryoneInOrder(m: Shape, root: Region?, order: seq<Region>)
    requires ShapeOk(m, root, order)
    ensures forall n :: n in m ==> 0 <= m[n].pos < |order| && order[m[n].pos] == n
  {
  }

  // What a search sees at a node.
  lemma DescentFacts(m: Shape, root: Region?, order: seq<Region>, n: Region)
    requires ShapeOk(m, root, order) && n in m
    ensures 0 <= m[n].lo <= m[n].pos < m[n].hi <= |order| && order[m[n].pos] == n
    ensures m[n].left == null <==> m[n].lo == m[n].pos
    ensures m[n].right == null <==> m[n].pos + 1 == m[n].hi
    ensures m[n].left != null ==> m[n].left in m && m[m[n].left].lo == m[n].lo && m[m[n].left].hi == m[n].pos
                                  && RootDistance(m, root, order, m[n].left) == 1 + RootDistance(m, root, order, n)
    ensures m[n].right != null ==> m[n].right in m && m[m[n].right].lo == m[n].pos + 1 && m[m[n].right].hi == m[n].hi
                                   && RootDistance(m, root, order, m[n].right) == 1 + RootDistance(m, root, order, n)
  {
    assert Fits(m, root, n);
    if m[n].left != null {
      ChildDepth(m, root, order, L, n, m[n].left);
    }
    if m[n].right != null {
      ChildDepth(m, root, order, R, n, m[n].right);
    }
  }

  lemma RootDepth(m: Shape, root: Region?, order: seq<Region>, n: Region)
    requires ShapeOk(m, root, order) && n in m && m[n].parent == null
    ensures RootDistance(m, root, order, n) == 0
  {
  }

  lemma DepthBelow(m: Shape, root: Region?, order: seq<Region>, n: Region)
    requires ShapeOk(m, root, order) && n in m && m[n].parent != null
    ensures m[n].parent in m && RootDistance(m, root, order, n) == 1 + RootDistance(m, root, order, m[n].parent)
  {
    ParentWider(m, root, order, n);
  }

  class RegionTree {
    var root: Region?
    var minimum: Region?
    ghost var order: seq<Region>
    ghost var cells: Shape
    ghost var links: nat  // the child links that searches have followed to what they found

    // The heap's links are those of the shape.
    ghost predicate Matches()
      reads this`cells, cells.Keys`parent, cells.Keys`left, cells.Keys`right
    {
      forall n :: n in cells ==> n.parent == cells[n].parent && n.left == cells[n].left && n.right == cells[n].right
    }

    // What holds of everything but the minimum pointer.
    ghost predicate Sound()
      reads this`root, this`order, this`cells, cells.Keys`parent, cells.Keys`left, cells.Keys`right
    {
      Matches() && ShapeOk(cells, root, order) && SortedByBase(order)
    }

    ghost predicate Valid()
      reads this, cells.Keys`parent, cells.Keys`left, cells.Keys`right
    {
      && Sound()
      && (minimum == null <==> order == [])
      && (minimum != null ==> minimum in cells)
    }

    /** The minimum pointer points to the first node. */
    ghost predicate MinimumExact()
      reads this
    {
      minimum == if order == [] then null else order[0]
    }

    /** What is paid for in advance. */
    ghost function Stored(): int
      requires Valid()
      reads this, cells.Keys`parent, cells.Keys`left, cells.Keys`right
    {
      ShapeStretched(cells, root, order);
      Potential(cells, order)
    }

    // The rank of the subtree below a node.
    ghost function RankAt(node: Region): nat
      requires Valid() && node in cells
      reads this, cells.Keys`parent, cells.Keys`left, cells.Keys`right
    {
      assert cells[node].lo < cells[node].hi;
      RankOf(cells[node])
    }

    ghost function DepthAt(node: Region): nat
      requires Valid() && node in cells
      reads this, cells.Keys`parent, cells.Keys`left, cells.Keys`right
    {
      RootDistance(cells, root, order, node)
    }

    constructor ()
      ensures Valid() && order == [] && cells == map[] && MinimumExact() && links == 0
    {
      root, minimum := null, null;
      order, cells, links := [], map[], 0;
    }

    // The pointer updates of rotate<d>, for nodes that are all different.
    method Relink(d: Dir, node: Region, pivot: Region, inner: Region?, parent: Region?)
      requires node != pivot && inner != node && inner != pivot && parent != node && parent != pivot
      requires inner == null || inner != parent
      requires parent == node.parent && (if d.L? then node.right else node.left) == pivot
      requires (if d.L? then pivot.left else pivot.right) == inner
      modifies this`root, node`parent, node`left, node`right, pivot`parent, pivot`left, pivot`right
      modifies if inner == null then {} else {inner}`parent
      modifies if parent == null then {} else {parent}`left, if parent == null then {} else {parent}`right
      ensures root == if parent == null then pivot else old(root)
      ensures node.parent == pivot && pivot.parent == parent
      ensures if d.L? then node.left == old(node.left) && node.right == inner
                      else node.left == inner && node.right == old(node.right)
      ensures if d.L? then pivot.left == node && pivot.right == old(pivot.right)
                      else pivot.left == old(pivot.left) && pivot.right == node
      ensures inner != null ==> inner.parent == node
      ensures parent != null ==>
        if old(parent.left) == node then parent.left == pivot && parent.right == old(parent.right)
        else parent.left == old(parent.left) && parent.right == pivot
    {
      if d.L? {
        node.right := inner;
      } else {
        node.left := inner;
      }
      if inner != null {
        inner.parent := node;
      }
      pivot.parent := parent;
      if parent == null {
        root := pivot;
      } else if parent.left == node {
        parent.left := pivot;
      } else {
        parent.right := pivot;
      }
      if d.L? {
        pivot.left := node;
      } else {
        pivot.right := node;
      }
      node.parent := pivot;
    }

    // rotate<d> as a change of the shape.
    method RotateShape(d: Dir, node: Region, pivot: Region, inner: Region?, parent: Region?)
      requires Matches()
      requires node in cells && pivot in cells
      requires (inner != null ==> inner in cells) && (parent != null ==> parent in cells)
      requires node != pivot && inner != node && inner != pivot && parent != node && parent != pivot
      requires inner == null || inner != parent
      requires parent == node.parent && (if d.L? then node.right else node.left) == pivot
      requires (if d.L? then pivot.left else pivot.right) == inner
      modifies this`root, this`cells, cells.Keys`parent, cells.Keys`left, cells.Keys`right
      ensures Matches() && cells.Keys == old(cells.Keys)
      ensures Rotated(old(cells), cells, d, node, pivot, inner, parent)
      ensures root == if parent == null then pivot else old(root)
    {
      hide AfterRotation;
      AfterRotationIsRotated(cells, d, node, pivot, inner, parent);
      Relink(d, node, pivot, inner, parent);
      cells := AfterRotation(cells, d, node, pivot, inner, parent);
      forall n | n in cells
        ensures n.parent == cells[n].parent && n.left == cells[n].left && n.right == cells[n].right
      {
        if n != node && n != pivot && n != inner && n != parent {
          assert n.parent == old(n.parent) && n.left == old(n.left) && n.right == old(n.right);
        }
      }
    }

    /** rotate: the child on the other side takes the node's place; the node sequence stays. */
    method Rotate(d: Dir, node: Region)
      requires Valid() && node in cells && Child(cells[node], Other(d)) != null
      modifies this`root, this`cells, cells.Keys`parent, cells.Keys`left, cells.Keys`right
      ensures Valid() && cells.Keys == old(cells.Keys)
      ensures var m := old(cells); var pivot := Child(m[node], Other(d));
        pivot in m && Rotated(m, cells, d, node, pivot, Child(m[pivot], d), m[node].parent)
    {
      RotationNodesDiffer(cells, root, d, node);
      var pivot := if d.L? then node.right else node.left;
      var inner := if d.L? then pivot.left else pivot.right;
      var parent := node.parent;
      RotateShape(d, node, pivot, inner, parent);
      RotationKeepsShape(old(cells), cells, old(root), order, d, node, pivot, inner, parent);
    }

    // One round of splay's loop below the root.
    method Zig(node: Region, d: Dir)
      requires Valid() && node in cells && node.parent != null && node.parent in cells
      requires Child(cells[node.parent], Other(d)) == node
      modifies this`root, this`cells, cells.Keys`parent, cells.Keys`left, cells.Keys`right
      ensures Valid() && cells.Keys == old(cells.Keys)
      ensures Width(cells, node) > old(Width(cells, node))
      ensures node.parent == old(node.parent.parent) && DepthAt(node) + 1 == old(DepthAt(node))
      ensures Stored() <= old(Stored()) + RankAt(node) - old(RankAt(node))
    {
      hide Rank, Potential, RootDistance;
      ghost var m, top := cells, root;
      NeighboursFit(m, root, node);
      DepthBelow(m, root, order, node);
      var parent := node.parent;
      Rotate(d, parent);
      assert cells[node].lo == m[parent].lo && cells[node].hi == m[parent].hi;
      assert cells[node].parent == m[parent].parent;
      ShapeStretched(cells, root, order);
      ZigPays(m, cells, top, order, d, node, parent, Child(m[node], d), m[parent].parent);
      RotationDepth(m, cells, top, root, order, d, parent, node, Child(m[node], d), m[parent].parent);
    }

    // The grandparent rotates first, then the parent.
    method RotateTwice(node: Region, d: Dir) returns (ghost m1: Shape, ghost top1: Region?)
      requires Valid() && node in cells
      requires node.parent != null && node.parent.parent != null && node.parent in cells && node.parent.parent in cells
      requires Child(cells[node.parent], Other(d)) == node && Child(cells[node.parent.parent], Other(d)) == node.parent
      modifies this`root, this`cells, cells.Keys`parent, cells.Keys`left, cells.Keys`right
      ensures Valid() && cells.Keys == old(cells.Keys) && ShapeOk(m1, top1, order)
      ensures SameSide(old(cells), m1, cells, d, node, old(node.parent), old(node.parent.parent))
    {
      ghost var m := cells;
      var parent := node.parent;
      NeighboursFit(m, root, node);
      NeighboursFit(m, root, parent);
      NeighboursFit(m, root, parent.parent);
      Rotate(d, parent.parent);
      m1, top1 := cells, root;
      assert Child(m1[parent], Other(d)) == node && m1[parent].parent == m[old(parent.parent)].parent;
      Rotate(d, parent);
    }

    // One round when node and parent are children on the same side.
    method ZigZig(node: Region, d: Dir)
      requires Valid() && node in cells
      requires node.parent != null && node.parent.parent != null && node.parent in cells && node.parent.parent in cells
      requires Child(cells[node.parent], Other(d)) == node && Child(cells[node.parent.parent], Other(d)) == node.parent
      modifies this`root, this`cells, cells.Keys`parent, cells.Keys`left, cells.Keys`right
      ensures Valid() && cells.Keys == old(cells.Keys)
      ensures Width(cells, node) > old(Width(cells, node))
      ensures DepthAt(node) + 2 == old(DepthAt(node))
      ensures Stored() + 1 <= old(Stored()) + 3 * (RankAt(node) - old(RankAt(node)))
    {
      hide Rank, Potential, RootDistance, SameSide, ShapeOk, SortedByBase, Matches;
      ghost var m, top, parent, grandparent := cells, root, node.parent, node.parent.parent;
      ghost var m1, top1 := RotateTwice(node, d);
      ShapeStretched(m1, top1, order);
      ShapeStretched(cells, root, order);
      SameSideDepth(m, m1, cells, top, top1, root, order, d, node, parent, grandparent);
      ZigZigPays(m, m1, cells, top, order, d, node, parent, grandparent);
    }

    // The parent rotates, then the new parent, the other way round.
    method RotateBack(node: Region, d: Dir) returns (ghost m1: Shape, ghost top1: Region?)
      requires Valid() && node in cells
      requires node.parent != null && node.parent.parent != null && node.parent in cells && node.parent.parent in cells
      requires Child(cells[node.parent], Other(d)) == node && Child(cells[node.parent.parent], d) == node.parent
      modifies this`root, this`cells, cells.Keys`parent, cells.Keys`left, cells.Keys`right
      ensures Valid() && cells.Keys == old(cells.Keys) && ShapeOk(m1, top1, order)
      ensures TwoSides(old(cells), m1, cells, d, node, old(node.parent), old(node.parent.parent))
    {
      hide Rotated, ShapeOk, SortedByBase;
      ghost var m, parent, grandparent := cells, node.parent, node.parent.parent;
      LinkedBelow(m, root, order, Other(d), parent, node);
      LinkedBelow(m, root, order, d, grandparent, parent);
      assert node != grandparent by { ParentWider(m, root, order, node); ParentWider(m, root, order, parent); }
      Rotate(d, node.parent);
      m1, top1 := cells, root;
      SecondPivot(m, m1, d, node, parent, grandparent);
      Rotate(Other(d), node.parent);
    }

    // One round when they are children on different sides.
    method ZigZag(node: Region, d: Dir)
      requires Valid() && node in cells
      requires node.parent != null && node.parent.parent != null && node.parent in cells && node.parent.parent in cells
      requires Child(cells[node.parent], Other(d)) == node && Child(cells[node.parent.parent], d) == node.parent
      modifies this`root, this`cells, cells.Keys`parent, cells.Keys`left, cells.Keys`right
      ensures Valid() && cells.Keys == old(cells.Keys)
      ensures Width(cells, node) > old(Width(cells, node))
      ensures DepthAt(node) + 2 == old(DepthAt(node))
      ensures Stored() + 1 <= old(Stored()) + 3 * (RankAt(node) - old(RankAt(node)))
    {
      hide Rank, Potential, RootDistance, TwoSides, ShapeOk, SortedByBase, Matches;
      ghost var m, top, parent, grandparent := cells, root, node.parent, node.parent.parent;
      ghost var m1, top1 := RotateBack(node, d);
      ShapeStretched(m1, top1, order);
      ShapeStretched(cells, root, order);
      TwoSidesDepth(m, m1, cells, top, top1, root, order, d, node, parent, grandparent);
      ZigZagPays(m, m1, cells, top, order, d, node, parent, grandparent);
    }

    method SplayRound(node: Region)
      requires Valid() && node in cells && node.parent != null
      modifies this`root, this`cells, cells.Keys`parent, cells.Keys`left, cells.Keys`right
      ensures Valid() && cells.Keys == old(cells.Keys)
      ensures Width(cells, node) > old(Width(cells, node))
      ensures if old(node.parent.parent) == null
        then node.parent == null && old(DepthAt(node)) == 1 && DepthAt(node) == 0
             && Stored() <= old(Stored()) + RankAt(node) - old(RankAt(node))
        else DepthAt(node) + 2 == old(DepthAt(node))
             && Stored() + 1 <= old(Stored()) + 3 * (RankAt(node) - old(RankAt(node)))
    {
      hide Rank, Potential;
      DepthBelow(cells, root, order, node);
      NeighboursFit(cells, root, node);
      var parent := node.parent;
      NeighboursFit(cells, root, parent);
      if parent.parent == null {
        if parent.left == node {
          Zig(node, R);
        } else {
          Zig(node, L);
        }
      } else if parent.left == node && parent.parent.left == parent {
        ZigZig(node, R);
      } else if parent.right == node && parent.parent.right == parent {
        ZigZig(node, L);
      } else if parent.left == node && parent.parent.right == parent {
        ZigZag(node, R);
      } else {
        ZigZag(node, L);
      }
    }

    /** splay: ends with the node at the root, because each round widens the stretch below it. The depth
        that the node comes from is at most six times the rank that it gains, and one, and twice what the tree
        gives up of what is paid in advance: so on the average over many calls the depth grows only with the
        logarithm of the number of nodes. */
    method Splay(node: Region)
      requires Valid() && node in cells
      modifies this`root, this`cells, cells.Keys`parent, cells.Keys`left, cells.Keys`right
      ensures Valid() && cells.Keys == old(cells.Keys)
      ensures root == node
      ensures old(DepthAt(node)) + 2 * Stored() <= 2 * old(Stored()) + 6 * (Rank(|order|) - old(RankAt(node))) + 1
    {
      hide Rank, Potential, RootDistance, ShapeOk, SortedByBase;
      WidthBounds(cells, root, order, node);
      while node.parent != null
        invariant Valid() && cells.Keys == old(cells.Keys) && 0 < Width(cells, node) <= |order|
        invariant old(DepthAt(node)) - DepthAt(node) + 2 * Stored() <=
          2 * old(Stored()) + 6 * (RankAt(node) - old(RankAt(node))) + (if node.parent == null then 1 else 0)
        decreases |order| - Width(cells, node)
      {
        ghost var width := Width(cells, node);
        SplayRound(node);
        RankGrows(width, Width(cells, node));
        WidthBounds(cells, root, order, node);
      }
      WidthBounds(cells, root, order, node);
      RootDepth(cells, root, order, node);
    }

    /** successor: the next node of the sequence, or null after the last one. */
    method Successor(node: Region, ghost i: nat) returns (next: Region?)
      requires Valid() && i < |order| && order[i] == node
      ensures next == if i + 1 < |order| then order[i + 1] else null
    {
      ghost var m := cells;
      assert m[node].pos == i && Fits(m, root, node);
      if node.right != null {
        next := node.right;
        assert Fits(m, root, next);
        while next.left != null
          invariant next in m && Fits(m, root, next) && m[next].lo == i + 1
          decreases m[next].hi - m[next].lo
        {
          next := next.left;
          assert Fits(m, root, next);
        }
        assert order[m[next].pos] == next;
        return;
      }
      var below := node;
      next := node.parent;
      while next != null && below == next.right
        invariant below in m && Fits(m, root, below) && m[below].hi == i + 1 && next == below.parent
        decreases |order| - (m[below].hi - m[below].lo)
      {
        assert Fits(m, root, next);
        below := next;
        next := next.parent;
      }
      if next != null {
        assert Fits(m, root, next) && order[m[next].pos] == next;
      }
    }

    /** find_no_splay: a node with the key exactly when there is one. */
    method FindNoSplay(key: nat) returns (node: Region?, ghost depth: nat)
      requires Valid()
      ensures node != null ==> node in cells && node.base == key && depth == DepthAt(node)
      ensures node == null ==> forall n :: n in cells ==> n.base != key
    {
      hide RootDistance, ShapeOk;
      ghost var m := cells;
      ghost var lo, hi := 0, |order|;
      node, depth := root, 0;
      SearchStart(m, root, order);
      while node != null && node.base != key
        invariant 0 <= lo <= hi <= |order|
        invariant node == null ==> lo == hi
        invariant node != null ==> node in m && m[node].lo == lo && m[node].hi == hi
        invariant node != null ==> depth == RootDistance(m, root, order, node)
        invariant forall i :: 0 <= i < lo ==> order[i].base < key
        invariant forall i :: hi <= i < |order| ==> key < order[i].base
        decreases hi - lo, node != null
      {
        DescentFacts(m, root, order, node);
        if key < node.base {
          hi := m[node].pos;
          node := node.left;
        } else {
          lo := m[node].pos + 1;
          node := node.right;
        }
        depth := depth + 1;
      }
      if node == null {
        EveryoneInOrder(m, root, order);
      }
    }

    /** find: like find_no_splay, and the node found ends up at the root. */
    method Find(key: nat) returns (node: Region?)
      requires Valid()
      modifies this`root, this`cells, this`links, cells.Keys`parent, cells.Keys`left, cells.Keys`right
      ensures Valid() && cells.Keys == old(cells.Keys)
      ensures node != null ==> node in cells && node.base == key && root == node
      ensures node == null ==> forall n :: n in cells ==> n.base != key
      ensures node == null ==> links == old(links) && Stored() == old(Stored())
      ensures node != null ==>
        && order != [] && links == old(links) + old(DepthAt(node))
        && links + 2 * Stored() <= old(links) + 2 * old(Stored()) + 6 * Rank(|order|) + 1
    {
      hide Rank, Potential, RootDistance;
      ghost var depth;
      node, depth := FindNoSplay(key);
      if node != null {
        links := links + depth;
        Splay(node);
      }
    }

    // The search loop of insert: a leaf, the side on which the node goes, and the gap there.
    method FindParent(key: nat) returns (parent: Region, ghost p: nat)
      requires Valid() && root != null
      ensures parent in cells && p <= |order|
      ensures var d := if key < parent.base then L else R;
        && Child(cells[parent], d) == null && GapOpen(cells, order, d, p)
        && p == if d.L? then cells[parent].pos else cells[parent].pos + 1
      ensures FitsAt(order, key, p)
    {
      ghost var m := cells;
      parent := root;
      var temp: Region? := parent;
      while temp != null
        invariant parent in m && Leads(m, order, key, parent)
        invariant temp == parent
          || (temp == null && if key < parent.base then parent.left == null else parent.right == null)
        decreases m[parent].hi - m[parent].lo, temp != null
      {
        LeadsDown(m, root, order, key, parent);
        if key < temp.base {
          temp := temp.left;
        } else {
          temp := temp.right;
        }
        if temp != null {
          parent := temp;
        }
      }
      LeadsToGap(m, root, order, key, parent);
      p := if key < parent.base then cells[parent].pos else cells[parent].pos + 1;
    }

    method AttachShape(node: Region, parent: Region, d: Dir, ghost p: int)
      requires Matches() && parent in cells && Child(cells[parent], d) == null
      requires node !in cells && node.parent == null && node.left == null && node.right == null
      requires p == if d.L? then cells[parent].pos else cells[parent].pos + 1
      modifies this`cells, node`parent, parent`left, parent`right
      ensures Matches() && cells.Keys == old(cells.Keys) + {node}
      ensures Attached(old(cells), cells, node, parent, d, p)
    {
      ghost var m := cells;
      node.parent := parent;
      if d.L? {
        parent.left := node;
      } else {
        parent.right := node;
      }
      cells := AfterAttach(cells, node, parent, d, p);
      assert cells.Keys == m.Keys + {node};
    }

    method Attach(node: Region, parent: Region, d: Dir, ghost p: nat)
      requires Matches() && ShapeOk(cells, root, order) && root != null
      requires parent in cells && Child(cells[parent], d) == null
      requires node !in cells && node.parent == null && node.left == null && node.right == null
      requires p == (if d.L? then cells[parent].pos else cells[parent].pos + 1) && p <= |order|
      requires GapOpen(cells, order, d, p)
      modifies this`cells, node`parent, parent`left, parent`right
      ensures Matches() && cells.Keys == old(cells.Keys) + {node}
      ensures ShapeOk(cells, root, WithNode(order, node, p))
    {
      AttachShape(node, parent, d, p);
      AttachKeepsShape(old(cells), cells, root, order, node, parent, d, p);
    }

    // The part of insert that links the node below a leaf of the tree.
    method InsertBelow(node: Region) returns (ghost p: nat)
      requires Valid() && node !in cells && root != null && order != []
      requires node.parent == null && node.left == null && node.right == null
      modifies this`order, this`cells, cells.Keys`left, cells.Keys`right, node`parent
      ensures Valid() && cells.Keys == old(cells.Keys) + {node}
      ensures p <= |old(order)| && order == WithNode(old(order), node, p)
      ensures p == 0 <==> node.base < old(order)[0].base
    {
      hide ShapeOk, SortedByBase, GapOpen, FitsAt, WithNode;
      var parent;
      parent, p := FindParent(node.base);
      SortedInsert(order, node, p);
      FrontInsert(order, node.base, p);
      Attach(node, parent, if node.base < parent.base then L else R, p);
      order := WithNode(order, node, p);
    }

    method InsertFirst(node: Region)
      requires Valid() && root == null
      requires node.parent == null && node.left == null && node.right == null
      modifies this
      ensures Valid() && cells.Keys == {node} && order == [node] && root == node && minimum == node
    {
      root, minimum := node, node;
      order, cells := [node], map[node := Cell(null, null, null, 0, 0, 1)];
      assert Fits(cells, root, node);
    }

    /** insert: adds exactly the given node, in key order. The test for a new minimum comes after the
        splay, when the node has no parent, so it never succeeds. */
    method Insert(node: Region) returns (ghost p: nat)
      requires Valid() && node !in cells
      requires node.parent == null && node.left == null && node.right == null
      modifies this, cells.Keys`parent, cells.Keys`left, cells.Keys`right, node`parent, node`left, node`right
      ensures Valid() && cells.Keys == old(cells.Keys) + {node} && root == node
      ensures p <= |old(order)| && order == WithNode(old(order), node, p)
      ensures minimum == if old(order) == [] then node else old(minimum)
      ensures MinimumExact() <==>
        old(order) == [] || (old(MinimumExact()) && old(order)[0].base <= node.base)
    {
      if root == null {
        p := 0;
        InsertFirst(node);
        return;
      }
      p := InsertBelow(node);
      WithNodeAt(old(order), node, p, 0);
      Splay(node);
      NeighboursFit(cells, root, minimum);
      if minimum.left == node {
        assert false;  // the node is the root: no node has it as a child, so minimum is never moved here
      }
    }

    // The walk in remove to the last node of the left subtree.
    method LastOf(top: Region) returns (last: Region)
      requires Sound() && top in cells
      ensures last in cells && cells[last].right == null && cells[last].hi == cells[top].hi
      ensures cells[last].pos < cells[last].hi
    {
      last := top;
      assert Fits(cells, root, last);
      while last.right != null
        invariant last in cells && Fits(cells, root, last)
        invariant cells[last].hi == cells[top].hi && cells[last].lo >= cells[top].lo
        decreases cells[last].hi - cells[last].lo
      {
        last := last.right;
        assert Fits(cells, root, last);
      }
    }

    // The assignments of remove once the node is the root.
    method JoinLinks(node: Region, last: Region?)
      requires node in cells
      requires node.left != null ==> node.left in cells && node.left != node
      requires node.right != null ==> node.right in cells && node.right != node && node.right != node.left
      requires last != null <==> node.left != null && node.right != null
      requires last != null ==> last in cells && last != node && last != node.right
      modifies this`root, cells.Keys`parent, cells.Keys`right
      ensures root == Joined(old(node.left), old(node.right))
      ensures forall n :: n in cells && n != node ==>
        && n.parent == (if n == root then null else if n == old(node.right) then last else old(n.parent))
        && n.right == (if n == last then old(node.right) else old(n.right))
    {
      root := Joined(node.left, node.right);
      if last != null {
        last.right := node.right;
        node.right.parent := last;
      }
      if root != null {
        root.parent := null;
      }
    }

    // The pointer updates of remove once the node is the root.
    method Unlink(node: Region, last: Region?)
      requires Matches() && node in cells
      requires node.left != null ==> node.left in cells && node.left != node
      requires node.right != null ==> node.right in cells && node.right != node && node.right != node.left
      requires last != null <==> node.left != null && node.right != null
      requires last != null ==> last in cells && last != node && last != node.right && last.right == null
      requires last != null ==> cells[last].hi == cells[node].pos
      modifies this`root, this`cells, cells.Keys`parent, cells.Keys`right
      ensures Matches() && cells.Keys == old(cells.Keys) - {node}
      ensures root == Joined(old(node.left), old(node.right))
      ensures Detached(old(cells), cells, node, last, |order|)
    {
      hide Closed;
      ghost var m := cells;
      JoinLinks(node, last);
      cells := map n | n in m && n != node ::
        Closed(m[n], m[node].pos, |order|).(
          parent := if n == root then null else if n == m[node].right then last else m[n].parent,
          right := if n == last then m[node].right else m[n].right);
      assert cells.Keys == m.Keys - {node};
    }

    // The part of remove that joins the subtrees of the root.
    method RemoveRoot(node: Region)
      requires Sound() && root == node && node in cells
      modifies this`root, this`order, this`cells, cells.Keys`parent, cells.Keys`right
      ensures Sound() && cells.Keys == old(cells.Keys) - {node}
      ensures var p := old(cells[node].pos); 0 <= p < |old(order)| && order == Without(old(order), p)
    {
      hide ShapeOk, SortedByBase, Without, Detached;
      ghost var m := cells;
      RootFacts(m, node, order);
      var last: Region? := null;
      if node.left != null && node.right != null {
        last := LastOf(node.left);
      }
      SortedWithout(order, m[node].pos);
      Unlink(node, last);
      DetachKeepsShape(m, cells, order, node, last);
      order := Without(order, m[node].pos);
    }

    /** remove: deletes exactly the given node. The assertion that a removed minimum has no left child
        is the precondition; it holds whenever the minimum pointer is right. */
    method Remove(node: Region, ghost i: nat)
      requires Valid() && i < |order| && order[i] == node
      requires node == minimum ==> i == 0
      modifies this, cells.Keys`parent, cells.Keys`left, cells.Keys`right
      ensures Valid() && cells.Keys == old(cells.Keys) - {node}
      ensures order == Without(old(order), i)
      ensures minimum == if old(minimum) != node then old(minimum) else if old(|order|) > 1 then old(order[1]) else null
      ensures old(MinimumExact()) ==> MinimumExact()
    {
      hide ShapeOk, SortedByBase, Without;
      PlaceOf(cells, root, order, i);
      Splay(node);
      PlaceOf(cells, root, order, i);
      RootFacts(cells, node, order);
      if minimum == node {
        assert node.left == null;
        minimum := Successor(node, i);
        if minimum != null {
          PlaceOf(cells, root, order, 1);
        }
      } else {
        OtherNode(cells, root, order, minimum);
      }
      if |order| > 1 {
        WithoutFront(order, i);
      }
      RemoveRoot(node);
    }
  }

  /** Any sequence of searches for keys that are there, in any tree of n nodes, whatever its shape: all
      together they follow at most twice n times the rank of n links, and six times that rank and one for each
      search. */
  method SearchAll(tree: RegionTree, keys: seq<nat>) returns (found: seq<Region>)
    requires tree.Valid() && tree.order != []
    requires forall i :: 0 <= i < |keys| ==> exists n :: n in tree.cells && n.base == keys[i]
    modifies tree`root, tree`cells, tree`links
    modifies tree.cells.Keys`parent, tree.cells.Keys`left, tree.cells.Keys`right
    ensures tree.Valid() && tree.cells.Keys == old(tree.cells.Keys) && |found| == |keys|
    ensures forall i :: 0 <= i < |keys| ==> found[i] in tree.cells && found[i].base == keys[i]
    ensures var n := |tree.order|; tree.links - old(tree.links) <= 2 * (n * Rank(n)) + |keys| * (6 * Rank(n) + 1)
  {
    hide Rank, Potential, RootDistance, ShapeOk, SortedByBase, RegionTree.Matches;
    found := [];
    ghost var n, each := |tree.order|, 6 * Rank(|tree.order|) + 1;
    PotentialBounds(tree.cells, tree.root, tree.order);
    for i := 0 to |keys|
      invariant tree.Valid() && tree.cells.Keys == old(tree.cells.Keys) && |found| == i
      invariant forall j :: 0 <= j < i ==> found[j] in tree.cells && found[j].base == keys[j]
      invariant tree.links + 2 * tree.Stored() <= old(tree.links) + 2 * (n * Rank(n)) + i * each
    {
      var node := tree.Find(keys[i]);
      assert exists x :: x in old(tree.cells) && x.base == keys[i];
      found := found + [node];
      assert (i + 1) * each == i * each + each;
    }
    PotentialBounds(tree.cells, tree.root, tree.order);
  }

  /** Inserting a key below the current minimum leaves the minimum pointer behind. */
  method StaleMinimum() returns (tree: RegionTree)
    ensures tree.Valid() && |tree.order| == 2 && tree.order[0].base == 3 && tree.minimum.base == 5
  {
    var access := Access(false, false, false, false, false);
    var high := new Region(5, 1, access);
    var low := new Region(3, 1, access);
    tree := new RegionTree();
    ghost var p := tree.Insert(high);
    p := tree.Insert(low);
  }
}
