/**
  The treap that holds a process's threads: nodes by address, linked both ways, in order from
  left to right and with random priorities falling from the root.
 */
module KernelTree {

  datatype Node = Node(parent: nat, left: nat, right: nat, priority: int, isRight: bool)

  /** Address 0 is no node. */
  type Nodes = map<nat, Node>

  datatype Links = Links(nodes: Nodes, root: nat)

  /** A node's place in the order, and the part of the order that its subtree takes. */
  datatype Mark = Mark(lo: nat, pos: nat, hi: nat)

  type Marks = map<nat, Mark>

  function Child(x: Node, right: bool): nat { if right then x.right else x.left }

  function WithChild(x: Node, right: bool, c: nat): Node { if right then x.(right := c) else x.(left := c) }

  // ---------------------------------------------------------------- the invariant

  predicate ChildOk(nodes: Nodes, marks: Marks, n: nat, right: bool, c: nat, lo: nat, hi: nat) {
    if c == 0 then lo == hi
    else c in nodes && c in marks && nodes[c].parent == n && nodes[c].isRight == right && marks[c].lo == lo && marks[c].hi == hi
  }

  predicate UpOk(l: Links, order: seq<nat>, m: Mark, n: nat, x: Node) {
    if x.parent == 0 then l.root == n && !x.isRight && m.lo == 0 && m.hi == |order|
    else x.parent in l.nodes && Child(l.nodes[x.parent], x.isRight) == n
  }

  /** Node `n` has its left subtree just before it and its right one just after it, and both know it. */
  predicate NodeOk(l: Links, order: seq<nat>, marks: Marks, n: nat)
    requires n in l.nodes && n in marks
  {
    var x, m := l.nodes[n], marks[n];
    && m.lo <= m.pos < m.hi <= |order| && order[m.pos] == n
    && ChildOk(l.nodes, marks, n, false, x.left, m.lo, m.pos)
    && ChildOk(l.nodes, marks, n, true, x.right, m.pos + 1, m.hi)
    && UpOk(l, order, m, n, x)
  }

  /** The links spell `order` from left to right; a root is marked as a left child. */
  ghost predicate TreeOk(l: Links, order: seq<nat>, marks: Marks) {
    && 0 !in l.nodes && marks.Keys == l.nodes.Keys
    && (forall n {:trigger NodeOk(l, order, marks, n)} | n in l.nodes :: NodeOk(l, order, marks, n))
    && (forall i | 0 <= i < |order| :: order[i] in l.nodes && marks[order[i]].pos == i)
    && (if order == [] then l.root == 0 else l.root in l.nodes && l.nodes[l.root].parent == 0)
  }

  predicate HeapAt(nodes: Nodes, n: nat)
    requires n in nodes
  {
    nodes[n].parent in nodes ==> nodes[n].priority <= nodes[nodes[n].parent].priority
  }

  /** No node has a higher priority than its parent. */
  ghost predicate Heap(nodes: Nodes) { forall n | n in nodes :: HeapAt(nodes, n) }

  /** The same but for node `c`, whose children are no higher than its parent. */
  ghost predicate HeapBut(nodes: Nodes, c: nat)
    requires c in nodes
  {
    && (forall n | n in nodes && n != c :: HeapAt(nodes, n))
    && (forall n | n in nodes && nodes[n].parent == c && nodes[c].parent in nodes :: nodes[n].priority <= nodes[nodes[c].parent].priority)
  }

  /** The same but for node `c` and its children, which are no higher than its parent. */
  ghost predicate HeapAround(nodes: Nodes, c: nat)
    requires c in nodes
  {
    && (forall n | n in nodes && n != c && nodes[n].parent != c :: HeapAt(nodes, n))
    && (forall n | n in nodes && nodes[n].parent == c && nodes[c].parent in nodes :: nodes[n].priority <= nodes[nodes[c].parent].priority)
  }

  ghost predicate SamePriorities(nodes: Nodes, nodes': Nodes) {
    nodes'.Keys == nodes.Keys && forall n | n in nodes :: nodes'[n].priority == nodes[n].priority
  }

  /** The generator goes from `was` to `now`, and `r` is the upper half of that, as a signed number. */
  predicate Drawn(was: nat, now: nat, r: int) {
    && now == (was * 6364136223846793005 + 1442695040888963407) % 0x1_0000_0000_0000_0000
    && (if r < 0 then r + 0x1_0000_0000 else r) == now / 0x1_0000_0000 && -0x8000_0000 <= r < 0x8000_0000
  }

  /** Exactly node `n` is new, with priority `r`; the others keep theirs. */
  ghost predicate With(nodes: Nodes, nodes': Nodes, n: nat, r: int) {
    && nodes'.Keys == nodes.Keys + {n} && n in nodes' && nodes'[n].priority == r
    && forall x | x in nodes && x != n :: nodes'[x].priority == nodes[x].priority
  }

  /** One number has been drawn, for node `n`. */
  ghost predicate Drew(was: seq<int>, now: seq<int>, nodes: Nodes, nodes': Nodes, n: nat) {
    exists r :: now == was + [r] && With(nodes, nodes', n, r)
  }

  /** Exactly node `n` is gone; the others keep their priorities. */
  ghost predicate Without(nodes: Nodes, nodes': Nodes, n: nat) {
    nodes'.Keys == nodes.Keys - {n} && forall x | x in nodes' :: nodes'[x].priority == nodes[x].priority
  }

  // ---------------------------------------------------------------- rotation

  /** The slot that leads to node `p` now leads to `c`. */
  function Slot(l: Links, up: nat, right: bool, c: nat): Links {
    if up == 0 then l.(root := c)
    else if up in l.nodes then l.(nodes := l.nodes[up := WithChild(l.nodes[up], right, c)])
    else l
  }

  function Adopted(nodes: Nodes, y: nat, p: nat, right: bool): Nodes {
    if y in nodes then nodes[y := nodes[y].(parent := p, isRight := right)] else nodes
  }

  /** `c` takes the place of its parent `p`, which becomes its child on the other side. */
  function Rotate(l: Links, p: nat, c: nat): Links
    requires p in l.nodes && c in l.nodes
  {
    var px, cx := l.nodes[p], l.nodes[c];
    var dir := cx.isRight;
    var y := Child(cx, !dir);
    var nodes := l.nodes[c := WithChild(cx, !dir, p).(parent := px.parent, isRight := px.isRight)]
                        [p := WithChild(px, dir, y).(parent := c, isRight := !dir)];
    Slot(l.(nodes := Adopted(nodes, y, p, dir)), px.parent, px.isRight, c)
  }

  function RotatedMarks(marks: Marks, p: nat, c: nat, dir: bool): Marks
    requires p in marks && c in marks
  {
    var pm, cm := marks[p], marks[c];
    marks[c := Mark(pm.lo, cm.pos, pm.hi)]
         [p := if dir then Mark(pm.lo, pm.pos, cm.pos) else Mark(cm.pos + 1, pm.pos, pm.hi)]
  }

  /** A node's parent is above it: its subtree is larger. */
  lemma ParentWider(l: Links, order: seq<nat>, marks: Marks, n: nat)
    requires TreeOk(l, order, marks) && n in l.nodes && l.nodes[n].parent != 0
    ensures var p := l.nodes[n].parent;
            && p in l.nodes && p in marks && n in marks && Child(l.nodes[p], l.nodes[n].isRight) == n
            && marks[n].hi - marks[n].lo < marks[p].hi - marks[p].lo
  {
    assert NodeOk(l, order, marks, n) && NodeOk(l, order, marks, l.nodes[n].parent);
  }

  /** A child is linked back, and below. */
  lemma ChildLinked(l: Links, order: seq<nat>, marks: Marks, n: nat, right: bool)
    requires TreeOk(l, order, marks) && n in l.nodes && Child(l.nodes[n], right) != 0
    ensures var c := Child(l.nodes[n], right);
            && c in l.nodes && c in marks && n in marks && l.nodes[c].parent == n && l.nodes[c].isRight == right
            && marks[c].hi - marks[c].lo < marks[n].hi - marks[n].lo
  {
    assert NodeOk(l, order, marks, n);
    assert NodeOk(l, order, marks, Child(l.nodes[n], right));
  }

  /** The nodes around a rotation: `y` changes sides, `g` is above. */
  ghost predicate Around(l: Links, p: nat, c: nat, y: nat, g: nat, dir: bool) {
    && p in l.nodes && c in l.nodes && p != c && 0 !in l.nodes
    && l.nodes[c].parent == p && l.nodes[c].isRight == dir && Child(l.nodes[p], dir) == c
    && Child(l.nodes[c], !dir) == y && (y != 0 ==> y in l.nodes && y != p && y != c && l.nodes[y].parent == c && l.nodes[y].isRight == !dir)
    && l.nodes[p].parent == g && (g != 0 ==> g in l.nodes && g != p && g != c && g != y && Child(l.nodes[g], l.nodes[p].isRight) == p)
  }

  lemma AroundRotation(l: Links, order: seq<nat>, marks: Marks, p: nat, c: nat, y: nat, g: nat, dir: bool)
    requires TreeOk(l, order, marks) && p in l.nodes && c in l.nodes && l.nodes[c].parent == p && l.nodes[c].isRight == dir
    requires y == Child(l.nodes[c], !dir) && g == l.nodes[p].parent
    ensures Around(l, p, c, y, g, dir)
  {
    ParentWider(l, order, marks, c);
    if y != 0 { ChildLinked(l, order, marks, c, !dir); }
    if g != 0 { ParentWider(l, order, marks, p); }
  }

  /** What a rotation writes, node by node. */
  ghost predicate Turned(l: Links, l': Links, p: nat, c: nat, y: nat, g: nat, dir: bool)
    requires Around(l, p, c, y, g, dir)
  {
    && l'.nodes.Keys == l.nodes.Keys && l'.root == (if g == 0 then c else l.root)
    && l'.nodes[c] == WithChild(l.nodes[c], !dir, p).(parent := g, isRight := l.nodes[p].isRight)
    && l'.nodes[p] == WithChild(l.nodes[p], dir, y).(parent := c, isRight := !dir)
    && (y != 0 ==> l'.nodes[y] == l.nodes[y].(parent := p, isRight := dir))
    && (g != 0 ==> l'.nodes[g] == WithChild(l.nodes[g], l.nodes[p].isRight, c))
    && (forall n | n in l.nodes && n != p && n != c && n != y && n != g :: l'.nodes[n] == l.nodes[n])
  }

  lemma RotateTurns(l: Links, p: nat, c: nat, y: nat, g: nat, dir: bool)
    requires Around(l, p, c, y, g, dir)
    ensures Turned(l, Rotate(l, p, c), p, c, y, g, dir)
  {
  }

  lemma TurnedChild(l: Links, order: seq<nat>, marks: Marks, p: nat, c: nat, y: nat, g: nat, dir: bool, l': Links, marks': Marks)
    requires Around(l, p, c, y, g, dir) && Turned(l, l', p, c, y, g, dir) && p in marks && c in marks && (y != 0 ==> y in marks)
    requires NodeOk(l, order, marks, p) && NodeOk(l, order, marks, c) && marks' == RotatedMarks(marks, p, c, dir)
    ensures NodeOk(l', order, marks', c)
  {
  }

  lemma TurnedParent(l: Links, order: seq<nat>, marks: Marks, p: nat, c: nat, y: nat, g: nat, dir: bool, l': Links, marks': Marks)
    requires Around(l, p, c, y, g, dir) && Turned(l, l', p, c, y, g, dir) && p in marks && c in marks && (y != 0 ==> y in marks)
    requires NodeOk(l, order, marks, p) && NodeOk(l, order, marks, c) && marks' == RotatedMarks(marks, p, c, dir)
    ensures NodeOk(l', order, marks', p)
  {
  }

  lemma TurnedMoved(l: Links, order: seq<nat>, marks: Marks, p: nat, c: nat, y: nat, g: nat, dir: bool, l': Links, marks': Marks)
    requires Around(l, p, c, y, g, dir) && Turned(l, l', p, c, y, g, dir) && p in marks && c in marks && y != 0 && y in marks
    requires NodeOk(l, order, marks, y) && marks' == RotatedMarks(marks, p, c, dir)
    ensures NodeOk(l', order, marks', y)
  {
  }

  lemma TurnedAbove(l: Links, order: seq<nat>, marks: Marks, p: nat, c: nat, y: nat, g: nat, dir: bool, l': Links, marks': Marks)
    requires Around(l, p, c, y, g, dir) && Turned(l, l', p, c, y, g, dir) && p in marks && c in marks && g != 0 && g in marks
    requires NodeOk(l, order, marks, g) && marks' == RotatedMarks(marks, p, c, dir)
    ensures NodeOk(l', order, marks', g)
  {
  }

  lemma TurnedOther(l: Links, order: seq<nat>, marks: Marks, p: nat, c: nat, y: nat, g: nat, dir: bool, l': Links, n: nat, marks': Marks)
    requires Around(l, p, c, y, g, dir) && Turned(l, l', p, c, y, g, dir) && p in marks && c in marks
    requires n in l.nodes && n in marks && n != p && n != c && n != y && n != g
    requires NodeOk(l, order, marks, p) && NodeOk(l, order, marks, n) && marks' == RotatedMarks(marks, p, c, dir)
    ensures NodeOk(l', order, marks', n)
  {
  }

  lemma RotateOk(l: Links, order: seq<nat>, marks: Marks, p: nat, c: nat)
    requires TreeOk(l, order, marks) && p in l.nodes && c in l.nodes && l.nodes[c].parent == p
    ensures TreeOk(Rotate(l, p, c), order, RotatedMarks(marks, p, c, l.nodes[c].isRight))
    ensures SamePriorities(l.nodes, Rotate(l, p, c).nodes)
  {
    var dir, g := l.nodes[c].isRight, l.nodes[p].parent;
    var y := Child(l.nodes[c], !dir);
    AroundRotation(l, order, marks, p, c, y, g, dir);
    RotateTurns(l, p, c, y, g, dir);
    TurnedOk(l, order, marks, p, c, y, g, dir, Rotate(l, p, c));
  }

  lemma TurnedOk(l: Links, order: seq<nat>, marks: Marks, p: nat, c: nat, y: nat, g: nat, dir: bool, l': Links)
    requires TreeOk(l, order, marks) && Around(l, p, c, y, g, dir) && Turned(l, l', p, c, y, g, dir)
    ensures TreeOk(l', order, RotatedMarks(marks, p, c, dir)) && SamePriorities(l.nodes, l'.nodes)
  {
    var marks' := RotatedMarks(marks, p, c, dir);
    assert NodeOk(l, order, marks, p) && NodeOk(l, order, marks, c);
    forall n | n in l'.nodes ensures NodeOk(l', order, marks', n) {
      assert NodeOk(l, order, marks, n);
      if n == c {
        TurnedChild(l, order, marks, p, c, y, g, dir, l', marks');
      } else if n == p {
        TurnedParent(l, order, marks, p, c, y, g, dir, l', marks');
      } else if n == y {
        TurnedMoved(l, order, marks, p, c, y, g, dir, l', marks');
      } else if n == g {
        TurnedAbove(l, order, marks, p, c, y, g, dir, l', marks');
      } else {
        TurnedOther(l, order, marks, p, c, y, g, dir, l', n, marks');
      }
    }
    TurnedPlaces(l, order, marks, p, c, y, g, dir, l', marks');
  }

  lemma TurnedPlaces(l: Links, order: seq<nat>, marks: Marks, p: nat, c: nat, y: nat, g: nat, dir: bool, l': Links, marks': Marks)
    requires TreeOk(l, order, marks) && Around(l, p, c, y, g, dir) && Turned(l, l', p, c, y, g, dir)
    requires marks' == RotatedMarks(marks, p, c, dir)
    ensures marks'.Keys == l'.nodes.Keys && forall i | 0 <= i < |order| :: order[i] in l'.nodes && marks'[order[i]].pos == i
    ensures if order == [] then l'.root == 0 else l'.root in l'.nodes && l'.nodes[l'.root].parent == 0
    ensures SamePriorities(l.nodes, l'.nodes)
  {
    assert NodeOk(l, order, marks, p);
    forall i | 0 <= i < |order| ensures order[i] in l'.nodes && marks'[order[i]].pos == i {
      assert order[i] in l.nodes && marks[order[i]].pos == i;
    }
  }

  // ---------------------------------------------------------------- priorities

  /** Turning a node over a lower parent leaves only that node out of order, if any. */
  lemma TurnUpHeap(l: Links, p: nat, c: nat, y: nat, g: nat, dir: bool, l': Links)
    requires Around(l, p, c, y, g, dir) && Turned(l, l', p, c, y, g, dir)
    requires HeapBut(l.nodes, c) && l.nodes[c].priority > l.nodes[p].priority
    ensures HeapBut(l'.nodes, c) && (g == 0 || l.nodes[c].priority <= l.nodes[g].priority ==> Heap(l'.nodes))
  {
    assert HeapAt(l.nodes, p);
    forall n | n in l'.nodes && n != c ensures HeapAt(l'.nodes, n) {
      if n != p { assert HeapAt(l.nodes, n); }
    }
  }

  /** Turning a node under the higher of its children leaves only the edges of that node out of order. */
  lemma TurnDownHeap(l: Links, p: nat, c: nat, y: nat, g: nat, dir: bool, l': Links)
    requires Around(l, p, c, y, g, dir) && Turned(l, l', p, c, y, g, dir) && HeapAround(l.nodes, p)
    requires forall n | n in l.nodes && l.nodes[n].parent == p :: l.nodes[n].priority <= l.nodes[c].priority
    ensures HeapAround(l'.nodes, p)
  {
    if y != 0 { assert HeapAt(l.nodes, y); }
    forall n | n in l'.nodes && n != p && l'.nodes[n].parent != p ensures HeapAt(l'.nodes, n) {
      if n != c { assert HeapAt(l.nodes, n); }
    }
  }

  // ---------------------------------------------------------------- a new leaf

  function LeafPos(m: Mark, right: bool): nat { if right then m.pos + 1 else m.pos }

  /** Where a boundary is once there is a leaf at `k`, a right child or a left one. */
  function Pushed(b: nat, k: nat, right: bool): nat { if b < k || (b == k && !right) then b else b + 1 }

  function PushedMark(m: Mark, k: nat, right: bool): Mark {
    Mark(Pushed(m.lo, k, right), if m.pos < k then m.pos else m.pos + 1, Pushed(m.hi, k, right))
  }

  function LeafMarks(marks: Marks, n: nat, k: nat, right: bool): Marks {
    (map x | x in marks :: PushedMark(marks[x], k, right))[n := Mark(k, k, k + 1)]
  }

  function LeafAt(parent: nat, priority: int, right: bool): Node { Node(parent, 0, 0, priority, right) }

  function Attached(l: Links, q: nat, right: bool, n: nat, priority: int): Links
    requires q in l.nodes
  {
    l.(nodes := l.nodes[q := WithChild(l.nodes[q], right, n)][n := LeafAt(q, priority, right)])
  }

  function Put(order: seq<nat>, k: nat, n: nat): seq<nat>
    requires k <= |order|
  {
    order[..k] + [n] + order[k..]
  }

  lemma AttachOther(l: Links, order: seq<nat>, marks: Marks, q: nat, right: bool, n: nat, priority: int, k: nat, x: nat, marks': Marks)
    requires q in l.nodes && n !in l.nodes && n != 0 && 0 !in l.nodes && q in marks && Child(l.nodes[q], right) == 0
    requires x in l.nodes && x in marks && marks.Keys == l.nodes.Keys && x != q
    requires NodeOk(l, order, marks, x) && NodeOk(l, order, marks, q) && k == LeafPos(marks[q], right)
    requires marks' == LeafMarks(marks, n, k, right)
    ensures NodeOk(Attached(l, q, right, n, priority), Put(order, k, n), marks', x)
  {
  }

  lemma AttachParent(l: Links, order: seq<nat>, marks: Marks, q: nat, right: bool, n: nat, priority: int, k: nat, marks': Marks)
    requires q in l.nodes && n !in l.nodes && n != 0 && 0 !in l.nodes && q in marks && marks.Keys == l.nodes.Keys
    requires NodeOk(l, order, marks, q) && Child(l.nodes[q], right) == 0 && k == LeafPos(marks[q], right)
    requires marks' == LeafMarks(marks, n, k, right)
    ensures NodeOk(Attached(l, q, right, n, priority), Put(order, k, n), marks', q)
    ensures NodeOk(Attached(l, q, right, n, priority), Put(order, k, n), marks', n)
  {
  }

  /** A new leaf comes next to its parent in the order. */
  lemma AttachOk(l: Links, order: seq<nat>, marks: Marks, q: nat, right: bool, n: nat, priority: int)
    requires TreeOk(l, order, marks) && q in l.nodes && n !in l.nodes && n != 0 && Child(l.nodes[q], right) == 0
    ensures var k := LeafPos(marks[q], right);
            k <= |order| && TreeOk(Attached(l, q, right, n, priority), Put(order, k, n), LeafMarks(marks, n, k, right))
  {
    assert NodeOk(l, order, marks, q);
    var k := LeafPos(marks[q], right);
    var l', order', marks' := Attached(l, q, right, n, priority), Put(order, k, n), LeafMarks(marks, n, k, right);
    AttachParent(l, order, marks, q, right, n, priority, k, marks');
    forall x | x in l'.nodes ensures NodeOk(l', order', marks', x) {
      if x != q && x != n {
        assert NodeOk(l, order, marks, x);
        AttachOther(l, order, marks, q, right, n, priority, k, x, marks');
      }
    }
    AttachPlaces(l, order, marks, q, right, n, priority, k, order', marks');
  }

  lemma AttachPlaces(l: Links, order: seq<nat>, marks: Marks, q: nat, right: bool, n: nat, priority: int, k: nat, order': seq<nat>, marks': Marks)
    requires TreeOk(l, order, marks) && q in l.nodes && n !in l.nodes && k <= |order|
    requires order' == Put(order, k, n) && marks' == LeafMarks(marks, n, k, right)
    ensures var l' := Attached(l, q, right, n, priority);
            && marks'.Keys == l'.nodes.Keys && (forall i | 0 <= i < |order'| :: order'[i] in l'.nodes && marks'[order'[i]].pos == i)
            && l'.root in l'.nodes && l'.nodes[l'.root].parent == 0
  {
    assert NodeOk(l, order, marks, q);
    forall i | 0 <= i < |order'| ensures order'[i] in Attached(l, q, right, n, priority).nodes && marks'[order'[i]].pos == i {
      if i != k { assert order'[i] == order[if i < k then i else i - 1]; }
    }
  }

  lemma AttachHeap(l: Links, q: nat, right: bool, n: nat, priority: int)
    requires q in l.nodes && n !in l.nodes && 0 !in l.nodes && n != 0 && Heap(l.nodes)
    requires forall x | x in l.nodes :: l.nodes[x].parent != n
    ensures var nodes := Attached(l, q, right, n, priority).nodes; HeapBut(nodes, n) && (priority <= l.nodes[q].priority ==> Heap(nodes))
    ensures With(l.nodes, Attached(l, q, right, n, priority).nodes, n, priority)
  {
    var nodes := Attached(l, q, right, n, priority).nodes;
    forall x | x in nodes && x != n ensures HeapAt(nodes, x) { assert HeapAt(l.nodes, x); }
  }

  // ---------------------------------------------------------------- taking out a node with one child at most

  function Pulled(b: nat, k: nat): nat { if b <= k then b else b - 1 }

  function PulledMark(m: Mark, k: nat): Mark { Mark(Pulled(m.lo, k), Pulled(m.pos, k), Pulled(m.hi, k)) }

  function LessMarks(marks: Marks, n: nat, k: nat): Marks { map x | x in marks && x != n :: PulledMark(marks[x], k) }

  function Only(x: Node): nat { if x.left != 0 then x.left else x.right }

  function Unlinked(l: Links, n: nat): Links
    requires n in l.nodes
  {
    var x := l.nodes[n];
    var r := Slot(l.(nodes := Adopted(l.nodes, Only(x), x.parent, x.isRight)), x.parent, x.isRight, Only(x));
    r.(nodes := r.nodes - {n})
  }

  function Taken(order: seq<nat>, k: nat): seq<nat>
    requires k < |order|
  {
    order[..k] + order[k + 1..]
  }

  /** The nodes around one that goes: `y` is its only child, `g` its parent. */
  ghost predicate Leaving(l: Links, n: nat, y: nat, g: nat) {
    && n in l.nodes && 0 !in l.nodes && (l.nodes[n].left == 0 || l.nodes[n].right == 0) && y == Only(l.nodes[n]) && g == l.nodes[n].parent
    && (y != 0 ==> y in l.nodes && y != n && l.nodes[y].parent == n)
    && (g != 0 ==> g in l.nodes && g != n && g != y && Child(l.nodes[g], l.nodes[n].isRight) == n)
  }

  lemma LeavingTree(l: Links, order: seq<nat>, marks: Marks, n: nat)
    requires TreeOk(l, order, marks) && n in l.nodes && (l.nodes[n].left == 0 || l.nodes[n].right == 0)
    ensures Leaving(l, n, Only(l.nodes[n]), l.nodes[n].parent)
  {
    if l.nodes[n].left != 0 { ChildLinked(l, order, marks, n, false); }
    if l.nodes[n].right != 0 { ChildLinked(l, order, marks, n, true); }
    if l.nodes[n].parent != 0 { ParentWider(l, order, marks, n); }
  }

  ghost predicate Left(l: Links, l': Links, n: nat, y: nat, g: nat)
    requires Leaving(l, n, y, g)
  {
    && l'.nodes.Keys == l.nodes.Keys - {n} && l'.root == (if g == 0 then y else l.root)
    && (y != 0 ==> l'.nodes[y] == l.nodes[y].(parent := g, isRight := l.nodes[n].isRight))
    && (g != 0 ==> l'.nodes[g] == WithChild(l.nodes[g], l.nodes[n].isRight, y))
    && (forall x | x in l.nodes && x != n && x != y && x != g :: l'.nodes[x] == l.nodes[x])
  }

  lemma UnlinkLeaves(l: Links, n: nat, y: nat, g: nat)
    requires Leaving(l, n, y, g)
    ensures Left(l, Unlinked(l, n), n, y, g)
  {
  }

  lemma LeftMoved(l: Links, order: seq<nat>, marks: Marks, n: nat, y: nat, g: nat, l': Links, k: nat, marks': Marks)
    requires Leaving(l, n, y, g) && Left(l, l', n, y, g) && y != 0 && marks.Keys == l.nodes.Keys
    requires NodeOk(l, order, marks, n) && NodeOk(l, order, marks, y) && k == marks[n].pos && marks' == LessMarks(marks, n, k)
    ensures NodeOk(l', Taken(order, k), marks', y)
  {
  }

  lemma LeftAbove(l: Links, order: seq<nat>, marks: Marks, n: nat, y: nat, g: nat, l': Links, k: nat, marks': Marks)
    requires Leaving(l, n, y, g) && Left(l, l', n, y, g) && g != 0 && marks.Keys == l.nodes.Keys
    requires NodeOk(l, order, marks, n) && NodeOk(l, order, marks, g) && k == marks[n].pos && marks' == LessMarks(marks, n, k)
    ensures NodeOk(l', Taken(order, k), marks', g)
  {
  }

  lemma LeftOther(l: Links, order: seq<nat>, marks: Marks, n: nat, y: nat, g: nat, l': Links, k: nat, marks': Marks, x: nat)
    requires Leaving(l, n, y, g) && Left(l, l', n, y, g) && x in l.nodes && x != n && x != y && x != g && marks.Keys == l.nodes.Keys
    requires NodeOk(l, order, marks, n) && NodeOk(l, order, marks, x) && k == marks[n].pos && marks' == LessMarks(marks, n, k)
    ensures NodeOk(l', Taken(order, k), marks', x)
  {
  }

  lemma LeftOk(l: Links, order: seq<nat>, marks: Marks, n: nat, y: nat, g: nat, l': Links)
    requires TreeOk(l, order, marks) && Leaving(l, n, y, g) && Left(l, l', n, y, g)
    ensures var k := marks[n].pos; k < |order| && order[k] == n && TreeOk(l', Taken(order, k), LessMarks(marks, n, k))
  {
    assert NodeOk(l, order, marks, n);
    var k := marks[n].pos;
    var order', marks' := Taken(order, k), LessMarks(marks, n, k);
    forall x | x in l'.nodes ensures NodeOk(l', order', marks', x) {
      assert NodeOk(l, order, marks, x);
      if x == y {
        LeftMoved(l, order, marks, n, y, g, l', k, marks');
      } else if x == g {
        LeftAbove(l, order, marks, n, y, g, l', k, marks');
      } else {
        LeftOther(l, order, marks, n, y, g, l', k, marks', x);
      }
    }
    LeftPlaces(l, order, marks, n, y, g, l', k, order', marks');
  }

  lemma LeftPlaces(l: Links, order: seq<nat>, marks: Marks, n: nat, y: nat, g: nat, l': Links, k: nat, order': seq<nat>, marks': Marks)
    requires TreeOk(l, order, marks) && Leaving(l, n, y, g) && Left(l, l', n, y, g) && NodeOk(l, order, marks, n)
    requires k == marks[n].pos && order' == Taken(order, k) && marks' == LessMarks(marks, n, k)
    ensures marks'.Keys == l'.nodes.Keys && forall i | 0 <= i < |order'| :: order'[i] in l'.nodes && marks'[order'[i]].pos == i
    ensures if order' == [] then l'.root == 0 else l'.root in l'.nodes && l'.nodes[l'.root].parent == 0
  {
    forall i | 0 <= i < |order'| ensures order'[i] in l'.nodes && marks'[order'[i]].pos == i {
      assert order'[i] == order[if i < k then i else i + 1];
    }
    if y != 0 { assert NodeOk(l, order, marks, y); }
    if g != 0 { assert NodeOk(l, order, marks, g); }
  }

  lemma LeftHeap(l: Links, n: nat, y: nat, g: nat, l': Links)
    requires Leaving(l, n, y, g) && Left(l, l', n, y, g) && HeapAround(l.nodes, n)
    requires forall x | x in l.nodes && l.nodes[x].parent == n :: x == y
    ensures Heap(l'.nodes)
  {
    forall x | x in l'.nodes ensures HeapAt(l'.nodes, x) {
      if x != y { assert HeapAt(l.nodes, x); }
    }
  }

  // ---------------------------------------------------------------- who is whose child

  lemma IsChild(l: Links, order: seq<nat>, marks: Marks, x: nat)
    requires TreeOk(l, order, marks) && x in l.nodes && l.nodes[x].parent != 0
    ensures l.nodes[x].parent in l.nodes && (x == l.nodes[l.nodes[x].parent].left || x == l.nodes[l.nodes[x].parent].right)
  {
    assert NodeOk(l, order, marks, x);
  }

  /** Nobody outside the tree is a parent in it. */
  lemma ParentsInside(l: Links, order: seq<nat>, marks: Marks)
    requires TreeOk(l, order, marks)
    ensures forall x | x in l.nodes :: l.nodes[x].parent == 0 || l.nodes[x].parent in l.nodes
  {
    forall x | x in l.nodes ensures l.nodes[x].parent == 0 || l.nodes[x].parent in l.nodes {
      if l.nodes[x].parent != 0 { IsChild(l, order, marks, x); }
    }
  }

  /** Of two children the one of higher priority bounds both. */
  lemma HigherChild(l: Links, order: seq<nat>, marks: Marks, n: nat, c: nat)
    requires TreeOk(l, order, marks) && n in l.nodes && n != 0 && l.nodes[n].left in l.nodes && l.nodes[n].right in l.nodes
    requires c in l.nodes && l.nodes[l.nodes[n].left].priority <= l.nodes[c].priority && l.nodes[l.nodes[n].right].priority <= l.nodes[c].priority
    ensures forall x | x in l.nodes && l.nodes[x].parent == n :: l.nodes[x].priority <= l.nodes[c].priority
  {
    forall x | x in l.nodes && l.nodes[x].parent == n ensures l.nodes[x].priority <= l.nodes[c].priority { IsChild(l, order, marks, x); }
  }

  lemma OnlyChild(l: Links, order: seq<nat>, marks: Marks, n: nat)
    requires TreeOk(l, order, marks) && n in l.nodes && n != 0 && (l.nodes[n].left == 0 || l.nodes[n].right == 0)
    ensures forall x | x in l.nodes && l.nodes[x].parent == n :: x == Only(l.nodes[n])
  {
    forall x | x in l.nodes && l.nodes[x].parent == n ensures x == Only(l.nodes[n]) { IsChild(l, order, marks, x); }
  }

  lemma HeapHasAround(l: Links, order: seq<nat>, marks: Marks, n: nat)
    requires TreeOk(l, order, marks) && Heap(l.nodes) && n in l.nodes
    ensures HeapAround(l.nodes, n)
  {
    forall x | x in l.nodes && l.nodes[x].parent == n && l.nodes[n].parent in l.nodes
      ensures l.nodes[x].priority <= l.nodes[l.nodes[n].parent].priority
    {
      assert HeapAt(l.nodes, x) && HeapAt(l.nodes, n);
    }
  }

  /** The order has each node of the tree once. */
  lemma OrderExact(l: Links, order: seq<nat>, marks: Marks)
    requires TreeOk(l, order, marks)
    ensures (set n | n in order) == l.nodes.Keys && forall i, j | 0 <= i < j < |order| :: order[i] != order[j]
  {
    forall n | n in l.nodes ensures n in order { assert NodeOk(l, order, marks, n); }
  }

  /** Addresses rise along the order. */
  ghost predicate Rising(order: seq<nat>) { forall i, j | 0 <= i < j < |order| :: order[i] < order[j] }

  lemma EmptyTree(l: Links, order: seq<nat>, marks: Marks)
    requires TreeOk(l, order, marks) && l.root == 0
    ensures order == [] && l.nodes == map[]
  {
    OrderExact(l, order, marks);
    assert (set n | n in order) == {};
  }

  lemma FirstOk(l: Links, n: nat, priority: int)
    requires n != 0 && l == Links(map[n := Node(0, 0, 0, priority, false)], n)
    ensures TreeOk(l, [n], map[n := Mark(0, 0, 1)]) && Heap(l.nodes) && With(map[], l.nodes, n, priority)
  {
    assert NodeOk(l, [n], map[n := Mark(0, 0, 1)], n);
  }

  class Tree {
    var nodes: Nodes
    var root: nat
    var state: nat
    ghost var order: seq<nat>
    ghost var marks: Marks
    ghost var draws: seq<int>   // all priorities drawn

    function Now(): Links
      reads this
    {
      Links(nodes, root)
    }

    ghost predicate Linked()
      reads this
    {
      TreeOk(Now(), order, marks)
    }

    ghost predicate Valid()
      reads this
    {
      Linked() && Heap(nodes)
    }

    constructor ()
      ensures Valid() && order == [] && nodes == map[] && state == 0
    {
      nodes, root, state, order, marks, draws := map[], 0, 0, [], map[], [];
    }

    /** The upper half of a linear congruential generator's state, as a signed number. */
    method Rng() returns (r: int)
      modifies this`state, this`draws
      ensures Drawn(old(state), state, r) && draws == old(draws) + [r]
    {
      state := (state * 6364136223846793005 + 1442695040888963407) % 0x1_0000_0000_0000_0000;
      r := state / 0x1_0000_0000;
      if r >= 0x8000_0000 { r := r - 0x1_0000_0000; }
      draws := draws + [r];
    }

    /** The writes of a rotation in the nodes that turn. */
    method TurnPair(parent: nat, child: nat, g: nat, y: nat, dir: bool)
      requires Around(Now(), parent, child, y, g, dir)
      modifies this`nodes
      ensures nodes.Keys == old(nodes.Keys)
      ensures nodes[child] == WithChild(old(nodes[child]), !dir, parent).(parent := g, isRight := old(nodes[parent].isRight))
      ensures nodes[parent] == WithChild(old(nodes[parent]), dir, y).(parent := child, isRight := !dir)
      ensures y != 0 ==> nodes[y] == old(nodes[y]).(parent := parent, isRight := dir)
      ensures forall n | n in nodes && n != parent && n != child && n != y :: nodes[n] == old(nodes[n])
    {
      nodes := nodes[child := nodes[child].(parent := g, isRight := nodes[parent].isRight)];
      nodes := nodes[parent := WithChild(nodes[parent], dir, y)];
      if y != 0 { nodes := nodes[y := nodes[y].(parent := parent, isRight := dir)]; }
      nodes := nodes[child := WithChild(nodes[child], !dir, parent)];
      nodes := nodes[parent := nodes[parent].(parent := child, isRight := !dir)];
    }

    /** The slot that led to a node leads to `c`. */
    method SetSlot(up: nat, right: bool, c: nat)
      requires up != 0 ==> up in nodes
      modifies this`nodes, this`root
      ensures Now() == Slot(old(Now()), up, right, c)
    {
      if up != 0 { nodes := nodes[up := WithChild(nodes[up], right, c)]; } else { root := c; }
    }

    /** `child` takes the place of `parent`. */
    method Turn(parent: nat, child: nat, g: nat, y: nat, dir: bool)
      requires Around(Now(), parent, child, y, g, dir)
      modifies this`nodes, this`root
      ensures Turned(old(Now()), Now(), parent, child, y, g, dir)
    {
      TurnPair(parent, child, g, y, dir);
      SetSlot(g, nodes[child].isRight, child);
    }

    method TurnUp(parent: nat, child: nat, g: nat, y: nat, dir: bool)
      requires Linked() && Around(Now(), parent, child, y, g, dir)
      modifies this`nodes, this`root, this`marks
      ensures Linked() && SamePriorities(old(nodes), nodes)
      ensures Turned(old(Now()), Now(), parent, child, y, g, dir)
      ensures parent in old(marks) && child in old(marks) && marks == RotatedMarks(old(marks), parent, child, dir)
    {
      ghost var l := Now();
      Turn(parent, child, g, y, dir);
      TurnedOk(l, order, marks, parent, child, y, g, dir, Now());
      marks := RotatedMarks(marks, parent, child, dir);
    }

    /** Turning a node up for as long as its priority is higher than its parent's. */
    method RotateUp(parent: nat, child: nat)
      requires Linked() && parent in nodes && child in nodes && nodes[child].parent == parent
      requires HeapBut(nodes, child) && nodes[child].priority > nodes[parent].priority
      modifies this`nodes, this`root, this`marks
      ensures Valid() && SamePriorities(old(nodes), nodes)
      decreases |order| - if child in marks then marks[child].hi - marks[child].lo else 0
    {
      ghost var l := Now();
      var dir, g := nodes[child].isRight, nodes[parent].parent;
      var y := Child(nodes[child], !dir);
      AroundRotation(l, order, marks, parent, child, y, g, dir);
      ParentWider(l, order, marks, child);
      TurnUp(parent, child, g, y, dir);
      TurnUpHeap(l, parent, child, y, g, dir, Now());
      if g != 0 && nodes[child].priority > nodes[g].priority {
        ParentWider(Now(), order, marks, child);
        assert NodeOk(Now(), order, marks, g);
        RotateUp(g, child);
      }
    }

    /** The first node. */
    method InsertRoot(n: nat)
      requires Valid() && root == 0 && n != 0
      modifies this
      ensures Valid() && order == [n]
      ensures Drew(old(draws), draws, old(nodes), nodes, n)
    {
      EmptyTree(Now(), order, marks);
      root := n;
      var priority := Rng();
      nodes := map[n := Node(0, 0, 0, priority, false)];
      order, marks := [n], map[n := Mark(0, 0, 1)];
      FirstOk(Now(), n, priority);
    }

    /** A new leaf, with a random priority. */
    method Attach(parent: nat, right: bool, n: nat)
      requires Valid() && n != 0 && n !in nodes && parent in nodes && parent in marks && Child(nodes[parent], right) == 0
      modifies this
      ensures Linked() && n in nodes && parent in nodes && nodes[n].parent == parent
      ensures HeapBut(nodes, n) && (nodes[n].priority <= nodes[parent].priority ==> Heap(nodes))
      ensures Drew(old(draws), draws, old(nodes), nodes, n)
      ensures var k := LeafPos(old(marks[parent]), right); k <= |old(order)| && order == Put(old(order), k, n)
    {
      ghost var l, k := Now(), LeafPos(marks[parent], right);
      var priority := Rng();
      AttachOk(l, order, marks, parent, right, n, priority);
      ParentsInside(l, order, marks);
      AttachHeap(l, parent, right, n, priority);
      nodes := nodes[parent := WithChild(nodes[parent], right, n)];
      nodes := nodes[n := Node(parent, 0, 0, priority, right)];
      order, marks := Put(order, k, n), LeafMarks(marks, n, k, right);
      assert Now() == Attached(l, parent, right, n, priority);
    }

    /** Linking a node in below `parent`, or as the first one: it comes next to its parent, and the order is otherwise kept. */
    method InsertAt(parent: nat, right: bool, n: nat) returns (ghost k: nat)
      requires Valid() && n != 0 && n !in nodes
      requires if parent == 0 then root == 0 else parent in nodes && Child(nodes[parent], right) == 0
      modifies this
      ensures Valid() && k <= |old(order)| && order == Put(old(order), k, n)
      ensures Drew(old(draws), draws, old(nodes), nodes, n)
      ensures parent != 0 ==> (if right then k > 0 && old(order)[k - 1] == parent else k < |old(order)| && old(order)[k] == parent)
    {
      if parent == 0 {
        InsertRoot(n);
        return 0;
      }
      assert NodeOk(Now(), order, marks, parent);
      k := LeafPos(marks[parent], right);
      Attach(parent, right, n);
      if nodes[n].priority > nodes[parent].priority { RotateUp(parent, n); }
    }

    /** The writes of a removal when `n` has one child `y` or none: `y` takes its place, and `n` is cleared. */
    method Leave(n: nat, y: nat, g: nat)
      requires Leaving(Now(), n, y, g)
      modifies this`nodes, this`root
      ensures Left(old(Now()), Now(), n, y, g)
    {
      var right := nodes[n].isRight;
      SetSlot(g, right, y);
      if y != 0 { nodes := nodes[y := nodes[y].(parent := g, isRight := right)]; }
      nodes := nodes - {n};
    }

    /** Taking out a node with one child at most. */
    method RemoveEdge(n: nat)
      requires Linked() && n in nodes && n in marks && HeapAround(nodes, n) && (nodes[n].left == 0 || nodes[n].right == 0)
      modifies this`nodes, this`root, this`order, this`marks
      ensures Valid() && Without(old(nodes), nodes, n)
      ensures old(marks[n].pos) < |old(order)| && old(order)[old(marks[n].pos)] == n && order == Taken(old(order), old(marks[n].pos))
    {
      ghost var l := Now();
      var x := nodes[n];
      LeavingTree(l, order, marks, n);
      OnlyChild(l, order, marks, n);
      Leave(n, if x.left != 0 then x.left else x.right, x.parent);
      LeftOk(l, order, marks, n, Only(x), x.parent, Now());
      LeftHeap(l, n, Only(x), x.parent, Now());
      order, marks := Taken(order, marks[n].pos), LessMarks(marks, n, marks[n].pos);
    }

    /** Turning a node with two children down below the higher one. */
    method Lower(n: nat)
      requires Linked() && n in nodes && n in marks && HeapAround(nodes, n) && nodes[n].left != 0 && nodes[n].right != 0
      modifies this`nodes, this`root, this`marks
      ensures Linked() && SamePriorities(old(nodes), nodes) && HeapAround(nodes, n)
      ensures n in marks && marks[n].pos == old(marks[n].pos)
      ensures 0 <= marks[n].hi - marks[n].lo < old(marks[n].hi) - old(marks[n].lo)
    {
      ghost var l := Now();
      var x := nodes[n];
      ChildLinked(l, order, marks, n, false);
      ChildLinked(l, order, marks, n, true);
      var dir := nodes[x.left].priority > nodes[x.right].priority;
      var c := Child(x, !dir);
      var y := Child(nodes[c], dir);
      AroundRotation(l, order, marks, n, c, y, x.parent, !dir);
      HigherChild(l, order, marks, n, c);
      assert NodeOk(l, order, marks, n) && NodeOk(l, order, marks, c);
      TurnUp(n, c, x.parent, y, !dir);
      TurnDownHeap(l, n, c, y, x.parent, !dir, Now());
    }

    /** Turning a node down until it has one child at most, and taking it out. */
    method RemoveAt(n: nat)
      requires Linked() && n in nodes && n in marks && HeapAround(nodes, n)
      modifies this`nodes, this`root, this`order, this`marks
      ensures Valid() && Without(old(nodes), nodes, n)
      ensures old(marks[n].pos) < |old(order)| && old(order)[old(marks[n].pos)] == n && order == Taken(old(order), old(marks[n].pos))
      decreases if n in marks then marks[n].hi - marks[n].lo else 0
    {
      if nodes[n].left == 0 || nodes[n].right == 0 {
        RemoveEdge(n);
      } else {
        Lower(n);
        RemoveAt(n);
      }
    }

    /** Removal keeps the tree in order and takes out exactly the one node. */
    method Remove(n: nat)
      requires Valid() && n in nodes
      modifies this`nodes, this`root, this`order, this`marks
      ensures Valid() && Without(old(nodes), nodes, n)
      ensures exists k :: 0 <= k < |old(order)| && old(order)[k] == n && order == Taken(old(order), k)
    {
      HeapHasAround(Now(), order, marks, n);
      ghost var k := marks[n].pos;
      RemoveAt(n);
      assert order == Taken(old(order), k);
    }

    /** The first node of the subtree of `n`. */
    method Leftmost(n: nat) returns (r: nat)
      requires Linked() && n in nodes
      ensures r in nodes && n in marks && marks[n].lo < |order| && r == order[marks[n].lo]
    {
      r := n;
      assert NodeOk(Now(), order, marks, r);
      while nodes[r].left != 0
        invariant r in nodes && NodeOk(Now(), order, marks, r) && marks[r].lo == marks[n].lo
        decreases marks[r].hi - marks[r].lo
      {
        ChildLinked(Now(), order, marks, r, false);
        r := nodes[r].left;
        assert NodeOk(Now(), order, marks, r);
      }
    }

    /** The first node of the order, or 0 if there is none. */
    method Begin() returns (r: nat)
      requires Linked()
      ensures r == if order == [] then 0 else order[0]
    {
      if root == 0 { return 0; }
      assert NodeOk(Now(), order, marks, root);
      r := Leftmost(root);
    }

    /** The node after `n` in the order, or 0 after the last; climbing stops at the root because that is marked as a left child. */
    method Next(n: nat) returns (r: nat)
      requires Linked() && n in nodes
      ensures n in marks && marks[n].pos < |order| && order[marks[n].pos] == n
      ensures var i := marks[n].pos + 1; r == if i < |order| then order[i] else 0
    {
      assert NodeOk(Now(), order, marks, n);
      if nodes[n].right != 0 {
        ChildLinked(Now(), order, marks, n, true);
        r := Leftmost(nodes[n].right);
        return;
      }
      var x := n;
      while nodes[x].isRight
        invariant x in nodes && NodeOk(Now(), order, marks, x) && marks[x].hi == marks[n].pos + 1
        decreases |order| - (marks[x].hi - marks[x].lo)
      {
        ParentWider(Now(), order, marks, x);
        x := nodes[x].parent;
        assert NodeOk(Now(), order, marks, x);
      }
      r := nodes[x].parent;
      if r != 0 { assert NodeOk(Now(), order, marks, r); }
    }

    /** The place for a node by its address: below a node with no child on that side. */
    method FindParent(n: nat) returns (parent: nat)
      requires Linked() && Rising(order) && root != 0 && n !in nodes
      ensures parent in nodes && parent in marks && Child(nodes[parent], parent < n) == 0 && NodeOk(Now(), order, marks, parent)
      ensures forall i | 0 <= i < marks[parent].lo :: order[i] < n
      ensures forall i | marks[parent].hi <= i < |order| :: order[i] > n
    {
      parent := root;
      assert NodeOk(Now(), order, marks, parent);
      while Child(nodes[parent], parent < n) != 0
        invariant parent in nodes && parent in marks && NodeOk(Now(), order, marks, parent)
        invariant forall i | 0 <= i < marks[parent].lo :: order[i] < n
        invariant forall i | marks[parent].hi <= i < |order| :: order[i] > n
        decreases marks[parent].hi - marks[parent].lo
      {
        ghost var m := marks[parent];
        assert forall i | 0 <= i < m.pos :: order[i] < parent;
        assert forall i | m.pos < i < |order| :: parent < order[i];
        ChildLinked(Now(), order, marks, parent, parent < n);
        parent := Child(nodes[parent], parent < n);
        assert NodeOk(Now(), order, marks, parent);
      }
    }

    /** Adding a thread's node: the tree stays sorted by address. */
    method InsertByAddress(n: nat)
      requires Valid() && Rising(order) && n != 0 && n !in nodes
      modifies this
      ensures Valid() && Rising(order)
      ensures Drew(old(draws), draws, old(nodes), nodes, n)
      ensures exists k :: 0 <= k <= |old(order)| && order == Put(old(order), k, n)
    {
      if root == 0 {
        InsertRoot(n);
        assert order == Put(old(order), 0, n);
        return;
      }
      var parent := FindParent(n);
      assert NodeOk(Now(), order, marks, parent);
      var k := InsertAt(parent, parent < n, n);
      RisingPut(old(order), k, n);
    }
  }

  /** A node put between lower and higher ones. */
  lemma RisingPut(order: seq<nat>, k: nat, n: nat)
    requires Rising(order) && k <= |order| && (k > 0 ==> order[k - 1] < n) && (k < |order| ==> n < order[k])
    ensures Rising(Put(order, k, n))
  {
  }
}
