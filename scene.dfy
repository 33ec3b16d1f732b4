/**
 * The depth-ordering scene: every frame the game adds each drawable object with its
 * world y, then draws them all from the back (small y) to the front (large y) and
 * empties the scene. The source keeps an unbalanced binary search tree in four
 * parallel lists: the objects, their y keys, and the left and right child index of
 * each node (-1 for none). A key equal to a node's key is linked to its LEFT, so of
 * two objects with the same y the one added later is drawn first.
 */
module SceneTree {

  /** Node `a` is drawn before node `b`: smaller y first, and on equal y the later index first. */
  predicate Before(ys: seq<int>, a: int, b: int)
    requires 0 <= a < |ys| && 0 <= b < |ys|
  {
    ys[a] < ys[b] || (ys[a] == ys[b] && a > b)
  }

  /** Every child index is -1 (no child) or the index of a node added later. */
  predicate Linked(n: nat, left: seq<int>, right: seq<int>)
  {
    && |left| == n && |right| == n
    && forall i :: 0 <= i < n ==>
         (left[i] == -1 || i < left[i] < n) && (right[i] == -1 || i < right[i] < n)
  }

  /** Termination measure for descending the tree: children have larger indices, -1 is a leaf. */
  function Rank(n: int, i: int): nat
  {
    if i < 0 || n < i then 0 else n - i + 1
  }

  /** The nodes of the subtree rooted at `i` (-1 is the empty subtree). */
  ghost function Nodes(left: seq<int>, right: seq<int>, i: int): (s: set<int>)
    requires Linked(|left|, left, right) && -1 <= i < |left|
    ensures forall k :: k in s ==> 0 <= i <= k < |left|
    decreases Rank(|left|, i)
  {
    if i == -1 then {} else Nodes(left, right, left[i]) + {i} + Nodes(left, right, right[i])
  }

  /** In-order traversal of the subtree rooted at `i`: only nodes of that subtree. */
  function Walk(left: seq<int>, right: seq<int>, i: int): (w: seq<int>)
    requires Linked(|left|, left, right) && -1 <= i < |left|
    ensures forall k :: 0 <= k < |w| ==> 0 <= i <= w[k] < |left| && w[k] in Nodes(left, right, i)
    decreases Rank(|left|, i)
  {
    if i == -1 then [] else Walk(left, right, left[i]) + [i] + Walk(left, right, right[i])
  }

  /** The search-tree property of the subtree at `i`, for the order `Before`. */
  ghost predicate Ordered(ys: seq<int>, left: seq<int>, right: seq<int>, i: int)
    requires Linked(|ys|, left, right) && -1 <= i < |ys|
    decreases Rank(|ys|, i)
  {
    i == -1 ||
    (&& (forall j :: j in Nodes(left, right, left[i]) ==> Before(ys, j, i))
     && (forall j :: j in Nodes(left, right, right[i]) ==> Before(ys, i, j))
     && Ordered(ys, left, right, left[i])
     && Ordered(ys, left, right, right[i]))
  }

  /** The scene invariant: a search tree rooted at node 0 that reaches every node. */
  ghost predicate WellFormed(ys: seq<int>, left: seq<int>, right: seq<int>)
  {
    && Linked(|ys|, left, right)
    && (|ys| > 0 ==>
          Ordered(ys, left, right, 0) && forall k :: 0 <= k < |ys| ==> k in Nodes(left, right, 0))
  }

  /** A sequence of node indices in strictly increasing draw order. */
  ghost predicate DepthSorted(ys: seq<int>, s: seq<int>)
  {
    && (forall k :: 0 <= k < |s| ==> 0 <= s[k] < |ys|)
    && (forall a, b :: 0 <= a < b < |s| ==> Before(ys, s[a], s[b]))
  }

  /**
   * Where `tree` links a new node with key `y`, starting its descent at node `i`:
   * the node reached and whether the new node becomes its left child.
   */
  function LinkSite(ys: seq<int>, left: seq<int>, right: seq<int>, y: int, i: int): (site: (int, bool))
    requires Linked(|ys|, left, right) && 0 <= i < |ys|
    ensures site.0 in Nodes(left, right, i)
    ensures if site.1 then left[site.0] == -1 else right[site.0] == -1
    decreases Rank(|ys|, i)
  {
    if y <= ys[i] then
      if left[i] == -1 then (i, true) else LinkSite(ys, left, right, y, left[i])
    else
      if right[i] == -1 then (i, false) else LinkSite(ys, left, right, y, right[i])
  }

  /** The three index lists after `add_to_scene` adds a node with key `y`. */
  function Added(ys: seq<int>, left: seq<int>, right: seq<int>, y: int): (r: (seq<int>, seq<int>, seq<int>))
    requires Linked(|ys|, left, right)
    ensures |r.0| == |ys| + 1 && r.0[..|ys|] == ys && r.0[|ys|] == y
  {
    var n := |ys|;
    Extended(ys, left, right);
    var ys', l', r' := ys + [y], left + [-1], right + [-1];
    if n == 0 then (ys', l', r')
    else
      var site := LinkSite(ys', l', r', y, 0);
      if site.1 then (ys', l'[site.0 := n], r') else (ys', l', r'[site.0 := n])
  }

  /** The objects named by a sequence of node indices, in that order. */
  function ObjectsIn<T>(objects: seq<T>, order: seq<int>): (drawn: seq<T>)
    requires forall k :: 0 <= k < |order| ==> 0 <= order[k] < |objects|
    ensures |drawn| == |order|
    ensures forall k :: 0 <= k < |order| ==> drawn[k] == objects[order[k]]
  {
    seq(|order|, k requires 0 <= k < |order| => objects[order[k]])
  }

  /** Reference order: insertion of `k` into a depth-sorted sequence. */
  function InsertByDepth(ys: seq<int>, s: seq<int>, k: int): (r: seq<int>)
    requires 0 <= k < |ys| && forall j :: 0 <= j < |s| ==> 0 <= s[j] < |ys|
    ensures |r| == |s| + 1 && forall j :: j in r <==> j in s || j == k
    ensures forall j :: 0 <= j < |r| ==> r[j] == k || r[j] in s
  {
    if s == [] then [k]
    else if Before(ys, k, s[0]) then [k] + s
    else [s[0]] + InsertByDepth(ys, s[1..], k)
  }

  /** Reference order: the first `n` nodes sorted by insertion sort under `Before`. */
  function DepthOrderOf(ys: seq<int>, n: nat): (r: seq<int>)
    requires n <= |ys|
    ensures |r| == n && forall j :: j in r <==> 0 <= j < n
    ensures forall j :: 0 <= j < |r| ==> 0 <= r[j] < n
  {
    if n == 0 then [] else InsertByDepth(ys, DepthOrderOf(ys, n - 1), n - 1)
  }

  /** The order in which all nodes of a scene are drawn. */
  function DepthOrder(ys: seq<int>): (r: seq<int>)
  {
    DepthOrderOf(ys, |ys|)
  }

  // ---------------------------------------------------------------------------
  // Lemmas about the order and the tree
  // ---------------------------------------------------------------------------

  /** `Before` is a strict total order on the nodes. */
  lemma {:induction false} BeforeStrictTotal(ys: seq<int>, a: int, b: int, c: int)
    requires 0 <= a < |ys| && 0 <= b < |ys| && 0 <= c < |ys|
    ensures !Before(ys, a, a)
    ensures Before(ys, a, b) ==> !Before(ys, b, a)
    ensures a != b ==> Before(ys, a, b) || Before(ys, b, a)
    ensures Before(ys, a, b) && Before(ys, b, c) ==> Before(ys, a, c)
  {
  }

  /** The traversal of a search tree is in strictly increasing draw order. */
  lemma {:induction false} WalkSorted(ys: seq<int>, left: seq<int>, right: seq<int>, i: int)
    requires Linked(|ys|, left, right) && -1 <= i < |ys|
    requires Ordered(ys, left, right, i)
    ensures DepthSorted(ys, Walk(left, right, i))
    decreases Rank(|ys|, i)
  {
    if i != -1 {
      var l, r := left[i], right[i];
      WalkSorted(ys, left, right, l);
      WalkSorted(ys, left, right, r);
      var wl, wr := Walk(left, right, l), Walk(left, right, r);
      ConcatSorted(ys, wl, i, wr);
    }
  }

  /** A sorted sequence, a node, and a sorted sequence, in draw order, concatenate to a sorted sequence. */
  lemma {:induction false} ConcatSorted(ys: seq<int>, wl: seq<int>, i: int, wr: seq<int>)
    requires 0 <= i < |ys| && DepthSorted(ys, wl) && DepthSorted(ys, wr)
    requires forall k :: 0 <= k < |wl| ==> Before(ys, wl[k], i)
    requires forall k :: 0 <= k < |wr| ==> Before(ys, i, wr[k])
    ensures DepthSorted(ys, wl + [i] + wr)
  {
    var w := wl + [i] + wr;
    forall a, b | 0 <= a < b < |w| ensures Before(ys, w[a], w[b]) {
      if b < |wl| {
      } else if a < |wl| && b == |wl| {
        assert w[a] == wl[a];
      } else if a < |wl| {
        assert w[a] == wl[a] && w[b] == wr[b - |wl| - 1];
        BeforeStrictTotal(ys, w[a], i, w[b]);
      } else if a == |wl| {
        assert w[b] == wr[b - |wl| - 1];
      } else {
        assert w[a] == wr[a - |wl| - 1] && w[b] == wr[b - |wl| - 1];
      }
    }
  }

  /** The traversal visits every node of the subtree. */
  lemma {:induction false} WalkCovers(left: seq<int>, right: seq<int>, i: int)
    requires Linked(|left|, left, right) && -1 <= i < |left|
    ensures forall k :: k in Nodes(left, right, i) ==> k in Walk(left, right, i)
    decreases Rank(|left|, i)
  {
    if i != -1 {
      WalkCovers(left, right, left[i]);
      WalkCovers(left, right, right[i]);
      var wl, wr := Walk(left, right, left[i]), Walk(left, right, right[i]);
      assert Walk(left, right, i) == wl + [i] + wr;
      forall k | k in Nodes(left, right, i) ensures k in wl + [i] + wr {
        if k in wl {
          var a :| 0 <= a < |wl| && wl[a] == k;
          assert (wl + [i] + wr)[a] == k;
        } else if k in wr {
          var a :| 0 <= a < |wr| && wr[a] == k;
          assert (wl + [i] + wr)[|wl| + 1 + a] == k;
        } else {
          assert (wl + [i] + wr)[|wl|] == i;
        }
      }
    }
  }

  /** Appending an unlinked node keeps the lists linked, and nothing points to it. */
  lemma {:induction false} Extended(ys: seq<int>, left: seq<int>, right: seq<int>)
    requires Linked(|ys|, left, right)
    ensures Linked(|ys| + 1, left + [-1], right + [-1])
    ensures forall k :: 0 <= k <= |ys| ==> (left + [-1])[k] != |ys| && (right + [-1])[k] != |ys|
  {
    var l', r' := left + [-1], right + [-1];
    assert forall i :: 0 <= i < |ys| ==> l'[i] == left[i] && r'[i] == right[i];
  }

  /** Appending an unlinked node changes no existing subtree. */
  lemma {:induction false} NodesExtend(ys: seq<int>, left: seq<int>, right: seq<int>, j: int)
    requires Linked(|ys|, left, right) && -1 <= j < |ys|
    ensures Linked(|ys| + 1, left + [-1], right + [-1])
    ensures Nodes(left + [-1], right + [-1], j) == Nodes(left, right, j)
    decreases Rank(|ys|, j)
  {
    Extended(ys, left, right);
    if j != -1 {
      var l', r' := left + [-1], right + [-1];
      assert l'[j] == left[j] && r'[j] == right[j];
      NodesExtend(ys, left, right, left[j]);
      NodesExtend(ys, left, right, right[j]);
    }
  }

  /** Appending an unlinked node keeps every existing subtree a search tree. */
  lemma {:induction false} OrderedExtend(ys: seq<int>, left: seq<int>, right: seq<int>, y: int, j: int)
    requires Linked(|ys|, left, right) && -1 <= j < |ys|
    requires Ordered(ys, left, right, j)
    ensures Linked(|ys| + 1, left + [-1], right + [-1])
    ensures Ordered(ys + [y], left + [-1], right + [-1], j)
    decreases Rank(|ys|, j)
  {
    Extended(ys, left, right);
    if j != -1 {
      var ys', l', r' := ys + [y], left + [-1], right + [-1];
      var cl, cr := left[j], right[j];
      assert l'[j] == cl && r'[j] == cr;
      NodesExtend(ys, left, right, cl);
      NodesExtend(ys, left, right, cr);
      OrderedExtend(ys, left, right, y, cl);
      OrderedExtend(ys, left, right, y, cr);
      forall k | k in Nodes(l', r', cl) ensures Before(ys', k, j) {
        assert Before(ys, k, j);
      }
      forall k | k in Nodes(l', r', cr) ensures Before(ys', j, k) {
        assert Before(ys, j, k);
      }
      OrderedIntro(ys', l', r', j);
    }
  }

  /** Re-pointing one node `p` leaves every subtree that does not contain `p` as it was. */
  lemma {:induction false} NodesFrame(ys: seq<int>, left: seq<int>, right: seq<int>,
                                      left': seq<int>, right': seq<int>, p: int, j: int)
    requires Linked(|ys|, left, right) && Linked(|ys|, left', right')
    requires forall i :: 0 <= i < |ys| && i != p ==> left'[i] == left[i] && right'[i] == right[i]
    requires -1 <= j < |ys| && p !in Nodes(left, right, j)
    ensures Nodes(left', right', j) == Nodes(left, right, j)
    ensures Ordered(ys, left', right', j) == Ordered(ys, left, right, j)
    decreases Rank(|ys|, j)
  {
    if j != -1 {
      NodesFrame(ys, left, right, left', right', p, left[j]);
      NodesFrame(ys, left, right, left', right', p, right[j]);
    }
  }

  /** A node that nothing points to is in no subtree but its own. */
  lemma {:induction false} Unreached(left: seq<int>, right: seq<int>, n: int, j: int)
    requires Linked(|left|, left, right) && -1 <= j < |left| && j != n
    requires forall k :: 0 <= k < |left| ==> left[k] != n && right[k] != n
    ensures n !in Nodes(left, right, j)
    decreases Rank(|left|, j)
  {
    if j != -1 {
      Unreached(left, right, n, left[j]);
      Unreached(left, right, n, right[j]);
    }
  }

  /** Setting a free child pointer of an earlier node to the last node keeps the lists linked. */
  lemma {:induction false} Relinked(ys: seq<int>, left: seq<int>, right: seq<int>, p: int, goLeft: bool)
    requires Linked(|ys|, left, right) && 0 <= p < |ys| - 1
    ensures goLeft ==> Linked(|ys|, left[p := |ys| - 1], right)
    ensures !goLeft ==> Linked(|ys|, left, right[p := |ys| - 1])
  {
  }

  /** A subtree whose child subtree `c` gained node `n`, the other child's subtree unchanged, gained `n`. */
  lemma {:induction false} NodesBelow(left: seq<int>, right: seq<int>, i: int, n: int, goLeft: bool,
                   left': seq<int>, right': seq<int>)
    requires Linked(|left|, left, right) && Linked(|left|, left', right') && 0 <= i < |left|
    requires left'[i] == left[i] && right'[i] == right[i]
    requires goLeft ==> left[i] != -1 && Nodes(left', right', left[i]) == Nodes(left, right, left[i]) + {n}
    requires goLeft ==> Nodes(left', right', right[i]) == Nodes(left, right, right[i])
    requires !goLeft ==> right[i] != -1 && Nodes(left', right', right[i]) == Nodes(left, right, right[i]) + {n}
    requires !goLeft ==> Nodes(left', right', left[i]) == Nodes(left, right, left[i])
    ensures Nodes(left', right', i) == Nodes(left, right, i) + {n}
  {
  }

  /** The search-tree property at `i` from its four parts. */
  lemma {:induction false} OrderedIntro(ys: seq<int>, left: seq<int>, right: seq<int>, i: int)
    requires Linked(|ys|, left, right) && 0 <= i < |ys|
    requires forall j :: j in Nodes(left, right, left[i]) ==> Before(ys, j, i)
    requires forall j :: j in Nodes(left, right, right[i]) ==> Before(ys, i, j)
    requires Ordered(ys, left, right, left[i]) && Ordered(ys, left, right, right[i])
    ensures Ordered(ys, left, right, i)
  {
  }

  /** The search-tree property at `i` after its left subtree gained node n, which goes before `i`. */
  lemma {:induction false} OrderedBelowLeft(ys: seq<int>, left: seq<int>, right: seq<int>, i: int,
                         left': seq<int>, right': seq<int>)
    requires Linked(|ys|, left, right) && Linked(|ys|, left', right') && 0 <= i < |ys| - 1
    requires left'[i] == left[i] && right'[i] == right[i] && left[i] != -1
    requires forall j :: j in Nodes(left, right, left[i]) ==> Before(ys, j, i)
    requires forall j :: j in Nodes(left, right, right[i]) ==> Before(ys, i, j)
    requires Ordered(ys, left', right', left[i]) && Ordered(ys, left', right', right[i])
    requires Nodes(left', right', left[i]) == Nodes(left, right, left[i]) + {|ys| - 1}
    requires Nodes(left', right', right[i]) == Nodes(left, right, right[i])
    requires Before(ys, |ys| - 1, i)
    ensures Ordered(ys, left', right', i)
  {
    var cl, cr := left[i], right[i];
    forall j | j in Nodes(left', right', cl) ensures Before(ys, j, i) {
      if j != |ys| - 1 {
        assert j in Nodes(left, right, cl);
      }
    }
    assert forall j :: j in Nodes(left', right', cr) ==> j in Nodes(left, right, cr);
    OrderedIntro(ys, left', right', i);
  }

  /** The search-tree property at `i` after its right subtree gained node n, which goes after `i`. */
  lemma {:induction false} OrderedBelowRight(ys: seq<int>, left: seq<int>, right: seq<int>, i: int,
                          left': seq<int>, right': seq<int>)
    requires Linked(|ys|, left, right) && Linked(|ys|, left', right') && 0 <= i < |ys| - 1
    requires left'[i] == left[i] && right'[i] == right[i] && right[i] != -1
    requires forall j :: j in Nodes(left, right, left[i]) ==> Before(ys, j, i)
    requires forall j :: j in Nodes(left, right, right[i]) ==> Before(ys, i, j)
    requires Ordered(ys, left', right', left[i]) && Ordered(ys, left', right', right[i])
    requires Nodes(left', right', right[i]) == Nodes(left, right, right[i]) + {|ys| - 1}
    requires Nodes(left', right', left[i]) == Nodes(left, right, left[i])
    requires Before(ys, i, |ys| - 1)
    ensures Ordered(ys, left', right', i)
  {
    var cl, cr := left[i], right[i];
    forall j | j in Nodes(left', right', cr) ensures Before(ys, i, j) {
      if j != |ys| - 1 {
        assert j in Nodes(left, right, cr);
      }
    }
    assert forall j :: j in Nodes(left', right', cl) ==> j in Nodes(left, right, cl);
    OrderedIntro(ys, left', right', i);
  }

  /** The last step of the descent: node n becomes a child of `i`. */
  lemma {:induction false} LinkAt(ys: seq<int>, left: seq<int>, right: seq<int>, i: int,
               left': seq<int>, right': seq<int>, goLeft: bool)
    requires Linked(|ys|, left, right) && Linked(|ys|, left', right') && 0 <= i < |ys| - 1
    requires left[|ys| - 1] == -1 && right[|ys| - 1] == -1
    requires Ordered(ys, left, right, i)
    requires goLeft ==> left[i] == -1 && left' == left[i := |ys| - 1] && right' == right
    requires !goLeft ==> right[i] == -1 && right' == right[i := |ys| - 1] && left' == left
    requires goLeft ==> Before(ys, |ys| - 1, i)
    requires !goLeft ==> Before(ys, i, |ys| - 1)
    ensures Ordered(ys, left', right', i)
    ensures Nodes(left', right', i) == Nodes(left, right, i) + {|ys| - 1}
  {
    var n := |ys| - 1;
    assert Nodes(left', right', n) == {n} by {
      assert left'[n] == -1 && right'[n] == -1;
    }
    assert Ordered(ys, left', right', n);
    if goLeft {
      NodesFrame(ys, left, right, left', right', i, right[i]);
    } else {
      NodesFrame(ys, left, right, left', right', i, left[i]);
    }
  }

  /**
   * Below a node with a child on the side of the new key, the descent continues from
   * that child: the child is an earlier node, its subtree is a search tree, and it
   * holds the link site.
   */
  lemma LinkDescend(ys: seq<int>, left: seq<int>, right: seq<int>, i: int, p: int, goLeft: bool)
    requires Linked(|ys|, left, right) && 0 <= i < |ys| - 1
    requires forall k :: 0 <= k < |ys| ==> left[k] != |ys| - 1 && right[k] != |ys| - 1
    requires Ordered(ys, left, right, i)
    requires (p, goLeft) == LinkSite(ys, left, right, ys[|ys| - 1], i)
    ensures var c := if ys[|ys| - 1] <= ys[i] then left[i] else right[i];
            c != -1 ==>
              && 0 <= c < |ys| - 1 && Rank(|ys|, c) < Rank(|ys|, i)
              && Ordered(ys, left, right, c)
              && (p, goLeft) == LinkSite(ys, left, right, ys[|ys| - 1], c)
              && p in Nodes(left, right, c) && p != i
  {
  }

  /** The link site is an earlier node, so linking the new node there keeps the lists linked. */
  lemma LinkSiteEarlier(ys: seq<int>, left: seq<int>, right: seq<int>, i: int, p: int, goLeft: bool)
    requires Linked(|ys|, left, right) && 0 <= i < |ys| - 1
    requires forall k :: 0 <= k < |ys| ==> left[k] != |ys| - 1 && right[k] != |ys| - 1
    requires (p, goLeft) == LinkSite(ys, left, right, ys[|ys| - 1], i)
    ensures p < |ys| - 1
    ensures Linked(|ys|, if goLeft then left[p := |ys| - 1] else left, if goLeft then right else right[p := |ys| - 1])
  {
    Unreached(left, right, |ys| - 1, i);
    Relinked(ys, left, right, p, goLeft);
  }

  /**
   * Linking the last node `n` below node `i` where `tree` puts it (at `p`, on the side
   * `goLeft`) keeps the subtree at `i` a search tree, and adds exactly `n` to it.
   */
  lemma {:induction false} LinkCorrect(ys: seq<int>, left: seq<int>, right: seq<int>, i: int,
                                       p: int, goLeft: bool, left': seq<int>, right': seq<int>)
    requires Linked(|ys|, left, right) && 0 <= i < |ys| - 1
    requires left[|ys| - 1] == -1 && right[|ys| - 1] == -1
    requires forall k :: 0 <= k < |ys| ==> left[k] != |ys| - 1 && right[k] != |ys| - 1
    requires Ordered(ys, left, right, i)
    requires (p, goLeft) == LinkSite(ys, left, right, ys[|ys| - 1], i)
    requires left' == (if goLeft then left[p := |ys| - 1] else left)
    requires right' == (if goLeft then right else right[p := |ys| - 1])
    requires p < |ys| - 1 && Linked(|ys|, left', right')
    ensures Ordered(ys, left', right', i)
    ensures Nodes(left', right', i) == Nodes(left, right, i) + {|ys| - 1}
    decreases Rank(|ys|, i)
  {
    var n := |ys| - 1;
    var y := ys[n];
    var descendLeft := y <= ys[i];
    var c := if descendLeft then left[i] else right[i];
    if c == -1 {
      LinkAt(ys, left, right, i, left', right', goLeft);
    } else {
      LinkDescend(ys, left, right, i, p, goLeft);
      LinkCorrect(ys, left, right, c, p, goLeft, left', right');
      LinkAbove(ys, left, right, i, p, left', right');
    }
  }

  /**
   * The step back up the descent: the child subtree on the side the new node `n`
   * went to gained exactly `n` and stayed a search tree, so the subtree at `i` did too.
   */
  lemma {:induction false} LinkAbove(ys: seq<int>, left: seq<int>, right: seq<int>, i: int,
                                     p: int, left': seq<int>, right': seq<int>)
    requires Linked(|ys|, left, right) && Linked(|ys|, left', right') && 0 <= i < |ys| - 1
    requires Ordered(ys, left, right, i) && p != i && 0 <= p < |ys|
    requires forall k :: 0 <= k < |ys| && k != p ==> left'[k] == left[k] && right'[k] == right[k]
    requires var c := if ys[|ys| - 1] <= ys[i] then left[i] else right[i];
             && c != -1 && p in Nodes(left, right, c)
             && Ordered(ys, left', right', c)
             && Nodes(left', right', c) == Nodes(left, right, c) + {|ys| - 1}
    ensures Ordered(ys, left', right', i)
    ensures Nodes(left', right', i) == Nodes(left, right, i) + {|ys| - 1}
  {
    var n := |ys| - 1;
    var descendLeft := ys[n] <= ys[i];
    var other := if descendLeft then right[i] else left[i];
    assert p !in Nodes(left, right, other) by {
      BeforeStrictTotal(ys, p, i, p);
    }
    NodesFrame(ys, left, right, left', right', p, other);
    NodesBelow(left, right, i, n, descendLeft, left', right');
    if descendLeft {
      OrderedBelowLeft(ys, left, right, i, left', right');
    } else {
      OrderedBelowRight(ys, left, right, i, left', right');
    }
  }

  /** `add_to_scene` keeps the scene a search tree over all its nodes. */
  lemma {:induction false} AddedWellFormed(ys: seq<int>, left: seq<int>, right: seq<int>, y: int)
    requires WellFormed(ys, left, right)
    ensures Linked(|ys|, left, right)
    ensures var r := Added(ys, left, right, y); WellFormed(r.0, r.1, r.2)
  {
    var n := |ys|;
    var ys', l0, r0 := ys + [y], left + [-1], right + [-1];
    Extended(ys, left, right);
    if n == 0 {
      assert Nodes(l0, r0, 0) == {0};
      assert Added(ys, left, right, y) == (ys', l0, r0);
    } else {
      AddedToTree(ys, left, right, y);
    }
  }

  /** `add_to_scene` on a non-empty scene: the new node is linked below the root. */
  lemma {:induction false} AddedToTree(ys: seq<int>, left: seq<int>, right: seq<int>, y: int)
    requires WellFormed(ys, left, right) && |ys| > 0
    ensures var r := Added(ys, left, right, y); WellFormed(r.0, r.1, r.2)
  {
    var n := |ys|;
    var ys', l0, r0 := ys + [y], left + [-1], right + [-1];
    Extended(ys, left, right);
    NodesExtend(ys, left, right, 0);
    OrderedExtend(ys, left, right, y, 0);
    var site := LinkSite(ys', l0, r0, y, 0);
    var l1 := if site.1 then l0[site.0 := n] else l0;
    var r1 := if site.1 then r0 else r0[site.0 := n];
    LinkSiteEarlier(ys', l0, r0, 0, site.0, site.1);
    LinkCorrect(ys', l0, r0, 0, site.0, site.1, l1, r1);
    assert Nodes(l1, r1, 0) == Nodes(left, right, 0) + {n};
    assert Added(ys, left, right, y) == (ys', l1, r1);
  }

  /** The head of a depth-sorted sequence comes before every other member. */
  lemma {:induction false} HeadFirst(ys: seq<int>, s: seq<int>, x: int)
    requires DepthSorted(ys, s) && x in s && s != []
    ensures x != s[0] ==> Before(ys, s[0], x)
  {
  }

  /** Two strictly sorted sequences with the same members are equal. */
  lemma {:induction false} SortedUnique(ys: seq<int>, s: seq<int>, t: seq<int>)
    requires DepthSorted(ys, s) && DepthSorted(ys, t)
    requires forall k :: k in s <==> k in t
    ensures s == t
  {
    if s != [] { assert s[0] in t; }
    if t != [] { assert t[0] in s; }
    if s != [] {
      HeadFirst(ys, s, t[0]);
      HeadFirst(ys, t, s[0]);
      BeforeStrictTotal(ys, s[0], t[0], s[0]);
      assert s[0] == t[0];
      forall k ensures k in s[1..] <==> k in t[1..] {
        if k in s[1..] {
          var i :| 1 <= i < |s| && s[i] == k;
          assert Before(ys, s[0], s[i]);
          assert k in t;
          var j :| 0 <= j < |t| && t[j] == k;
          assert j != 0;
          assert t[1..][j - 1] == k;
        }
        if k in t[1..] {
          var j :| 1 <= j < |t| && t[j] == k;
          assert Before(ys, t[0], t[j]);
          assert k in s;
          var i :| 0 <= i < |s| && s[i] == k;
          assert i != 0;
          assert s[1..][i - 1] == k;
        }
      }
      SortedUnique(ys, s[1..], t[1..]);
      assert s == [s[0]] + s[1..] && t == [t[0]] + t[1..];
    }
  }

  /** The tail of a depth-sorted sequence is depth-sorted. */
  lemma {:induction false} SortedTail(ys: seq<int>, s: seq<int>)
    requires DepthSorted(ys, s) && s != []
    ensures DepthSorted(ys, s[1..])
  {
    var t := s[1..];
    forall a, b | 0 <= a < b < |t| ensures Before(ys, t[a], t[b]) {
      assert t[a] == s[a + 1] && t[b] == s[b + 1];
    }
  }

  /** A node that goes before every member of a depth-sorted sequence can head it. */
  lemma {:induction false} SortedCons(ys: seq<int>, x: int, s: seq<int>)
    requires 0 <= x < |ys| && DepthSorted(ys, s)
    requires forall j :: 0 <= j < |s| ==> Before(ys, x, s[j])
    ensures DepthSorted(ys, [x] + s)
  {
    var w := [x] + s;
    forall a, b | 0 <= a < b < |w| ensures Before(ys, w[a], w[b]) {
      assert w[b] == s[b - 1];
      if a > 0 {
        assert w[a] == s[a - 1];
      }
    }
  }

  /** Insertion keeps a sequence depth-sorted. */
  lemma {:induction false} InsertSorted(ys: seq<int>, s: seq<int>, k: int)
    requires 0 <= k < |ys| && DepthSorted(ys, s) && k !in s
    ensures DepthSorted(ys, InsertByDepth(ys, s, k))
  {
    if s == [] {
      assert InsertByDepth(ys, s, k) == [k];
    } else if Before(ys, k, s[0]) {
      forall j | 0 <= j < |s| ensures Before(ys, k, s[j]) {
        if j > 0 {
          BeforeStrictTotal(ys, k, s[0], s[j]);
        }
      }
      SortedCons(ys, k, s);
    } else {
      var t := s[1..];
      SortedTail(ys, s);
      assert k !in t;
      InsertSorted(ys, t, k);
      var r := InsertByDepth(ys, t, k);
      assert k != s[0];
      BeforeStrictTotal(ys, k, s[0], k);
      forall j | 0 <= j < |r| ensures Before(ys, s[0], r[j]) {
        if r[j] != k {
          var c :| 0 <= c < |t| && t[c] == r[j];
          assert Before(ys, s[0], s[c + 1]);
        }
      }
      SortedCons(ys, s[0], r);
    }
  }

  /** The reference insertion sort yields every node exactly once, in draw order. */
  lemma {:induction false} DepthOrderSorted(ys: seq<int>, n: nat)
    requires n <= |ys|
    ensures DepthSorted(ys, DepthOrderOf(ys, n))
  {
    if n > 0 {
      var s := DepthOrderOf(ys, n - 1);
      DepthOrderSorted(ys, n - 1);
      assert n - 1 !in s;
      InsertSorted(ys, s, n - 1);
      assert DepthOrderOf(ys, n) == InsertByDepth(ys, s, n - 1);
    }
  }

  /**
   * What `draw` emits: the in-order traversal of a well-formed scene is the reference
   * depth order, every node exactly once, back to front, later insertions first on ties.
   */
  lemma {:induction false} TraversalIsDepthOrder(ys: seq<int>, left: seq<int>, right: seq<int>)
    requires WellFormed(ys, left, right) && |ys| > 0
    ensures Walk(left, right, 0) == DepthOrder(ys)
    ensures DepthSorted(ys, DepthOrder(ys))
    ensures |DepthOrder(ys)| == |ys| && forall k :: k in DepthOrder(ys) <==> 0 <= k < |ys|
  {
    WalkSorted(ys, left, right, 0);
    WalkCovers(left, right, 0);
    DepthOrderSorted(ys, |ys|);
    SortedUnique(ys, Walk(left, right, 0), DepthOrder(ys));
  }

  /** In the depth order two nodes with equal y come out latest-added first. */
  lemma {:induction false} TiesLatestFirst(ys: seq<int>, a: int, b: int)
    requires 0 <= a < |ys| && 0 <= b < |ys| && ys[a] == ys[b]
    ensures var w := DepthOrder(ys);
            forall p, q :: 0 <= p < q < |w| && w[p] == a && w[q] == b ==> a > b
  {
    DepthOrderSorted(ys, |ys|);
  }

  /** Keys 50, 10, 50, 30 added in that order are drawn as nodes 1, 3, 2, 0. */
  lemma {:induction false} ExampleOrder()
    ensures DepthOrder([50, 10, 50, 30]) == [1, 3, 2, 0]
  {
    var ys := [50, 10, 50, 30];
    assert DepthOrderOf(ys, 1) == [0];
    assert DepthOrderOf(ys, 2) == [1, 0];
    assert DepthOrderOf(ys, 3) == InsertByDepth(ys, [1, 0], 2);
    assert InsertByDepth(ys, [0], 2) == [2, 0];
    assert DepthOrderOf(ys, 3) == [1, 2, 0];
    assert InsertByDepth(ys, [2, 0], 3) == [3, 2, 0];
  }

  // ---------------------------------------------------------------------------
  // The scene object
  // ---------------------------------------------------------------------------

  class Scene<T> {
    var objects: seq<T>
    var ys: seq<int>
    var left: seq<int>
    var right: seq<int>

    ghost predicate Valid()
      reads this
    {
      |objects| == |ys| && WellFormed(ys, left, right)
    }

    constructor ()
      ensures Valid() && objects == [] && ys == [] && left == [] && right == []
    {
      objects, ys, left, right := [], [], [], [];
    }

    /** Appends the node, then links it into the tree when it is not the root. */
    method AddToScene(leaf: T, leafY: int)
      requires Valid()
      modifies this
      ensures Valid()
      ensures objects == old(objects) + [leaf]
      ensures (ys, left, right) == Added(old(ys), old(left), old(right), leafY)
    {
      AddedWellFormed(ys, left, right, leafY);
      Extended(ys, left, right);
      objects := objects + [leaf];
      ys := ys + [leafY];
      left := left + [-1];
      right := right + [-1];
      var newIndex := |objects| - 1;
      if newIndex != 0 {
        Tree(leafY, newIndex, 0);
      }
    }

    /** Descends from `node` and links node `newIndex` where its key belongs. */
    method Tree(leafY: int, newIndex: int, node: int)
      requires Linked(|ys|, left, right)
      requires newIndex == |ys| - 1 && 0 <= node < newIndex && ys[newIndex] == leafY
      requires forall k :: 0 <= k < |ys| ==> left[k] != newIndex && right[k] != newIndex
      modifies this
      ensures objects == old(objects) && ys == old(ys)
      ensures var site := LinkSite(old(ys), old(left), old(right), leafY, node);
              && left == (if site.1 then old(left)[site.0 := newIndex] else old(left))
              && right == (if site.1 then old(right) else old(right)[site.0 := newIndex])
      decreases Rank(|ys|, node)
    {
      if leafY <= ys[node] {
        if left[node] == -1 {
          left := left[node := newIndex];
        } else {
          Tree(leafY, newIndex, left[node]);
        }
      } else {
        if right[node] == -1 {
          right := right[node := newIndex];
        } else {
          Tree(leafY, newIndex, right[node]);
        }
      }
    }

    /** Emits the subtree at `node` in order: left subtree, the node, right subtree. */
    method DrawTree(node: int) returns (drawn: seq<T>)
      requires Valid() && -1 <= node < |ys|
      ensures drawn == ObjectsIn(objects, Walk(left, right, node))
      decreases Rank(|ys|, node)
    {
      if node == -1 {
        return [];
      }
      var before := DrawTree(left[node]);
      drawn := before + [objects[node]];
      var after := DrawTree(right[node]);
      drawn := drawn + after;
    }

    /** Emits every object once in depth order, then empties the scene. */
    method Draw() returns (drawn: seq<T>)
      requires Valid() && |objects| > 0
      modifies this
      ensures Valid() && objects == [] && ys == [] && left == [] && right == []
      ensures drawn == ObjectsIn(old(objects), DepthOrder(old(ys)))
    {
      drawn := DrawTree(0);
      TraversalIsDepthOrder(ys, left, right);
      objects, ys, left, right := [], [], [], [];
    }
  }
}
