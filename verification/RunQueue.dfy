/** The user-space scheduler's choice from its red-black tree of threads. */
module RunQueue {
  import opened Words

  datatype Thread = Thread(cid: int, vruntime: int)

  datatype Color = Red | Black

  datatype Tree = Nil | Node(color: Color, left: Tree, thread: Thread, right: Tree)

  function InOrder(t: Tree): (r: seq<Thread>)
    ensures r == [] <==> t.Nil?
  {
    match t
    case Nil => []
    case Node(_, l, x, r) => InOrder(l) + [x] + InOrder(r)
  }

  ghost predicate Sorted(s: seq<Thread>) {
    forall i, j :: 0 <= i < j < |s| ==> s[i].vruntime <= s[j].vruntime
  }

  predicate IsRed(t: Tree) {
    t.Node? && t.color == Red
  }

  /** The number of black nodes on the way down, taken to the left. */
  function BlackHeight(t: Tree): nat {
    match t
    case Nil => 0
    case Node(c, l, _, _) => BlackHeight(l) + if c == Black then 1 else 0
  }

  /** No red node has a red child, and all ways down have equally many black nodes. */
  predicate RedBlack(t: Tree) {
    match t
    case Nil => true
    case Node(c, l, _, r) =>
      && RedBlack(l) && RedBlack(r) && BlackHeight(l) == BlackHeight(r)
      && (c == Red ==> !IsRed(l) && !IsRed(r))
  }

  /** The descent: towards the child with the smaller virtual runtime, as far as it goes. */
  function Pick(t: Tree): Option<Thread> {
    match t
    case Nil => None
    case Node(_, l, x, r) =>
      if l.Node? && r.Node? then (if l.thread.vruntime > r.thread.vruntime then Pick(r) else Pick(l))
      else if l.Node? then Pick(l)
      else if r.Node? then Pick(r)
      else Some(x)
  }

  lemma NoBlack(t: Tree)
    requires BlackHeight(t) == 0
    ensures t.Nil? || IsRed(t)
  {
  }

  /** A red-black tree beside an empty one is empty or a single red node. */
  lemma LoneChild(t: Tree)
    requires RedBlack(t) && BlackHeight(t) == 0
    ensures t.Nil? || (t.left.Nil? && t.right.Nil? && t.color == Red)
  {
    if t.Node? {
      assert BlackHeight(t.left) == 0 && BlackHeight(t.right) == 0;
      NoBlack(t.left);
      NoBlack(t.right);
    }
  }

  lemma SortedParts(l: seq<Thread>, x: Thread, r: seq<Thread>)
    requires Sorted(l + [x] + r)
    ensures Sorted(l) && Sorted(r)
    ensures forall y :: y in l ==> y.vruntime <= x.vruntime
    ensures forall y :: y in r ==> x.vruntime <= y.vruntime
  {
    var s, k := l + [x] + r, |l| + 1;
    assert s[|l|] == x;
    forall i, j | 0 <= i < j < |l| ensures l[i].vruntime <= l[j].vruntime {
      assert s[i] == l[i] && s[j] == l[j];
    }
    forall i, j | 0 <= i < j < |r| ensures r[i].vruntime <= r[j].vruntime {
      assert s[k + i] == r[i] && s[k + j] == r[j];
    }
    forall i | 0 <= i < |l| ensures l[i].vruntime <= x.vruntime {
      assert s[i] == l[i];
    }
    forall i | 0 <= i < |r| ensures x.vruntime <= r[i].vruntime {
      assert s[k + i] == r[i];
    }
  }

  predicate LeftmostHasRight(t: Tree) {
    t.Node? && if t.left.Node? then LeftmostHasRight(t.left) else t.right.Node?
  }

  lemma {:induction false} LeftmostCounts(t: Tree)
    requires LeftmostHasRight(t)
    ensures |InOrder(t)| > 1
  {
    if t.left.Node? {
      LeftmostCounts(t.left);
    } else {
      assert InOrder(t.right) != [];
    }
  }

  /** On a red-black tree ordered by virtual runtime the descent ends at the first or the second
      thread in that order: at the second exactly when the leftmost node has a right child. */
  lemma {:induction false} PickIsFirstOrSecond(t: Tree)
    requires t.Node? && RedBlack(t) && Sorted(InOrder(t))
    ensures Pick(t).Some?
    ensures Pick(t).value == InOrder(t)[0] || (|InOrder(t)| > 1 && Pick(t).value == InOrder(t)[1])
    ensures Pick(t) == if LeftmostHasRight(t) && |InOrder(t)| > 1 then Some(InOrder(t)[1]) else Some(InOrder(t)[0])
  {
    var l, x, r := t.left, t.thread, t.right;
    SortedParts(InOrder(l), x, InOrder(r));
    if l.Node? {
      assert l.thread in InOrder(l);
      assert r.Node? ==> r.thread in InOrder(r);
      PickIsFirstOrSecond(l);
      if LeftmostHasRight(l) {
        LeftmostCounts(l);
      }
    } else if r.Node? {
      LoneChild(r);
      assert InOrder(t) == [x] + [r.thread];
    }
  }

  /** So at most one thread is ahead of the chosen one. */
  lemma AtMostOneAhead(t: Tree)
    requires t.Node? && RedBlack(t) && Sorted(InOrder(t))
    ensures Pick(t).Some? && forall i :: 1 <= i < |InOrder(t)| ==> Pick(t).value.vruntime <= InOrder(t)[i].vruntime
  {
    PickIsFirstOrSecond(t);
  }

  /** Order alone would not do: on a tree that leans to the right the last thread is chosen. */
  lemma OrderIsNotEnough()
    ensures var c := Node(Black, Nil, Thread(3, 3), Nil);
      var t := Node(Black, Nil, Thread(1, 1), Node(Black, Nil, Thread(2, 2), c));
      Sorted(InOrder(t)) && !RedBlack(t) && Pick(t) == Some(Thread(3, 3))
  {
    var c := Node(Black, Nil, Thread(3, 3), Nil);
    var b := Node(Black, Nil, Thread(2, 2), c);
    var a := Node(Black, Nil, Thread(1, 1), b);
    assert InOrder(c) == [Thread(3, 3)];
    assert InOrder(b) == [Thread(2, 2), Thread(3, 3)];
    assert InOrder(a) == [Thread(1, 1), Thread(2, 2), Thread(3, 3)];
    assert BlackHeight(b) == 1;
  }

  /** The loop of the scheduling server; an empty tree yields nothing. */
  method TraverseAndQueue(tree: Tree) returns (r: Option<Thread>)
    ensures r == Pick(tree)
  {
    var root := tree;
    var enqueue := root;
    while root.Node?
      invariant enqueue == root && Pick(root) == Pick(tree)
      decreases root
    {
      if root.left.Node? && root.right.Node? {
        if root.left.thread.vruntime > root.right.thread.vruntime {
          root := root.right;
        } else {
          root := root.left;
        }
      } else if root.left.Node? {
        root := root.left;
      } else if root.right.Node? {
        root := root.right;
      } else {
        break;
      }
      enqueue := root;
    }
    r := if enqueue.Node? then Some(enqueue.thread) else None;
  }
}
