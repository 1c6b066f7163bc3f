/** Trees of portals that may touch, as a sequence of requests builds them: whether the descent finds the
    right portal is a matter of which of two touching ones was requested first. */
module PortalOrder {
  import opened Words
  import opened Portals

  /** Half-open intervals without a common address. */
  ghost predicate Disjoint(p: Portal, x: Portal) {
    p.base + p.limit <= x.base || x.base + x.limit <= p.base
  }

  /** Requests for non-empty intervals without common addresses, in the order in which they came. */
  ghost predicate Requests(ps: seq<Portal>) {
    && (forall i :: 0 <= i < |ps| ==> ps[i].limit > 0)
    && (forall i, j :: 0 <= i < j < |ps| ==> Disjoint(ps[j], ps[i]))
  }

  function Build(ps: seq<Portal>): Tree
    decreases |ps|
  {
    if ps == [] then Leaf else Insert(Build(ps[..|ps| - 1]), ps[|ps| - 1])
  }

  // ---------------------------------------------------------------- what the tree holds

  lemma PackedJoin(l: seq<Portal>, p: Portal, r: seq<Portal>)
    requires Packed(l) && Packed(r) && p.limit > 0
    requires forall x :: x in l ==> x.base + x.limit <= p.base
    requires forall x :: x in r ==> p.base + p.limit <= x.base
    ensures Packed(l + [p] + r)
  {
    var s := l + [p] + r;
    forall i, j | 0 <= i < j < |s| ensures s[i].base + s[i].limit <= s[j].base {
      assert i < |l| ==> s[i] in l;
      assert j > |l| ==> s[j] in r;
      if i < |l| < j {
        assert s[i].base + s[i].limit <= p.base <= p.base + p.limit <= s[j].base;
      }
    }
  }

  lemma {:induction false} InsertKeepsPacked(t: Tree, p: Portal)
    requires Packed(InOrder(t)) && p.limit > 0 && forall x :: x in InOrder(t) ==> Disjoint(p, x)
    ensures Packed(InOrder(Insert(t, p)))
  {
    match t
    case Leaf =>
    case Node(l, x, r) =>
      var a, c := InOrder(l), InOrder(r);
      PackedParts(a, x, c);
      hide Packed;
      assert x in InOrder(t);
      if p.base < x.base {
        assert forall y :: y in a ==> y in InOrder(t);
        InsertKeepsPacked(l, p);
        InsertAdds(l, p);
        PackedJoin(InOrder(Insert(l, p)), x, c);
      } else {
        assert forall y :: y in c ==> y in InOrder(t);
        InsertKeepsPacked(r, p);
        InsertAdds(r, p);
        PackedJoin(a, x, InOrder(Insert(r, p)));
      }
  }

  /** The tree holds the requests and nothing else, in order. */
  lemma {:induction false} BuildHolds(ps: seq<Portal>)
    requires Requests(ps)
    ensures Packed(InOrder(Build(ps))) && forall x :: x in InOrder(Build(ps)) <==> x in ps
    decreases |ps|
  {
    if ps != [] {
      var front, p := ps[..|ps| - 1], ps[|ps| - 1];
      BuildHolds(front);
      hide Packed;
      assert ps == front + [p];
      InsertAdds(Build(front), p);
      InsertKeepsPacked(Build(front), p);
    }
  }

  // ---------------------------------------------------------------- who lies above whom

  /** A new portal lies below the one that starts where it ends. */
  lemma {:induction false} InsertedBelow(t: Tree, p: Portal, q: Portal)
    requires Packed(InOrder(t)) && p.limit > 0 && forall x :: x in InOrder(t) ==> Disjoint(p, x)
    requires q in InOrder(t) && q.base == p.base + p.limit
    ensures Above(Insert(t, p), q, p)
  {
    var Node(l, x, r) := t;
    PackedParts(InOrder(l), x, InOrder(r));
    hide Packed;
    assert x in InOrder(t);
    InsertAdds(l, p);
    InsertAdds(r, p);
    assert forall y :: y in InOrder(l) || y in InOrder(r) ==> y in InOrder(t);
    if x != q {
      if q in InOrder(l) {
        InsertedBelow(l, p, q);
      } else {
        InsertedBelow(r, p, q);
      }
    }
  }

  /** A new portal changes nothing between the others, and lies above none of them. */
  lemma {:induction false} InsertKeepsAbove(t: Tree, p: Portal, q: Portal, x: Portal)
    requires p !in InOrder(t) && x != p
    ensures Above(Insert(t, p), q, x) <==> Above(t, q, x)
  {
    match t
    case Leaf =>
    case Node(l, y, r) =>
      assert forall z :: z in InOrder(l) || z in InOrder(r) ==> z in InOrder(t);
      InsertAdds(l, p);
      InsertAdds(r, p);
      InsertKeepsAbove(l, p, q, x);
      InsertKeepsAbove(r, p, q, x);
  }

  ghost predicate StartsEarlier(ps: seq<Portal>, addr: nat, i: nat) {
    exists j :: 0 <= j < i && j < |ps| && ps[j].base == addr
  }

  lemma ShieldedKept(t: Tree, p: Portal, addr: nat, x: Portal)
    requires p !in InOrder(t) && x != p
    ensures Shielded(Insert(t, p), addr, x) <==> Shielded(t, addr, x)
  {
    hide Insert, Above;
    if q: Portal :| q.base == addr && Above(t, q, x) {
      InsertKeepsAbove(t, p, q, x);
    }
    if q: Portal :| q.base == addr && Above(Insert(t, p), q, x) {
      InsertKeepsAbove(t, p, q, x);
    }
  }

  lemma LastShielded(front: seq<Portal>, p: Portal, addr: nat)
    requires Requests(front + [p]) && p.base + p.limit == addr
    ensures Shielded(Build(front + [p]), addr, p) <==> StartsEarlier(front + [p], addr, |front|)
  {
    var ps := front + [p];
    assert ps[..|front|] == front && ps[|front|] == p;
    assert Requests(front) by {
      forall i, j | 0 <= i < j < |front| ensures Disjoint(front[j], front[i]) {
        assert ps[i] == front[i] && ps[j] == front[j];
      }
      forall i | 0 <= i < |front| ensures front[i].limit > 0 {
        assert ps[i] == front[i];
      }
    }
    BuildHolds(front);
    var t := Build(front);
    forall x | x in InOrder(t) ensures Disjoint(p, x) {
      var i :| 0 <= i < |front| && front[i] == x;
      assert ps[i] == x;
    }
    hide Packed, Insert, Above;
    InsertAdds(t, p);
    if StartsEarlier(ps, addr, |front|) {
      var j :| 0 <= j < |front| && ps[j].base == addr;
      InsertedBelow(t, p, ps[j]);
    }
    if q: Portal :| q.base == addr && Above(Insert(t, p), q, p) {
      AboveInTree(Insert(t, p), q, p);
      assert q in front;
      var j :| 0 <= j < |front| && front[j] == q;
      assert ps[j].base == addr;
    }
  }

  lemma FrontOf(ps: seq<Portal>)
    requires Requests(ps) && ps != []
    ensures Requests(ps[..|ps| - 1]) && ps[|ps| - 1] !in ps[..|ps| - 1]
  {
  }

  /** A portal is shielded at its end exactly if the portal that starts there was requested before it. */
  lemma {:induction false} ShieldedIffEarlier(ps: seq<Portal>, addr: nat, i: nat)
    requires Requests(ps) && i < |ps| && ps[i].base + ps[i].limit == addr
    ensures Shielded(Build(ps), addr, ps[i]) <==> StartsEarlier(ps, addr, i)
    decreases |ps|
  {
    var front, p := ps[..|ps| - 1], ps[|ps| - 1];
    assert ps == front + [p];
    FrontOf(ps);
    if i == |ps| - 1 {
      LastShielded(front, p, addr);
    } else {
      hide Shielded, Requests, Insert;
      assert front[i] == ps[i];
      ShieldedIffEarlier(front, addr, i);
      BuildHolds(front);
      assert ps[i] in front;
      ShieldedKept(Build(front), p, addr, ps[i]);
      assert StartsEarlier(front, addr, i) <==> StartsEarlier(ps, addr, i);
    }
  }

  // ---------------------------------------------------------------- the descent

  /** The portal found for an address is the anonymous one that the address belongs to; none is found
      if there is none. */
  ghost predicate FoundRight(ps: seq<Portal>, found: Option<Portal>, addr: nat) {
    match found
    case Some(x) => x in ps && x.anon && Owns(x, addr)
    case None => forall x :: x in ps && x.anon ==> !Owns(x, addr)
  }

  /** Every anonymous portal that ends at the address was requested after the one that starts there. */
  ghost predicate EndsAreLater(ps: seq<Portal>, addr: nat) {
    forall i: nat :: i < |ps| && ps[i].anon && ps[i].base + ps[i].limit == addr ==> StartsEarlier(ps, addr, i)
  }

  lemma {:induction false} OwnerIsOwner(s: seq<Portal>, addr: nat)
    ensures FoundRight(s, Owner(s, addr), addr)
  {
    if s != [] {
      OwnerIsOwner(s[1..], addr);
    }
  }

  lemma OneOwner(ps: seq<Portal>, i: nat, j: nat, addr: nat)
    requires Requests(ps) && i < |ps| && j < |ps|
    ensures Owns(ps[i], addr) && Owns(ps[j], addr) ==> i == j
  {
    assert i < j ==> Disjoint(ps[j], ps[i]);
    assert j < i ==> Disjoint(ps[i], ps[j]);
  }

  /** Among non-empty intervals without common addresses there is one right answer. */
  lemma OneRightAnswer(ps: seq<Portal>, a: Option<Portal>, b: Option<Portal>, addr: nat)
    requires Requests(ps) && FoundRight(ps, a, addr) && FoundRight(ps, b, addr)
    ensures a == b
  {
    if a.Some? && b.Some? {
      var i: nat :| i < |ps| && ps[i] == a.value;
      var j: nat :| j < |ps| && ps[j] == b.value;
      OneOwner(ps, i, j, addr);
    }
  }

  lemma EarlierIsShielded(ps: seq<Portal>, addr: nat)
    requires Requests(ps)
    ensures EndsAreLater(ps, addr) <==> AllShielded(Build(ps), addr)
  {
    hide Shielded, Build, Requests, StartsEarlier;
    BuildHolds(ps);
    forall i: nat | i < |ps| && ps[i].base + ps[i].limit == addr
      ensures Shielded(Build(ps), addr, ps[i]) <==> StartsEarlier(ps, addr, i)
    {
      ShieldedIffEarlier(ps, addr, i);
    }
    if EndsAreLater(ps, addr) {
      forall p | p in InOrder(Build(ps)) && p.anon && p.base + p.limit == addr ensures Shielded(Build(ps), addr, p) {
        assert p in ps;
        var i: nat :| i < |ps| && ps[i] == p;
      }
    } else {
      var i: nat :| i < |ps| && ps[i].anon && ps[i].base + ps[i].limit == addr && !StartsEarlier(ps, addr, i);
      assert ps[i] in ps && ps[i] in InOrder(Build(ps)) && !Shielded(Build(ps), addr, ps[i]);
    }
  }

  lemma SameHeld(ps: seq<Portal>, s: seq<Portal>, found: Option<Portal>, addr: nat)
    requires forall x :: x in s <==> x in ps
    ensures FoundRight(s, found, addr) <==> FoundRight(ps, found, addr)
  {
  }

  /** In a tree built by any sequence of requests the descent finds the right portal for an address if
      and only if every anonymous portal that ends there was requested after the one that starts
      there. */
  lemma DescentByRequests(ps: seq<Portal>, addr: nat)
    requires Requests(ps)
    ensures FoundRight(ps, FindAnon(Build(ps), addr), addr) <==> EndsAreLater(ps, addr)
  {
    hide Requests, Build, FindAnon, EndsAreLater, AllShielded, Owner, FoundRight, Packed;
    var t := Build(ps);
    BuildHolds(ps);
    EarlierIsShielded(ps, addr);
    DescentFindsOwner(t, addr);
    OwnerIsOwner(InOrder(t), addr);
    SameHeld(ps, InOrder(t), Owner(InOrder(t), addr), addr);
    if FoundRight(ps, FindAnon(t, addr), addr) {
      OneRightAnswer(ps, FindAnon(t, addr), Owner(InOrder(t), addr), addr);
    }
  }
}
