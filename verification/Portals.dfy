/** Memory portals: the tree of portals of an address space and the search for the portal that
    resolves a page fault. */
module Portals {
  import opened Words

  /** A portal covers the closed interval from `base` to `base + limit`. */
  datatype Portal = Portal(base: nat, limit: nat, direct: bool, anon: bool, write: bool, exec: bool)

  datatype Tree = Leaf | Node(left: Tree, portal: Portal, right: Tree)

  function InOrder(t: Tree): seq<Portal> {
    match t
    case Leaf => []
    case Node(l, p, r) => InOrder(l) + [p] + InOrder(r)
  }

  predicate Contains(p: Portal, addr: nat) {
    p.base <= addr <= p.base + p.limit
  }

  /** Ordered by base, with pairwise disjoint closed intervals. */
  ghost predicate Spread(s: seq<Portal>) {
    forall i, j :: 0 <= i < j < |s| ==> s[i].base + s[i].limit < s[j].base
  }

  /** The reference: the first anonymous portal in the list that covers the address. */
  function Scan(s: seq<Portal>, addr: nat): Option<Portal> {
    if s == [] then None
    else if s[0].anon && Contains(s[0], addr) then Some(s[0])
    else Scan(s[1..], addr)
  }

  /** The descent: left or right by base, whether or not the node is anonymous. */
  function FindAnon(t: Tree, addr: nat): Option<Portal> {
    match t
    case Leaf => None
    case Node(l, p, r) =>
      if p.anon && Contains(p, addr) then Some(p)
      else if p.base > addr then FindAnon(l, addr)
      else FindAnon(r, addr)
  }

  lemma {:induction false} ScanConcat(s: seq<Portal>, t: seq<Portal>, addr: nat)
    ensures Scan(s + t, addr) == if Scan(s, addr).Some? then Scan(s, addr) else Scan(t, addr)
  {
    if s == [] {
      assert s + t == t;
    } else {
      assert (s + t)[1..] == s[1..] + t;
      ScanConcat(s[1..], t, addr);
    }
  }

  lemma {:induction false} ScanNothing(s: seq<Portal>, addr: nat)
    requires forall x :: x in s ==> !Contains(x, addr)
    ensures Scan(s, addr) == None
  {
    if s != [] {
      ScanNothing(s[1..], addr);
    }
  }

  lemma SpreadParts(l: seq<Portal>, p: Portal, r: seq<Portal>)
    requires Spread(l + [p] + r)
    ensures Spread(l) && Spread(r)
    ensures forall x :: x in l ==> x.base + x.limit < p.base
    ensures forall x :: x in r ==> p.base + p.limit < x.base
  {
    var s, k := l + [p] + r, |l| + 1;
    assert s[|l|] == p;
    forall i, j | 0 <= i < j < |l| ensures l[i].base + l[i].limit < l[j].base {
      assert s[i] == l[i] && s[j] == l[j];
    }
    forall i, j | 0 <= i < j < |r| ensures r[i].base + r[i].limit < r[j].base {
      assert s[k + i] == r[i] && s[k + j] == r[j];
    }
    forall i | 0 <= i < |l| ensures l[i].base + l[i].limit < p.base {
      assert s[i] == l[i];
    }
    forall i | 0 <= i < |r| ensures p.base + p.limit < r[i].base {
      assert s[k + i] == r[i];
    }
  }

  /** The descent agrees with the linear scan, although it skips the nodes that are not anonymous. */
  lemma {:induction false} DescentIsScan(t: Tree, addr: nat)
    requires Spread(InOrder(t))
    ensures FindAnon(t, addr) == Scan(InOrder(t), addr)
  {
    match t
    case Leaf =>
    case Node(l, p, r) =>
      var a, c := InOrder(l), InOrder(r);
      SpreadParts(a, p, c);
      assert a + [p] + c == a + ([p] + c);
      ScanConcat(a, [p] + c, addr);
      ScanConcat([p], c, addr);
      assert Scan([p], addr) == if p.anon && Contains(p, addr) then Some(p) else None;
      DescentIsScan(l, addr);
      DescentIsScan(r, addr);
      if p.base > addr {
        ScanNothing(c, addr);
      } else {
        ScanNothing(a, addr);
      }
  }

  lemma {:induction false} ScanFinds(s: seq<Portal>, addr: nat)
    ensures match Scan(s, addr)
      case None => forall p :: p in s ==> !(p.anon && Contains(p, addr))
      case Some(p) => p in s && p.anon && Contains(p, addr)
  {
    if s != [] {
      ScanFinds(s[1..], addr);
    }
  }

  /** The descent reaches an anonymous portal exactly when one covers the address, and it is the
      only portal of any kind that does. */
  lemma DescentIsExact(t: Tree, addr: nat)
    requires Spread(InOrder(t))
    ensures match FindAnon(t, addr)
      case None => forall p :: p in InOrder(t) ==> !(p.anon && Contains(p, addr))
      case Some(p) =>
        && p in InOrder(t) && p.anon && Contains(p, addr)
        && forall r :: r in InOrder(t) && Contains(r, addr) ==> r == p
  {
    DescentIsScan(t, addr);
    ScanFinds(InOrder(t), addr);
  }

  // ---------------------------------------------------------------- touching portals

  /** The addresses that a portal was asked for: its end is not one of them. */
  predicate Owns(p: Portal, addr: nat) {
    p.base <= addr < p.base + p.limit
  }

  /** Ordered by base, none empty, with half-open intervals that may touch. */
  ghost predicate Packed(s: seq<Portal>) {
    && (forall i :: 0 <= i < |s| ==> s[i].limit > 0)
    && (forall i, j :: 0 <= i < j < |s| ==> s[i].base + s[i].limit <= s[j].base)
  }

  /** The anonymous portal that an address belongs to. */
  function Owner(s: seq<Portal>, addr: nat): Option<Portal> {
    if s == [] then None
    else if s[0].anon && Owns(s[0], addr) then Some(s[0])
    else Owner(s[1..], addr)
  }

  /** Portal `q` lies above portal `p` in the tree. */
  ghost predicate Above(t: Tree, q: Portal, p: Portal) {
    match t
    case Leaf => false
    case Node(l, x, r) => (x == q && (p in InOrder(l) || p in InOrder(r))) || Above(l, q, p) || Above(r, q, p)
  }

  /** A portal that starts at the address lies above `p`. */
  ghost predicate Shielded(t: Tree, addr: nat, p: Portal) {
    exists q: Portal :: q.base == addr && Above(t, q, p)
  }

  /** Every anonymous portal that ends at the address is shielded. */
  ghost predicate AllShielded(t: Tree, addr: nat) {
    forall p :: p in InOrder(t) && p.anon && p.base + p.limit == addr ==> Shielded(t, addr, p)
  }

  lemma PackedParts(l: seq<Portal>, p: Portal, r: seq<Portal>)
    requires Packed(l + [p] + r)
    ensures Packed(l) && Packed(r) && p.limit > 0
    ensures forall x :: x in l ==> x.limit > 0 && x.base + x.limit <= p.base
    ensures forall x :: x in r ==> x.limit > 0 && p.base + p.limit <= x.base
  {
    var s, k := l + [p] + r, |l| + 1;
    assert s[|l|] == p;
    forall i, j | 0 <= i < j < |l| ensures l[i].base + l[i].limit <= l[j].base {
      assert s[i] == l[i] && s[j] == l[j];
    }
    forall i, j | 0 <= i < j < |r| ensures r[i].base + r[i].limit <= r[j].base {
      assert s[k + i] == r[i] && s[k + j] == r[j];
    }
    forall i | 0 <= i < |l| ensures l[i].limit > 0 && l[i].base + l[i].limit <= p.base {
      assert s[i] == l[i];
    }
    forall i | 0 <= i < |r| ensures r[i].limit > 0 && p.base + p.limit <= r[i].base {
      assert s[k + i] == r[i];
    }
  }

  lemma {:induction false} OwnerConcat(s: seq<Portal>, t: seq<Portal>, addr: nat)
    ensures Owner(s + t, addr) == if Owner(s, addr).Some? then Owner(s, addr) else Owner(t, addr)
  {
    if s == [] {
      assert s + t == t;
    } else {
      assert (s + t)[1..] == s[1..] + t;
      OwnerConcat(s[1..], t, addr);
    }
  }

  lemma {:induction false} OwnerNothing(s: seq<Portal>, addr: nat)
    requires forall x :: x in s ==> !Owns(x, addr)
    ensures Owner(s, addr) == None
  {
    if s != [] {
      OwnerNothing(s[1..], addr);
    }
  }

  /** The owner in a tree is looked for on one side of its root only. */
  lemma OwnerInTree(l: Tree, x: Portal, r: Tree, addr: nat)
    requires Packed(InOrder(Node(l, x, r)))
    ensures Owner(InOrder(Node(l, x, r)), addr) ==
      if x.anon && Owns(x, addr) then Some(x)
      else if x.base > addr then Owner(InOrder(l), addr)
      else Owner(InOrder(r), addr)
  {
    var a, c := InOrder(l), InOrder(r);
    PackedParts(a, x, c);
    hide Packed;
    assert a + [x] + c == a + ([x] + c);
    OwnerConcat(a, [x] + c, addr);
    OwnerConcat([x], c, addr);
    assert [x][1..] == [] && Owner([x], addr) == if x.anon && Owns(x, addr) then Some(x) else None;
    if x.base > addr {
      OwnerNothing(c, addr);
    } else {
      OwnerNothing(a, addr);
    }
  }

  lemma {:induction false} AboveInTree(t: Tree, q: Portal, p: Portal)
    requires Above(t, q, p)
    ensures q in InOrder(t) && p in InOrder(t)
  {
    var Node(l, x, r) := t;
    if Above(l, q, p) {
      AboveInTree(l, q, p);
    } else if Above(r, q, p) {
      AboveInTree(r, q, p);
    }
  }

  /** Below a node that does not start at the address, shielding is a matter of the subtree. */
  lemma ShieldedBelow(l: Tree, x: Portal, r: Tree, addr: nat, p: Portal)
    requires Packed(InOrder(Node(l, x, r))) && p.base + p.limit == addr && x.base != addr
    ensures p in InOrder(l) ==> (Shielded(Node(l, x, r), addr, p) <==> Shielded(l, addr, p))
    ensures p in InOrder(r) ==> (Shielded(Node(l, x, r), addr, p) <==> Shielded(r, addr, p))
  {
    var t := Node(l, x, r);
    PackedParts(InOrder(l), x, InOrder(r));
    hide Packed;
    if q: Portal :| q.base == addr && Above(t, q, p) {
      if Above(l, q, p) {
        AboveInTree(l, q, p);
      }
      if Above(r, q, p) {
        AboveInTree(r, q, p);
      }
    }
    if q: Portal :| q.base == addr && Above(l, q, p) {
      assert Above(t, q, p);
    }
    if q: Portal :| q.base == addr && Above(r, q, p) {
      assert Above(t, q, p);
    }
  }

  lemma {:induction false} OwnerOwns(s: seq<Portal>, addr: nat)
    ensures Owner(s, addr).Some? ==> Owns(Owner(s, addr).value, addr)
  {
    if s != [] {
      OwnerOwns(s[1..], addr);
    }
  }

  /** The root of a packed tree is shielded from nothing. */
  lemma RootUnshielded(l: Tree, x: Portal, r: Tree, addr: nat)
    requires Packed(InOrder(Node(l, x, r)))
    ensures !Shielded(Node(l, x, r), addr, x)
  {
    PackedParts(InOrder(l), x, InOrder(r));
    hide Packed;
    if q: Portal :| q.base == addr && Above(Node(l, x, r), q, x) {
      if Above(l, q, x) {
        AboveInTree(l, q, x);
      }
      if Above(r, q, x) {
        AboveInTree(r, q, x);
      }
    }
  }

  lemma RootShields(l: Tree, x: Portal, r: Tree, addr: nat, p: Portal)
    requires x.base == addr && p in InOrder(l)
    ensures Shielded(Node(l, x, r), addr, p)
  {
    assert Above(Node(l, x, r), x, p);
  }

  /** Shielding in a tree whose root does not end at the address as an anonymous portal. */
  lemma ShieldedInTree(l: Tree, x: Portal, r: Tree, addr: nat)
    requires Packed(InOrder(Node(l, x, r))) && !(x.anon && x.base + x.limit == addr)
    ensures AllShielded(Node(l, x, r), addr) <==>
      x.base == addr || (if x.base > addr then AllShielded(l, addr) else AllShielded(r, addr))
  {
    var t := Node(l, x, r);
    PackedParts(InOrder(l), x, InOrder(r));
    hide Packed, Shielded;
    forall p | p in InOrder(t) && p.anon && p.base + p.limit == addr
      ensures p in InOrder(l) || p in InOrder(r)
      ensures p in InOrder(l) ==> addr <= x.base
      ensures p in InOrder(r) ==> x.base < addr
    {
    }
    forall p | p in InOrder(t) && p.base + p.limit == addr
      ensures x.base == addr && p in InOrder(l) ==> Shielded(t, addr, p)
      ensures x.base != addr && p in InOrder(l) ==> (Shielded(t, addr, p) <==> Shielded(l, addr, p))
      ensures x.base != addr && p in InOrder(r) ==> (Shielded(t, addr, p) <==> Shielded(r, addr, p))
    {
      if x.base != addr {
        ShieldedBelow(l, x, r, addr, p);
      } else if p in InOrder(l) {
        RootShields(l, x, r, addr, p);
      }
    }
  }

  /** On portals that may touch, the descent finds the anonymous portal that the address belongs to,
      or none if there is none, if and only if every anonymous portal that ends at the address has
      the portal that starts there above it in the tree. */
  lemma {:induction false} DescentFindsOwner(t: Tree, addr: nat)
    requires Packed(InOrder(t))
    ensures FindAnon(t, addr) == Owner(InOrder(t), addr) <==> AllShielded(t, addr)
  {
    hide Packed, Shielded;
    match t
    case Leaf =>
    case Node(l, x, r) =>
      PackedParts(InOrder(l), x, InOrder(r));
      OwnerInTree(l, x, r, addr);
      if x.anon && x.base + x.limit == addr {
        RootUnshielded(l, x, r, addr);
        OwnerOwns(InOrder(t), addr);
        assert !Owns(x, addr) && x in InOrder(t);
      } else {
        ShieldedInTree(l, x, r, addr);
        DescentFindsOwner(l, addr);
        DescentFindsOwner(r, addr);
        assert x.base <= addr < x.base + x.limit ==> AllShielded(r, addr);
      }
  }

  /** Two touching anonymous portals, the first one on top: the first address of the second is taken
      for the first one's. */
  lemma TouchingPortalsClash()
    ensures var a := Portal(0x1000, 0x1000, false, true, false, false);
      var b := Portal(0x2000, 0x1000, false, true, true, false);
      var t := Node(Leaf, a, Node(Leaf, b, Leaf));
      Packed(InOrder(t)) && FindAnon(t, 0x2000) == Some(a) && Owner(InOrder(t), 0x2000) == Some(b)
  {
    var a, b := Portal(0x1000, 0x1000, false, true, false, false), Portal(0x2000, 0x1000, false, true, true, false);
    assert InOrder(Node(Leaf, b, Leaf)) == [b];
    assert InOrder(Node(Leaf, a, Node(Leaf, b, Leaf))) == [a, b] && [a, b][1..] == [b];
  }

  // ---------------------------------------------------------------- insertion

  function Insert(t: Tree, p: Portal): Tree {
    match t
    case Leaf => Node(Leaf, p, Leaf)
    case Node(l, x, r) => if p.base < x.base then Node(Insert(l, p), x, r) else Node(l, x, Insert(r, p))
  }

  ghost predicate Clear(p: Portal, q: Portal) {
    p.base + p.limit < q.base || q.base + q.limit < p.base
  }

  lemma SpreadJoin(l: seq<Portal>, p: Portal, r: seq<Portal>)
    requires Spread(l) && Spread(r)
    requires forall x :: x in l ==> x.base + x.limit < p.base
    requires forall x :: x in r ==> p.base + p.limit < x.base
    ensures Spread(l + [p] + r)
  {
    var s := l + [p] + r;
    forall i, j | 0 <= i < j < |s| ensures s[i].base + s[i].limit < s[j].base {
      assert i < |l| ==> s[i] in l;
      assert j > |l| ==> s[j] in r;
      if i < |l| < j {
        assert s[i].base + s[i].limit < p.base <= p.base + p.limit < s[j].base;
      }
    }
  }

  lemma {:induction false} InsertAdds(t: Tree, p: Portal)
    ensures forall x :: x in InOrder(Insert(t, p)) <==> x == p || x in InOrder(t)
  {
    match t
    case Leaf =>
    case Node(l, _, r) =>
      InsertAdds(l, p);
      InsertAdds(r, p);
  }

  /** The new portal lands at its place in the order, which stays spread if the portal is apart
      from all others. */
  lemma {:induction false} InsertKeepsSpread(t: Tree, p: Portal)
    requires Spread(InOrder(t)) && forall x :: x in InOrder(t) ==> Clear(p, x)
    ensures Spread(InOrder(Insert(t, p)))
    ensures forall x :: x in InOrder(Insert(t, p)) <==> x == p || x in InOrder(t)
  {
    InsertAdds(t, p);
    match t
    case Leaf =>
    case Node(l, x, r) =>
      var a, c := InOrder(l), InOrder(r);
      SpreadParts(a, x, c);
      hide Spread;
      assert x in InOrder(t);
      if p.base < x.base {
        assert forall y :: y in a ==> y in InOrder(t);
        InsertKeepsSpread(l, p);
        SpreadJoin(InOrder(Insert(l, p)), x, c);
      } else {
        assert forall y :: y in c ==> y in InOrder(t);
        InsertKeepsSpread(r, p);
        SpreadJoin(a, x, InOrder(Insert(r, p)));
      }
  }
}
