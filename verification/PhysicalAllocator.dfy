/** One bitmap module of the page allocator in its imperative form: it searches and marks its own
    bitmap. */
module PhysicalAllocator {
  import opened Words
  import opened Physical

  // ---------------------------------------------------------------- alignment

  lemma Quotient(x: int, d: int, q: int)
    requires d > 0 && q * d <= x < q * d + d
    ensures x / d == q
  {
    var k := x / d - q;
    assert k >= 1 ==> k * d >= d;
    assert k <= -1 ==> k * d <= -d;
    assert k * d == x / d * d - q * d;
  }

  lemma Multiple(k: nat, d: nat)
    requires d > 0
    ensures k * d % d == 0
  {
    Quotient(k * d, d, k);
  }

  /** `AlignUp` is the least multiple at or above its argument. */
  lemma AlignUpIsLeast(x: nat, a: nat)
    requires a > 0
    ensures x <= AlignUp(x, a) < x + a && AlignUp(x, a) % a == 0
  {
    Multiple((x + a - 1) / a, a);
  }

  /** Aligning a byte address to whole pages is aligning its page number. */
  lemma AlignUpPages(p: nat, align: nat)
    requires align > 0
    ensures AlignUp(p * PAGE_SIZE, align * PAGE_SIZE) == AlignUp(p, align) * PAGE_SIZE
  {
    var q := (p + align - 1) / align;
    var d := align * PAGE_SIZE;
    assert q * align <= p + align - 1 < q * align + align;
    assert q * d == q * align * PAGE_SIZE;
    Quotient(p * PAGE_SIZE + d - 1, d, q);
  }

  /** Between two neighbouring multiples there is none. */
  lemma NextMultiple(a: nat, d: nat)
    requires d > 0 && a % d == 0
    ensures (a + d) % d == 0
    ensures forall x :: a < x < a + d ==> x % d != 0
  {
    var q := a / d;
    assert a == q * d;
    Quotient(a + d, d, q + 1);
    assert (q + 1) * d == a + d;
    forall x | a < x < a + d ensures x % d != 0 {
      Quotient(x, d, q);
    }
  }

  lemma FirstAligned(x: nat, a: nat, y: nat)
    requires a > 0 && x <= y < AlignUp(x, a)
    ensures y % a != 0
  {
    AlignUpIsLeast(x, a);
    var q := (x + a - 1) / a;
    assert AlignUp(x, a) == (q - 1) * a + a;
    Multiple(q - 1, a);
    NextMultiple((q - 1) * a, a);
  }

  /** Where the search starts: the first aligned page at or above the hint. */
  lemma StartOfSearch(m: Module, cnt: nat, align: nat)
    requires ModuleOk(m) && cnt > 0 && align > 0
    ensures var a := AlignUp(m.base + m.lastFree * PAGE_SIZE, align * PAGE_SIZE);
      && a >= m.base && (a - m.base) % PAGE_SIZE == 0
      && var i := (a - m.base) / PAGE_SIZE;
      m.lastFree <= i && (First(m) + i) % align == 0
      && forall x: nat :: x < i ==> !Candidate(m, cnt, align, x)
  {
    var h := First(m) + m.lastFree;
    AlignUpPages(h, align);
    AlignUpIsLeast(h, align);
    var i := AlignUp(h, align) - First(m);
    assert AlignUp(m.base + m.lastFree * PAGE_SIZE, align * PAGE_SIZE) == m.base + i * PAGE_SIZE;
    forall x: nat | x < i ensures !Candidate(m, cnt, align, x) {
      if m.lastFree <= x {
        FirstAligned(h, align, First(m) + x);
      }
    }
  }

  // ---------------------------------------------------------------- one module

  class PmmModule {
    const base: nat
    const bitmap: array<bool>
    var lastFree: nat

    constructor (base: nat, cnt: nat)
      ensures fresh(bitmap) && State() == Module(base, seq(cnt, _ => false), 0)
    {
      this.base := base;
      this.bitmap := new bool[cnt](_ => false);
      this.lastFree := 0;
    }

    ghost function State(): Module
      reads this, bitmap
    {
      Module(base, bitmap[..], lastFree)
    }

    method Mark(i: nat, cnt: nat)
      requires i + cnt <= bitmap.Length
      modifies bitmap
      ensures bitmap[..] == WithRun(old(bitmap[..]), i, cnt, true)
    {
      for z := 0 to cnt
        invariant bitmap[..] == WithRun(old(bitmap[..]), i, z, true)
      {
        bitmap[i + z] := true;
      }
    }

    method FindHint(from: nat)
      modifies `lastFree
      ensures lastFree == NextClear(bitmap[..], from)
    {
      lastFree := 0;
      var z := from;
      while z < bitmap.Length
        invariant lastFree == 0
        invariant NextClear(bitmap[..], from) == NextClear(bitmap[..], z)
      {
        if !bitmap[z] {
          lastFree := z;
          break;
        }
        z := z + 1;
      }
    }

    method IsClear(i: nat, cnt: nat) returns (clear: bool)
      requires i + cnt <= bitmap.Length
      ensures clear <==> ClearRun(bitmap[..], i, cnt)
    {
      for j := i to i + cnt
        invariant forall k :: i <= k < j ==> !bitmap[k]
      {
        if bitmap[j] {
          return false;
        }
      }
      return true;
    }

    /** Answers with the byte address of the lowest aligned run of `cnt` clear bits at or above
        the hint, marks that run and moves the hint; fails only if there is no such run. */
    method Alloc(cnt: nat, align: nat) returns (r: Option<nat>)
      requires ModuleOk(State()) && cnt > 0 && align > 0
      modifies `lastFree, bitmap
      ensures var (p, m) := ModuleAlloc(old(State()), cnt, align);
        State() == m && r == if p.Some? then Some(p.value * PAGE_SIZE) else None
    {
      ghost var s := State();
      StartOfSearch(s, cnt, align);
      var allocBase := AlignUp(base + lastFree * PAGE_SIZE, align * PAGE_SIZE);
      var i := (allocBase - base) / PAGE_SIZE;
      while i < bitmap.Length
        invariant State() == s
        invariant allocBase == base + i * PAGE_SIZE
        invariant s.lastFree <= i && (First(s) + i) % align == 0
        invariant forall x: nat :: x < i ==> !Candidate(s, cnt, align, x)
      {
        if bitmap.Length < i + cnt {
          FirstCandidateIsLowest(s, cnt, align, 0);
          return None;
        }
        var clear := IsClear(i, cnt);
        if clear {
          LowestIsFirst(s, cnt, align, i);
          Mark(i, cnt);
          FindHint(i + cnt - 1);
          return Some(allocBase);
        }
        allocBase := allocBase + align * PAGE_SIZE;
        NextMultiple(First(s) + i, align);
        i := i + align;
      }
      FirstCandidateIsLowest(s, cnt, align, 0);
      return None;
    }

    /** Clears `cnt` bits from the offset on; a bit past the end is outside the bitmap. */
    method Free(offset: nat, cnt: nat)
      modifies bitmap
      ensures State() == ModuleFree(old(State()), offset, cnt)
    {
      var from := DivRoundUp(offset, PAGE_SIZE);
      for i := from to from + cnt
        invariant bitmap[..] == WithRun(old(bitmap[..]), from, i - from, false)
        invariant lastFree == old(lastFree)
      {
        if i < bitmap.Length {
          bitmap[i] := false;
        }
      }
    }
  }
}
