/** The nine-bit table indices that the paging code cuts out of a virtual address. */
module TableIndices {
  import opened PageTables

  datatype Indices = Indices(pml5: nat, pml4: nat, pml3: nat, pml2: nat, pml1: nat)

  /** `(vaddr >> n) & 0x1ff` for the five levels. */
  function ComputeTableIndices(vaddr: nat): (r: Indices)
    ensures r.pml5 < 512 && r.pml4 < 512 && r.pml3 < 512 && r.pml2 < 512 && r.pml1 < 512
  {
    Indices(vaddr / 0x1_0000_0000_0000 % 512,
            vaddr / 0x80_0000_0000 % 512,
            vaddr / 0x4000_0000 % 512,
            vaddr / 0x20_0000 % 512,
            vaddr / 0x1000 % 512)
  }

  /** The part of the page number that the tables of a depth look at: 36 or 45 bits. */
  function PageNumber(depth: nat, vaddr: nat): nat {
    vaddr / 0x1000 % (if depth == 4 then 0x10_0000_0000 else 0x2000_0000_0000)
  }

  /** Dividing by 512 again and again is dividing by the larger powers of two at once. */
  lemma Shifts(v: nat)
    ensures v / 0x20_0000 == v / 0x1000 / 512
    ensures v / 0x4000_0000 == v / 0x20_0000 / 512
    ensures v / 0x80_0000_0000 == v / 0x4000_0000 / 512
    ensures v / 0x1_0000_0000_0000 == v / 0x80_0000_0000 / 512
  {
  }

  /** The number with the given digits, most significant first. */
  function FromDigits(d5: nat, d4: nat, d3: nat, d2: nat, d1: nat): nat {
    (((d5 * 512 + d4) * 512 + d3) * 512 + d2) * 512 + d1
  }

  lemma DigitsOf(d5: nat, d4: nat, d3: nat, d2: nat, d1: nat)
    requires d5 < 512 && d4 < 512 && d3 < 512 && d2 < 512 && d1 < 512
    ensures var n := FromDigits(d5, d4, d3, d2, d1);
      && Index(1, n) == d1 && Index(2, n) == d2 && Index(3, n) == d3 && Index(4, n) == d4 && Index(5, n) == d5
      && Key(4, n) == d5 && Key(5, n) == 0
  {
    var n := FromDigits(d5, d4, d3, d2, d1);
    KeyValues(n);
    assert n / 512 == ((d5 * 512 + d4) * 512 + d3) * 512 + d2;
    assert n / 512 / 512 == (d5 * 512 + d4) * 512 + d3;
    assert n / 512 / 512 / 512 == d5 * 512 + d4;
  }

  lemma PageFromDigits(v: nat)
    ensures var ix := ComputeTableIndices(v);
      v / 0x1000 == FromDigits(v / 0x1_0000_0000_0000, ix.pml4, ix.pml3, ix.pml2, ix.pml1)
  {
    Shifts(v);
    var n, n1, n2, n3, n4 := v / 0x1000, v / 0x20_0000, v / 0x4000_0000, v / 0x80_0000_0000, v / 0x1_0000_0000_0000;
    assert n == n1 * 512 + n % 512;
    assert n1 == n2 * 512 + n1 % 512;
    assert n2 == n3 * 512 + n2 % 512;
    assert n3 == n4 * 512 + n3 % 512;
  }

  lemma LowFour(d5: nat, low: nat)
    requires low < 0x10_0000_0000
    ensures (0x10_0000_0000 * d5 + low) % 0x10_0000_0000 == low
  {
  }

  lemma LowFive(d5: nat, low: nat)
    requires low < 0x10_0000_0000
    ensures (0x10_0000_0000 * d5 + low) % 0x2000_0000_0000 == 0x10_0000_0000 * (d5 % 512) + low
  {
    assert 0x10_0000_0000 * d5 == 0x2000_0000_0000 * (d5 / 512) + 0x10_0000_0000 * (d5 % 512);
  }

  lemma LowDigits(d5: nat, d4: nat, d3: nat, d2: nat, d1: nat)
    requires d4 < 512 && d3 < 512 && d2 < 512 && d1 < 512
    ensures FromDigits(d5, d4, d3, d2, d1) % 0x10_0000_0000 == FromDigits(0, d4, d3, d2, d1)
    ensures FromDigits(d5, d4, d3, d2, d1) % 0x2000_0000_0000 == FromDigits(d5 % 512, d4, d3, d2, d1)
  {
    var low := FromDigits(0, d4, d3, d2, d1);
    LowFour(d5, low);
    LowFive(d5, low);
  }

  lemma PageNumberDigits(v: nat)
    ensures var ix := ComputeTableIndices(v);
      && PageNumber(5, v) == FromDigits(ix.pml5, ix.pml4, ix.pml3, ix.pml2, ix.pml1)
      && PageNumber(4, v) == FromDigits(0, ix.pml4, ix.pml3, ix.pml2, ix.pml1)
  {
    var ix := ComputeTableIndices(v);
    PageFromDigits(v);
    LowDigits(v / 0x1_0000_0000_0000, ix.pml4, ix.pml3, ix.pml2, ix.pml1);
  }

  /** The computed indices are the nine-bit digits of the page number. */
  lemma IndicesAreDigits(vaddr: nat, depth: nat)
    requires depth == 4 || depth == 5
    ensures var ix, pn := ComputeTableIndices(vaddr), PageNumber(depth, vaddr);
      && Index(1, pn) == ix.pml1 && Index(2, pn) == ix.pml2 && Index(3, pn) == ix.pml3 && Index(4, pn) == ix.pml4
      && (depth == 5 ==> Index(5, pn) == ix.pml5)
      && Key(depth, pn) == 0
  {
    PageNumberDigits(vaddr);
    var ix := ComputeTableIndices(vaddr);
    DigitsOf(if depth == 4 then 0 else ix.pml5, ix.pml4, ix.pml3, ix.pml2, ix.pml1);
  }

  /** Two addresses share all indices exactly when they agree on the page-number bits. */
  lemma SameIndicesSamePage(v: nat, w: nat)
    ensures ComputeTableIndices(v) == ComputeTableIndices(w) <==> PageNumber(5, v) == PageNumber(5, w)
    ensures ComputeTableIndices(v).(pml5 := 0) == ComputeTableIndices(w).(pml5 := 0)
       <==> PageNumber(4, v) == PageNumber(4, w)
  {
    PageNumberDigits(v);
    PageNumberDigits(w);
    var a, b := ComputeTableIndices(v), ComputeTableIndices(w);
    DigitsOf(a.pml5, a.pml4, a.pml3, a.pml2, a.pml1);
    DigitsOf(b.pml5, b.pml4, b.pml3, b.pml2, b.pml1);
    DigitsOf(0, a.pml4, a.pml3, a.pml2, a.pml1);
    DigitsOf(0, b.pml4, b.pml3, b.pml2, b.pml1);
  }

  /** How many pages tables of this depth translate. */
  function Limit(depth: nat): nat {
    if depth == 4 then 0x10_0000_0000 else 0x2000_0000_0000
  }

  lemma BelowLimit(depth: nat, pn: nat)
    requires depth == 4 || depth == 5
    ensures Key(depth, pn) == 0 <==> pn < Limit(depth)
  {
    KeyValues(pn);
  }

  /** Stepping the address by whole pages steps the page number, short of the top. */
  lemma PageNumberAdd(depth: nat, vaddr: nat, n: nat)
    requires PageNumber(depth, vaddr) + n < Limit(depth)
    ensures PageNumber(depth, vaddr + n * 0x1000) == PageNumber(depth, vaddr) + n
  {
    assert (vaddr + n * 0x1000) / 0x1000 == vaddr / 0x1000 + n;
  }
}
