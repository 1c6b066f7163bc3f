/** Page-table entries as 64-bit words, cut into the three fields the paging code tells apart:
    bit 63 (no-execute), bits 12 to 62 (a page number) and the low twelve flag bits. */
module Words {

  datatype Option<+T> = None | Some(value: T)

  datatype Word = Word(nx: bool, page: nat, low: bv12)

  const ZERO := Word(false, 0, 0)

  const P: bv12 := 0x001
  const RW: bv12 := 0x002
  const US: bv12 := 0x004
  const PS: bv12 := 0x080
  const G: bv12 := 0x100

  /** A page-aligned physical address. */
  function Addr(frame: nat): Word {
    Word(false, frame, 0)
  }

  function Flags(nx: bool, low: bv12): Word {
    Word(nx, 0, low)
  }

  predicate Present(e: Word) {
    e.low & P != 0
  }

  predicate Large(e: Word) {
    e.low & PS != 0
  }

  /** `a | b`, where at most one operand carries a page number. */
  function Or(a: Word, b: Word): Word
    requires a.page == 0 || b.page == 0
  {
    Word(a.nx || b.nx, a.page + b.page, a.low | b.low)
  }

  /** `flags & ~(PS | G | NX)`, what a non-leaf entry inherits from a mapping. */
  function DirectoryFlags(flags: Word): Word {
    Word(false, flags.page, flags.low & !(PS | G))
  }

  /** `e & ~P`. */
  function ClearPresent(e: Word): Word {
    e.(low := e.low & !P)
  }

  /** `e & ~0xfff` as a frame number. Bit 63 survives that mask, so a no-execute entry
      would lead 2^51 frames too far. */
  function NextTable(e: Word): nat {
    e.page + if e.nx then 0x8_0000_0000_0000 else 0
  }

  // ---------------------------------------------------------------- 64-bit words

  const PAGE_BITS: bv64 := 0x7fff_ffff_ffff_f000

  predicate NxField(w: bv64) {
    w & 0x8000_0000_0000_0000 != 0
  }

  function PageField(w: bv64): bv64 {
    (w & PAGE_BITS) >> 12
  }

  function LowField(w: bv64): bv12 {
    (w & 0xfff) as bv12
  }

  function Number(x: bv64): nat {
    x as nat
  }

  /** The three fields of a 64-bit word. */
  function Of(w: bv64): Word {
    Word(NxField(w), Number(PageField(w)), LowField(w))
  }

  lemma NumberZero()
    ensures Number(0) == 0
  {
  }

  lemma OrFields(a: bv64, b: bv64)
    ensures NxField(a | b) <==> NxField(a) || NxField(b)
    ensures PageField(b) == 0 ==> PageField(a | b) == PageField(a)
  {
  }

  lemma OrLow(a: bv64, b: bv64)
    ensures LowField(a | b) == LowField(a) | LowField(b)
  {
  }

  /** A 64-bit word without a page number. */
  predicate NoPage(w: bv64) {
    PageField(w) == 0
  }

  /** `or` with a word that carries no page number is `Or` on the fields. */
  lemma OfOr(a: bv64, b: bv64)
    requires NoPage(b)
    ensures Of(b).page == 0 && Of(a | b) == Or(Of(a), Of(b))
  {
    hide NxField, PageField, LowField, Number;
    OrFields(a, b);
    OrLow(a, b);
    NumberZero();
  }

  lemma DirectoryFields(a: bv64)
    ensures var d := a & 0x7fff_ffff_ffff_fe7f;
      !NxField(d) && PageField(d) == PageField(a)
  {
  }

  lemma DirectoryLow(a: bv64)
    ensures LowField(a & 0x7fff_ffff_ffff_fe7f) == LowField(a) & !(PS | G)
  {
  }

  /** Masking off PS, G and NX (bits 7, 8 and 63) is `DirectoryFlags`. */
  lemma OfDirectoryMask(a: bv64)
    ensures Of(a & 0x7fff_ffff_ffff_fe7f) == DirectoryFlags(Of(a))
  {
    hide NxField, PageField, LowField;
    DirectoryFields(a);
    DirectoryLow(a);
  }

  lemma ClearFields(a: bv64)
    ensures var d := a & 0xffff_ffff_ffff_fffe;
      (NxField(d) <==> NxField(a)) && PageField(d) == PageField(a)
  {
  }

  lemma ClearLow(a: bv64)
    ensures LowField(a & 0xffff_ffff_ffff_fffe) == LowField(a) & !P
  {
  }

  /** Masking off P is `ClearPresent`. */
  lemma OfClearPresent(a: bv64)
    ensures Of(a & 0xffff_ffff_ffff_fffe) == ClearPresent(Of(a))
  {
    hide NxField, PageField, LowField;
    ClearFields(a);
    ClearLow(a);
  }

  /** An entry with its low twelve bits masked off, as a frame number. */
  function MaskedFrame(a: bv64): bv64 {
    (a & 0xffff_ffff_ffff_f000) >> 12
  }

  lemma MaskedHigh(a: bv64)
    ensures NxField(a) ==> MaskedFrame(a) == PageField(a) | 0x8_0000_0000_0000
  {
  }

  lemma MaskedLow(a: bv64)
    ensures !NxField(a) ==> MaskedFrame(a) == PageField(a)
  {
  }

  lemma PageFieldSmall(a: bv64)
    ensures PageField(a) < 0x8_0000_0000_0000
  {
  }

  lemma HighBit(x: bv64)
    requires x < 0x8_0000_0000_0000
    ensures Number(x | 0x8_0000_0000_0000) == Number(x) + 0x8_0000_0000_0000
  {
  }

  /** Masking off the low twelve bits gives the frame `NextTable`, for every entry. */
  lemma OfNextTable(a: bv64)
    ensures Number(MaskedFrame(a)) == NextTable(Of(a))
  {
    hide NxField, PageField, LowField, MaskedFrame, Number;
    MaskedHigh(a);
    MaskedLow(a);
    PageFieldSmall(a);
    HighBit(PageField(a));
  }

  /** The tests of P and of PS. */
  lemma OfTests(a: bv64)
    ensures (a & 1 != 0 <==> Present(Of(a))) && (a & 0x80 != 0 <==> Large(Of(a)))
  {
    hide NxField, PageField;
  }

  const NX: bv64 := 0x8000_0000_0000_0000

  lemma FlagFields(nx: bool, low: bv64)
    requires low & 0xffff_ffff_ffff_f000 == 0
    ensures var w: bv64 := if nx then low | NX else low;
      (NxField(w) <==> nx) && PageField(w) == 0 && LowField(w) == LowField(low)
  {
  }

  /** A 64-bit word with flags alone: bit 63 and the low twelve. */
  lemma OfFlags(nx: bool, low: bv64)
    requires low & 0xffff_ffff_ffff_f000 == 0
    ensures Of(if nx then low | NX else low) == Flags(nx, LowField(low))
  {
    hide NxField, PageField, LowField, Number;
    FlagFields(nx, low);
    NumberZero();
  }

  /** One frame seen as a table of 512 entries. */
  type Table = t: seq<Word> | |t| == 512 witness seq(512, _ => ZERO)

  function EmptyTable(): (t: Table)
    ensures forall i :: 0 <= i < 512 ==> t[i] == ZERO
  {
    seq(512, _ => ZERO)
  }
}
