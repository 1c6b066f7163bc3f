/** The MADT, the ACPI table of interrupt controllers (section 5.2.12 of the ACPI specification):
    its byte format and the loop that parses it. */
module Madt {

  type Byte = x: nat | x < 256

  datatype Lapic = Lapic(acpiId: Byte, apicId: Byte, flags: nat)
  datatype IoApic = IoApic(ioapicId: Byte, reserved: Byte, address: nat, gsiBase: nat)
  datatype Override = Override(bus: Byte, irq: Byte, gsi: nat, flags: nat)
  datatype Nmi = Nmi(acpiId: Byte, flags: nat, lint: Byte)
  datatype LapicAddress = LapicAddress(reserved: nat, lapicOverride: Byte)

  // ---------------------------------------------------------------- numbers

  /** `n` bytes, least significant first. */
  function Bytes(x: nat, n: nat): (r: seq<Byte>)
    ensures |r| == n
  {
    if n == 0 then [] else [x % 256] + Bytes(x / 256, n - 1)
  }

  function Number(bs: seq<Byte>): nat {
    if bs == [] then 0 else bs[0] + 256 * Number(bs[1..])
  }

  function Power(n: nat): nat {
    if n == 0 then 1 else 256 * Power(n - 1)
  }

  lemma {:induction false} NumberOfBytes(x: nat, n: nat)
    requires x < Power(n)
    ensures Number(Bytes(x, n)) == x
  {
    if n > 0 {
      assert x / 256 < Power(n - 1);
      NumberOfBytes(x / 256, n - 1);
      assert Bytes(x, n)[1..] == Bytes(x / 256, n - 1);
    }
  }

  // ---------------------------------------------------------------- entries

  /** The entries of the table. The address entry carries eight address bytes, of which the parser
      keeps the first; entries of other kinds are carried along and ignored. */
  datatype Entry =
    | LapicEntry(lapic: Lapic)
    | IoApicEntry(ioapic: IoApic)
    | OverrideEntry(iso: Override)
    | NmiEntry(nmi: Nmi)
    | AddressEntry(reserved: nat, address: seq<Byte>)
    | OtherEntry(kind: Byte, payload: seq<Byte>)

  /** Fields fit their width, and sizes fit the size byte. */
  ghost predicate EntryOk(e: Entry) {
    match e
    case LapicEntry(x) => x.flags < Power(4)
    case IoApicEntry(x) => x.address < Power(4) && x.gsiBase < Power(4)
    case OverrideEntry(x) => x.gsi < Power(4) && x.flags < Power(2)
    case NmiEntry(x) => x.flags < Power(2)
    case AddressEntry(r, a) => r < Power(2) && |a| == 8
    case OtherEntry(k, p) => k != 0 && k != 1 && k != 2 && k != 4 && k != 5 && |p| < 254
  }

  function Kind(e: Entry): Byte {
    match e
    case LapicEntry(_) => 0
    case IoApicEntry(_) => 1
    case OverrideEntry(_) => 2
    case NmiEntry(_) => 4
    case AddressEntry(_, _) => 5
    case OtherEntry(k, _) => k
  }

  function Payload(e: Entry): seq<Byte> {
    match e
    case LapicEntry(x) => [x.acpiId, x.apicId] + Bytes(x.flags, 4)
    case IoApicEntry(x) => [x.ioapicId, x.reserved] + Bytes(x.address, 4) + Bytes(x.gsiBase, 4)
    case OverrideEntry(x) => [x.bus, x.irq] + Bytes(x.gsi, 4) + Bytes(x.flags, 2)
    case NmiEntry(x) => [x.acpiId] + Bytes(x.flags, 2) + [x.lint]
    case AddressEntry(r, a) => Bytes(r, 2) + a
    case OtherEntry(_, p) => p
  }

  lemma PayloadFits(e: Entry)
    requires EntryOk(e)
    ensures |Payload(e)| < 254
  {
  }

  ghost function Print(e: Entry): seq<Byte>
    requires EntryOk(e)
  {
    [Kind(e), 2 + |Payload(e)|] + Payload(e)
  }

  ghost function PrintAll(es: seq<Entry>): seq<Byte>
    requires forall e :: e in es ==> EntryOk(e)
    decreases |es|
  {
    if es == [] then [] else Print(es[0]) + PrintAll(es[1..])
  }

  // ---------------------------------------------------------------- decoding

  function DecodeLapic(p: seq<Byte>): Lapic
    requires |p| >= 6
  {
    Lapic(p[0], p[1], Number(p[2..6]))
  }

  function DecodeIoApic(p: seq<Byte>): IoApic
    requires |p| >= 10
  {
    IoApic(p[0], p[1], Number(p[2..6]), Number(p[6..10]))
  }

  function DecodeOverride(p: seq<Byte>): Override
    requires |p| >= 8
  {
    Override(p[0], p[1], Number(p[2..6]), Number(p[6..8]))
  }

  function DecodeNmi(p: seq<Byte>): Nmi
    requires |p| >= 4
  {
    Nmi(p[0], Number(p[1..3]), p[3])
  }

  function DecodeAddress(p: seq<Byte>): LapicAddress
    requires |p| >= 3
  {
    LapicAddress(Number(p[0..2]), p[2])
  }

  /** The five lists the parser fills. */
  datatype Lists = Lists(
    lapics: seq<Lapic>,
    ioapics: seq<IoApic>,
    overrides: seq<Override>,
    nmis: seq<Nmi>,
    addresses: seq<LapicAddress>)

  const EMPTY_LISTS := Lists([], [], [], [], [])

  ghost function Add(ls: Lists, e: Entry): Lists
    requires EntryOk(e)
  {
    match e
    case LapicEntry(x) => ls.(lapics := ls.lapics + [x])
    case IoApicEntry(x) => ls.(ioapics := ls.ioapics + [x])
    case OverrideEntry(x) => ls.(overrides := ls.overrides + [x])
    case NmiEntry(x) => ls.(nmis := ls.nmis + [x])
    case AddressEntry(r, a) => ls.(addresses := ls.addresses + [LapicAddress(r, a[0])])
    case OtherEntry(_, _) => ls
  }

  /** The payloads of each kind, in order. */
  ghost function Collect(ls: Lists, es: seq<Entry>): Lists
    requires forall e :: e in es ==> EntryOk(e)
    decreases |es|
  {
    if es == [] then ls else Collect(Add(ls, es[0]), es[1..])
  }

  /** Decoding an entry's payload, with whatever follows it, gives the entry back. */
  lemma DecodePayload(e: Entry, rest: seq<Byte>)
    requires EntryOk(e)
    ensures var p := Payload(e) + rest;
      match e
      case LapicEntry(x) => |Payload(e)| == 6 && DecodeLapic(p) == x
      case IoApicEntry(x) => |Payload(e)| == 10 && DecodeIoApic(p) == x
      case OverrideEntry(x) => |Payload(e)| == 8 && DecodeOverride(p) == x
      case NmiEntry(x) => |Payload(e)| == 4 && DecodeNmi(p) == x
      case AddressEntry(r, a) => |Payload(e)| == 10 && DecodeAddress(p) == LapicAddress(r, a[0])
      case OtherEntry(_, _) => true
  {
    var p := Payload(e) + rest;
    match e
    case LapicEntry(x) =>
      NumberOfBytes(x.flags, 4);
      assert p[2..6] == Bytes(x.flags, 4);
    case IoApicEntry(x) =>
      NumberOfBytes(x.address, 4);
      NumberOfBytes(x.gsiBase, 4);
      assert p[2..6] == Bytes(x.address, 4) && p[6..10] == Bytes(x.gsiBase, 4);
    case OverrideEntry(x) =>
      NumberOfBytes(x.gsi, 4);
      NumberOfBytes(x.flags, 2);
      assert p[2..6] == Bytes(x.gsi, 4) && p[6..8] == Bytes(x.flags, 2);
    case NmiEntry(x) =>
      NumberOfBytes(x.flags, 2);
      assert p[1..3] == Bytes(x.flags, 2);
    case AddressEntry(r, a) =>
      NumberOfBytes(r, 2);
      assert p[0..2] == Bytes(r, 2) && p[2] == a[0];
    case OtherEntry(_, _) =>
  }

  // ---------------------------------------------------------------- parsing

  /** One entry at the head of the remaining bytes: the lists after the parser's switch. */
  function Dispatch(ls: Lists, kind: Byte, p: seq<Byte>): Lists {
    if kind == 0 && |p| >= 6 then ls.(lapics := ls.lapics + [DecodeLapic(p)])
    else if kind == 1 && |p| >= 10 then ls.(ioapics := ls.ioapics + [DecodeIoApic(p)])
    else if kind == 2 && |p| >= 8 then ls.(overrides := ls.overrides + [DecodeOverride(p)])
    else if kind == 4 && |p| >= 4 then ls.(nmis := ls.nmis + [DecodeNmi(p)])
    else if kind == 5 && |p| >= 3 then ls.(addresses := ls.addresses + [DecodeAddress(p)])
    else ls
  }

  lemma DispatchAdds(ls: Lists, e: Entry, rest: seq<Byte>)
    requires EntryOk(e)
    ensures Dispatch(ls, Kind(e), Payload(e) + rest) == Add(ls, e)
  {
    DecodePayload(e, rest);
  }

  lemma HeadOfBytes(bs: seq<Byte>, i: nat, kind: Byte, p: seq<Byte>, rest: seq<Byte>)
    requires |p| < 254 && i <= |bs| && bs[i..] == [kind, 2 + |p|] + p + rest
    ensures i + 2 + |p| <= |bs| && bs[i] == kind && bs[i + 1] == 2 + |p|
    ensures bs[i + 2..] == p + rest && bs[i + (2 + |p|)..] == rest
  {
    assert bs[i] == bs[i..][0] && bs[i + 1] == bs[i..][1];
    assert bs[i + 2..] == bs[i..][2..];
    assert bs[i + (2 + |p|)..] == bs[i..][2 + |p|..];
  }

  /** What the head of a printed table looks like. */
  lemma HeadOfTable(bs: seq<Byte>, i: nat, es: seq<Entry>)
    requires (forall e :: e in es ==> EntryOk(e)) && es != [] && i <= |bs| && bs[i..] == PrintAll(es)
    ensures var n := |Payload(es[0])|;
      && i + 2 + n <= |bs| && bs[i] == Kind(es[0]) && bs[i + 1] == 2 + n
      && bs[i + 2..] == Payload(es[0]) + PrintAll(es[1..])
      && bs[i + (2 + n)..] == PrintAll(es[1..])
  {
    hide EntryOk, Payload, Kind;
    PayloadFits(es[0]);
    HeadOfBytes(bs, i, Kind(es[0]), Payload(es[0]), PrintAll(es[1..]));
  }

  /** Parsing undoes printing: on the bytes of any well-formed entries, the loop with its three
      increments and the step of `size - 3` ends with each list equal to the payloads of its kind. */
  method ParseTable(bs: seq<Byte>, ghost es: seq<Entry>) returns (ls: Lists)
    requires (forall e :: e in es ==> EntryOk(e)) && bs == PrintAll(es)
    ensures ls == Collect(EMPTY_LISTS, es)
  {
    ls := EMPTY_LISTS;
    var i := 0;
    ghost var todo := es;
    assert bs[0..] == bs;
    while i < |bs|
      invariant 0 <= i <= |bs| && (forall e :: e in todo ==> EntryOk(e)) && bs[i..] == PrintAll(todo)
      invariant Collect(ls, todo) == Collect(EMPTY_LISTS, es)
      decreases |bs| - i
    {
      HeadOfTable(bs, i, todo);
      DispatchAdds(ls, todo[0], PrintAll(todo[1..]));
      var kind := bs[i];
      i := i + 1;
      var size: int := bs[i];
      i := i + 1;
      ls := Dispatch(ls, kind, bs[i..]);
      i := i + (size - 3);
      i := i + 1;
      todo := todo[1..];
    }
    assert todo == [];
  }
}
