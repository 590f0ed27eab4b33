/** kernel/idt.c: the 64-bit interrupt descriptor table. 256 packed 16-byte
    gate descriptors in the layout of section 6.14.1 of the Intel 64 and IA-32
    Architectures Software Developer's Manual, Volume 3A ("64-Bit Mode IDT").
    Only vector 0 (divide error) gets a handler; lidt is a ghost event that
    records what the CPU was given. */
module Idt {

  /** struct idt_entry (packed). */
  datatype IdtEntry = IdtEntry(
    offsetLow: bv16,   // handler offset bits 15..0
    selector: bv16,    // code segment selector
    ist: bv8,          // interrupt stack table index (bits 2..0)
    typeAttr: bv8,     // P, DPL, 0, gate type
    offsetMid: bv16,   // handler offset bits 31..16
    offsetHigh: bv32,  // handler offset bits 63..32
    zero: bv32)        // reserved

  /** struct idt_ptr (packed): the operand of lidt. */
  datatype IdtPtr = IdtPtr(limit: bv16, base: bv64)

  const IDT_MAX_ENTRIES: nat := 256

  /** IDT_CODE_SELECTOR: the 64-bit code segment of the boot GDT. */
  const IDT_CODE_SELECTOR: bv16 := 0x18

  /** Present, DPL 0, type 0xE: a 64-bit interrupt gate. */
  const INTERRUPT_GATE_ATTR: bv8 := 0x8E

  /** sizeof(struct idt_entry): the packed fields' widths in bytes. */
  const ENTRY_BYTES: nat := 2 + 2 + 1 + 1 + 2 + 4 + 4

  /** idt_descriptor.limit: sizeof(idt) - 1, stored in 16 bits (see
      LimitCoversTable). */
  const IDT_LIMIT: bv16 := 0x0FFF

  const ZERO_ENTRY: IdtEntry := IdtEntry(0, 0, 0, 0, 0, 0, 0)

  /** The handler address the CPU reassembles from the three offset fields. */
  function Offset(e: IdtEntry): bv64 {
    e.offsetLow as bv64 | (e.offsetMid as bv64 << 16) | (e.offsetHigh as bv64 << 32)
  }

  /** The P flag, bit 7 of the type/attribute byte. */
  predicate Present(e: IdtEntry) {
    e.typeAttr & 0x80 != 0
  }

  /** The descriptor privilege level, bits 6..5. */
  function Dpl(e: IdtEntry): bv8 {
    (e.typeAttr >> 5) & 0x3
  }

  /** The gate type, bits 3..0 (0xE: interrupt gate, 0xF: trap gate). */
  function GateType(e: IdtEntry): bv8 {
    e.typeAttr & 0xF
  }

  /** The entry idt_set_gate fills in for `handler`. */
  function Gate(handler: bv64): (e: IdtEntry)
    ensures Offset(e) == handler
    ensures e.selector == IDT_CODE_SELECTOR && e.ist == 0 && e.zero == 0
    ensures e.typeAttr == INTERRUPT_GATE_ATTR
    ensures Present(e) && Dpl(e) == 0 && GateType(e) == 0xE
  {
    IdtEntry((handler & 0xFFFF) as bv16, IDT_CODE_SELECTOR, 0, INTERRUPT_GATE_ATTR,
             ((handler >> 16) & 0xFFFF) as bv16, ((handler >> 32) & 0xFFFF_FFFF) as bv32, 0)
  }

  // ---- the packed byte image ----

  function Bytes16(x: bv16): seq<bv8> {
    [(x & 0xFF) as bv8, (x >> 8) as bv8]
  }

  function Bytes32(x: bv32): seq<bv8> {
    [(x & 0xFF) as bv8, ((x >> 8) & 0xFF) as bv8, ((x >> 16) & 0xFF) as bv8, (x >> 24) as bv8]
  }

  function Bytes64(x: bv64): seq<bv8> {
    [(x & 0xFF) as bv8, ((x >> 8) & 0xFF) as bv8, ((x >> 16) & 0xFF) as bv8, ((x >> 24) & 0xFF) as bv8,
     ((x >> 32) & 0xFF) as bv8, ((x >> 40) & 0xFF) as bv8, ((x >> 48) & 0xFF) as bv8, (x >> 56) as bv8]
  }

  /** The little-endian value of two bytes. */
  function Le16(b: seq<bv8>): (x: bv16)
    requires |b| == 2
    ensures Bytes16(x) == b
  {
    b[0] as bv16 | (b[1] as bv16 << 8)
  }

  /** The little-endian value of four bytes. */
  function Le32(b: seq<bv8>): (x: bv32)
    requires |b| == 4
    ensures Bytes32(x) == b
  {
    b[0] as bv32 | (b[1] as bv32 << 8) | (b[2] as bv32 << 16) | (b[3] as bv32 << 24)
  }

  /** The little-endian value of eight bytes. */
  function Le64(b: seq<bv8>): (x: bv64)
    requires |b| == 8
    ensures Bytes64(x) == b
  {
    b[0] as bv64 | (b[1] as bv64 << 8) | (b[2] as bv64 << 16) | (b[3] as bv64 << 24)
      | (b[4] as bv64 << 32) | (b[5] as bv64 << 40) | (b[6] as bv64 << 48) | (b[7] as bv64 << 56)
  }

  lemma Le16Bytes16(x: bv16)
    ensures Le16(Bytes16(x)) == x
  {
  }

  lemma Le32Bytes32(x: bv32)
    ensures Le32(Bytes32(x)) == x
  {
  }

  /** The entry as the CPU reads it: the fields back to back, in declaration
      order, little-endian, with no padding. */
  function Encode(e: IdtEntry): (b: seq<bv8>)
    ensures |b| == ENTRY_BYTES
  {
    Bytes16(e.offsetLow) + Bytes16(e.selector) + [e.ist, e.typeAttr]
      + Bytes16(e.offsetMid) + Bytes32(e.offsetHigh) + Bytes32(e.zero)
  }

  function Decode(b: seq<bv8>): IdtEntry
    requires |b| == ENTRY_BYTES
  {
    IdtEntry(Le16(b[0..2]), Le16(b[2..4]), b[4], b[5], Le16(b[6..8]), Le32(b[8..12]), Le32(b[12..16]))
  }

  /** Reading the packed image back gives the entry. */
  lemma DecodeEncode(e: IdtEntry)
    ensures Decode(Encode(e)) == e
  {
    var b := Encode(e);
    assert b[0..2] == Bytes16(e.offsetLow) && b[2..4] == Bytes16(e.selector);
    assert b[6..8] == Bytes16(e.offsetMid) && b[8..12] == Bytes32(e.offsetHigh);
    assert b[12..16] == Bytes32(e.zero);
    Le16Bytes16(e.offsetLow);
    Le16Bytes16(e.selector);
    Le16Bytes16(e.offsetMid);
    Le32Bytes32(e.offsetHigh);
    Le32Bytes32(e.zero);
  }

  /** The handler address where the manual puts it: offset 15..0 in bytes 0-1,
      31..16 in bytes 6-7, 63..32 in bytes 8-11; the selector in bytes 2-3, the
      type/attribute byte at byte 5. */
  lemma GateImage(handler: bv64)
    ensures var b := Encode(Gate(handler));
      Le16(b[0..2]) as bv64 | (Le16(b[6..8]) as bv64 << 16) | (Le32(b[8..12]) as bv64 << 32) == handler &&
      Le16(b[2..4]) == IDT_CODE_SELECTOR && b[4] == 0 && b[5] == INTERRUPT_GATE_ATTR
  {
    DecodeEncode(Gate(handler));
  }

  /** The limit is the offset of the table's last byte: 256 packed 16-byte
      entries make 4096 bytes, so it is 4095 and fits its 16 bits. */
  lemma LimitCoversTable()
    ensures IDT_LIMIT as int == IDT_MAX_ENTRIES * ENTRY_BYTES - 1
  {
  }

  /** The descriptor as lidt reads it: the limit in bytes 0-1 and the base
      in bytes 2-9, little-endian, with no padding. */
  function EncodePtr(d: IdtPtr): (b: seq<bv8>)
    ensures |b| == 2 + 8
  {
    Bytes16(d.limit) + Bytes64(d.base)
  }

  function DecodePtr(b: seq<bv8>): IdtPtr
    requires |b| == 2 + 8
  {
    IdtPtr(Le16(b[0..2]), Le64(b[2..10]))
  }

  lemma Le64Bytes64(x: bv64)
    ensures Le64(Bytes64(x)) == x
  {
  }

  /** Reading the packed descriptor back gives the limit and the base. */
  lemma DecodePtrEncodePtr(d: IdtPtr)
    ensures DecodePtr(EncodePtr(d)) == d
  {
    var b := EncodePtr(d);
    assert b[0..2] == Bytes16(d.limit) && b[2..10] == Bytes64(d.base);
    Le16Bytes16(d.limit);
    Le64Bytes64(d.base);
  }

  // ---- the table idt_init builds ----

  /** The table after the zeroing loop of idt_init. */
  function ZeroTable(): (t: seq<IdtEntry>)
    ensures |t| == IDT_MAX_ENTRIES
    ensures forall v :: 0 <= v < |t| ==> t[v] == ZERO_ENTRY
  {
    seq(IDT_MAX_ENTRIES, _ => ZERO_ENTRY)
  }

  /** The table idt_init leaves: zeroed, then vector 0 set to the
      divide-error gate. */
  function InitialTable(isr0: bv64): (t: seq<IdtEntry>)
    ensures |t| == IDT_MAX_ENTRIES
    ensures t[0] == Gate(isr0)
    ensures forall v :: 1 <= v < |t| ==> t[v] == ZERO_ENTRY
  {
    ZeroTable()[0 := Gate(isr0)]
  }

  /** How many entries of `t` have the present bit set. */
  function PresentCount(t: seq<IdtEntry>): nat {
    if t == [] then 0 else PresentCount(t[..|t| - 1]) + (if Present(t[|t| - 1]) then 1 else 0)
  }

  /** A table in which only slot `v` can be present has at most that one. */
  lemma {:induction false} PresentCountOnly(t: seq<IdtEntry>, v: nat)
    requires forall k :: 0 <= k < |t| && k != v ==> !Present(t[k])
    ensures PresentCount(t) == if v < |t| && Present(t[v]) then 1 else 0
  {
    if t != [] {
      PresentCountOnly(t[..|t| - 1], v);
    }
  }

  /** After idt_init exactly one of the 256 gates is present, vector 0, whose
      offset is the stub's address; vectors 1..255 are entirely zero. */
  lemma InitialTableGates(isr0: bv64)
    ensures var t := InitialTable(isr0);
      PresentCount(t) == 1 &&
      (forall v :: 0 <= v < IDT_MAX_ENTRIES ==> (Present(t[v]) <==> v == 0)) &&
      (forall v :: 1 <= v < IDT_MAX_ENTRIES ==> t[v] == ZERO_ENTRY) &&
      Offset(t[0]) == isr0 && t[0].selector == IDT_CODE_SELECTOR && t[0].typeAttr == INTERRUPT_GATE_ATTR
  {
    var t := InitialTable(isr0);
    PresentCountOnly(t, 0);
  }

  // ---- the table and its loading ----

  /** What happens to the table, in order: stores to an entry's fields, stores
      to the descriptor, and lidt with what the CPU was handed. */
  datatype Event =
    | StoreEntry(vector: nat)
    | StoreDescriptor
    | Load(table: seq<IdtEntry>, descriptor: IdtPtr)

  /** `events` ends with the one load of (`t`, `d`), and every slot and the
      descriptor were stored to before it. */
  ghost predicate LoadedLast(events: seq<Event>, t: seq<IdtEntry>, d: IdtPtr) {
    events != [] && events[|events| - 1] == Load(t, d) &&
    (forall k :: 0 <= k < |events| - 1 ==> !events[k].Load?) &&
    (forall v :: 0 <= v < IDT_MAX_ENTRIES ==> StoreEntry(v) in events) &&
    StoreDescriptor in events
  }

  /** One store to each of the entries 0..n-1, in order. */
  ghost function EntryStores(n: nat): (events: seq<Event>)
    ensures |events| == n
  {
    seq(n, v requires 0 <= v < n => StoreEntry(v))
  }

  class InterruptTable {
    /** static struct idt_entry idt[IDT_MAX_ENTRIES]. */
    const table: array<IdtEntry>
    /** (uint64_t)&idt[0]: where the linker placed the table. */
    const tableAddress: bv64
    /** static struct idt_ptr idt_descriptor. */
    var descriptor: IdtPtr
    /** Every store to the table or the descriptor and every lidt, in order
        (one StoreEntry per group of stores to one entry's fields). */
    ghost var trace: seq<Event>

    ghost predicate Valid()
      reads this
    {
      table.Length == IDT_MAX_ENTRIES
    }

    /** The static storage at boot: zero-filled, nothing loaded yet. */
    constructor (address: bv64)
      ensures Valid() && fresh(table) && tableAddress == address
      ensures table[..] == ZeroTable()
      ensures descriptor == IdtPtr(0, 0) && trace == []
    {
      table := new IdtEntry[IDT_MAX_ENTRIES](_ => ZERO_ENTRY);
      tableAddress := address;
      descriptor := IdtPtr(0, 0);
      trace := [];
    }

    /** idt_set_gate. There is no bounds check, so the caller must pass a
        vector inside the table. */
    method SetGate(vec: int, handlerAddr: bv64)
      requires Valid() && 0 <= vec < IDT_MAX_ENTRIES
      modifies table, this`trace
      ensures table[..] == old(table[..])[vec := Gate(handlerAddr)]
      ensures trace == old(trace) + [StoreEntry(vec)]
    {
      table[vec] := table[vec].(offsetLow := (handlerAddr & 0xFFFF) as bv16);
      table[vec] := table[vec].(selector := IDT_CODE_SELECTOR);
      table[vec] := table[vec].(ist := 0);
      table[vec] := table[vec].(typeAttr := INTERRUPT_GATE_ATTR);
      table[vec] := table[vec].(offsetMid := ((handlerAddr >> 16) & 0xFFFF) as bv16);
      table[vec] := table[vec].(offsetHigh := ((handlerAddr >> 32) & 0xFFFF_FFFF) as bv32);
      table[vec] := table[vec].(zero := 0);
      trace := trace + [StoreEntry(vec)];
    }

    /** lidt: the CPU takes the descriptor and, through it, the table as it
        stands at this moment. */
    ghost method Lidt()
      modifies this`trace
      ensures trace == old(trace) + [Load(table[..], descriptor)]
    {
      trace := trace + [Load(table[..], descriptor)];
    }

    /** idt_init with the address of isr0_stub, which comes from assembly. */
    method Init(isr0: bv64)
      requires Valid()
      modifies this, table
      ensures Valid()
      ensures table[..] == InitialTable(isr0)
      ensures descriptor == IdtPtr(IDT_LIMIT, tableAddress)
      ensures |trace| > |old(trace)| && trace[..|old(trace)|] == old(trace)
      ensures LoadedLast(trace[|old(trace)|..], table[..], descriptor)
    {
      for i := 0 to IDT_MAX_ENTRIES
        modifies table, this`trace
        invariant forall v :: 0 <= v < i ==> table[v] == ZERO_ENTRY
        invariant trace == old(trace) + EntryStores(i)
      {
        table[i] := table[i].(offsetLow := 0);
        table[i] := table[i].(selector := 0);
        table[i] := table[i].(ist := 0);
        table[i] := table[i].(typeAttr := 0);
        table[i] := table[i].(offsetMid := 0);
        table[i] := table[i].(offsetHigh := 0);
        table[i] := table[i].(zero := 0);
        trace := trace + [StoreEntry(i)];
        assert EntryStores(i + 1) == EntryStores(i) + [StoreEntry(i)];
      }
      ghost var zeroing := EntryStores(IDT_MAX_ENTRIES);
      assert table[..] == ZeroTable();

      SetGate(0, isr0);

      descriptor := descriptor.(limit := IDT_LIMIT);
      trace := trace + [StoreDescriptor];
      descriptor := descriptor.(base := tableAddress);
      trace := trace + [StoreDescriptor];

      Lidt();

      ghost var events := zeroing + [StoreEntry(0), StoreDescriptor, StoreDescriptor, Load(table[..], descriptor)];
      assert trace == old(trace) + events;
      assert trace[|old(trace)|..] == events;
      assert forall v :: 0 <= v < IDT_MAX_ENTRIES ==> events[v] == StoreEntry(v);
    }
  }
}
