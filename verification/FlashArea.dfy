/** The flash-area layer: a table of areas on one internal flash, with bounds and
    alignment tests and readback checks on top of the controller. */
module FlashArea {
  import opened NorFlash

  const INTERNAL_FLASH: nat := 0
  const BOOTLOADER: nat := 0
  const NO_SLOT: nat := 255

  /** `uint32_t`, and a source buffer whose length is one. */
  type U32 = n: nat | n < UINT32
  type Block = s: seq<Byte> | |s| < UINT32

  datatype Entry = Entry(id: nat, device: nat, off: U32, size: U32)

  /** An area starts on a page and ends within the address space, as those of the
      table do. */
  type Area = e: Entry | e.off % PAGE == 0 && e.off + e.size <= UINT32 witness Entry(0, 0, 0, 0)

  function Primary(image: int): nat { if image == 0 then 1 else NO_SLOT }
  function Secondary(image: int): nat { if image == 0 then 2 else NO_SLOT }

  const AREAS: seq<Area> := [
    Entry(BOOTLOADER, INTERNAL_FLASH, 0, 32 * 1024),
    Entry(Primary(0), INTERNAL_FLASH, 32 * 1024, 128 * 1024),
    Entry(Secondary(0), INTERNAL_FLASH, 32 * 1024 + 128 * 1024, 128 * 1024)]

  /** The areas tile the flash from its start, on page boundaries. */
  lemma AreasTile()
    ensures AREAS[0].off == 0
    ensures forall i | 0 <= i < |AREAS| - 1 :: AREAS[i].off + AREAS[i].size == AREAS[i + 1].off
    ensures forall i | 0 <= i < |AREAS| :: AREAS[i].off % PAGE == 0 && AREAS[i].size % PAGE == 0 && AREAS[i].size > 0
  {
  }

  /** Where they are: 32 KiB of bootloader, and two slots of 128 KiB for image 0. */
  lemma AreasAre()
    ensures AREAS == [Entry(0, 0, 0x0000, 0x8000), Entry(1, 0, 0x8000, 0x20000), Entry(2, 0, 0x28000, 0x20000)]
    ensures forall image: int | image != 0 :: IdFromSlot(image, 0) == IdFromSlot(image, 1) == 255
    ensures IdFromSlot(0, 0) == 1 && IdFromSlot(0, 1) == 2
    ensures forall image: int, slot: int | slot != 0 && slot != 1 :: IdFromSlot(image, slot) == -1
  {
  }

  // ----- looking up areas

  datatype Lookup = Missing | Found(area: Area)

  function FindArea(areas: seq<Area>, id: nat): (r: Lookup)
    ensures r.Found? ==> r.area in areas && r.area.id == id
    ensures r.Missing? ==> forall a | a in areas :: a.id != id
  {
    if areas == [] then Missing
    else if areas[0].id == id then Found(areas[0])
    else FindArea(areas[1..], id)
  }

  /** `prv_lookup_flash_area`; the argument is truncated to eight bits. */
  method LookupArea(areas: seq<Area>, id: int) returns (r: Lookup)
    ensures r == FindArea(areas, id % 256)
  {
    var small := id % 256;
    assert areas[0..] == areas;
    for i := 0 to |areas|
      invariant FindArea(areas, small) == FindArea(areas[i..], small)
    {
      var area := areas[i];
      if small == area.id {
        return Found(area);
      }
      assert areas[i..][1..] == areas[i + 1..];
    }
    return Missing;
  }

  /** `flash_area_id_from_multi_image_slot`; -1 for an unexpected slot. */
  function IdFromSlot(image: int, slot: int): int {
    if slot == 0 then Primary(image) else if slot == 1 then Secondary(image) else -1
  }

  /** Opening the area of a slot succeeds exactly for the two slots of image 0: the
      codes for everything else, 255 and -1, truncate to an identifier not in the table. */
  lemma SlotsOpen(image: int, slot: int)
    ensures FindArea(AREAS, IdFromSlot(image, slot) % 256).Found? <==> image == 0 && (slot == 0 || slot == 1)
    ensures image == 0 && slot == 0 ==> FindArea(AREAS, IdFromSlot(image, slot) % 256).area == AREAS[1]
    ensures image == 0 && slot == 1 ==> FindArea(AREAS, IdFromSlot(image, slot) % 256).area == AREAS[2]
  {
    var id := IdFromSlot(image, slot) % 256;
    assert AREAS[1..][1..] == [AREAS[2]];
    if id == NO_SLOT {
      assert forall a | a in AREAS :: a.id != NO_SLOT;
    }
  }

  // ----- operations

  datatype Op =
    | Read(area: Area, off: U32, len: U32)
    | Write(area: Area, off: U32, data: Block)
    | EraseRange(area: Area, off: U32, len: U32)

  function Length(op: Op): U32 {
    match op
    case Read(_, _, len) => len
    case Write(_, _, data) => |data|
    case EraseRange(_, _, len) => len
  }

  /** The address an operation starts at.  The sum wraps at 2^32. */
  function Start(op: Op): U32 { (op.area.off + op.off) % UINT32 }

  /** The tests made before anything is touched.  The end offset wraps at 2^32. */
  predicate Accepted(op: Op) {
    && op.area.device == INTERNAL_FLASH
    && match op
       case Read(area, off, len) => (off + len) % UINT32 <= area.size
       case Write(area, off, data) => (off + |data|) % UINT32 <= area.size
       case EraseRange(area, off, len) => len % PAGE == 0 && off % PAGE == 0
  }

  /** Which calls get through, by cases on the true sum of offset and length: reads and
      writes that end inside the area or whose sum is over 2^32 by no more than the
      size, erases of whole pages from a page boundary, and nothing on another device. */
  lemma AcceptedExactly(op: Op)
    ensures op.area.device != 0 ==> !Accepted(op)
    ensures op.area.device == 0 && !op.EraseRange? && op.off + Length(op) < 0x1_0000_0000 ==>
              (Accepted(op) <==> op.off + Length(op) <= op.area.size)
    ensures op.area.device == 0 && !op.EraseRange? && op.off + Length(op) >= 0x1_0000_0000 ==>
              (Accepted(op) <==> op.off + Length(op) <= op.area.size + 0x1_0000_0000)
    ensures op.area.device == 0 && op.EraseRange? ==>
              (Accepted(op) <==> (exists i: nat {:trigger 4096 * i} :: op.off == 4096 * i)
                                 && (exists j: nat {:trigger 4096 * j} :: op.len == 4096 * j))
  {
    if op.EraseRange? {
      WholePages(op.off);
      WholePages(op.len);
    }
  }

  lemma WholePages(n: nat)
    ensures n % 4096 == 0 <==> exists i: nat {:trigger 4096 * i} :: n == 4096 * i
  {
    if n % 4096 == 0 {
      assert n == 4096 * (n / 4096);
    }
  }

  /** How far the address `a` is from the start of the operation, going up and round. */
  function Offset(op: Op, a: U32): U32 { (a - Start(op)) % UINT32 }

  /** The operation changes, or may change, the byte at `a`. */
  predicate Covers(op: Op, a: U32) { Accepted(op) && !op.Read? && Offset(op, a) < Length(op) }

  /** What one operation does to the byte at `a`, alone. */
  function Touch(was: Byte, op: Op, a: U32): Byte {
    if !Covers(op, a) then was
    else if op.Write? then Burn(was, op.data[Offset(op, a)])
    else 0xFF
  }

  type Flash = f: seq<Byte> | |f| <= UINT32

  function Apply(flash: Flash, op: Op): (r: Flash)
    ensures |r| == |flash|
    ensures forall a | 0 <= a < |flash| :: r[a] == Touch(flash[a], op, a)
  {
    seq(|flash|, a requires 0 <= a < |flash| => Touch(flash[a], op, a))
  }

  function Run(flash: Flash, ops: seq<Op>): (r: Flash)
    ensures |r| == |flash|
    decreases ops
  {
    if ops == [] then flash else Run(Apply(flash, ops[0]), ops[1..])
  }

  function History(was: Byte, ops: seq<Op>, a: U32): Byte
    decreases ops
  {
    if ops == [] then was else History(Touch(was, ops[0], a), ops[1..], a)
  }

  /** Over any run each byte has its own history: it depends on nothing but the
      operations whose range covers it. */
  lemma {:induction false} BytesAreIndependent(flash: Flash, ops: seq<Op>, a: U32)
    requires a < |flash|
    ensures Run(flash, ops)[a] == History(flash[a], ops, a)
    decreases ops
  {
    if ops != [] {
      hide Touch;
      BytesAreIndependent(Apply(flash, ops[0]), ops[1..], a);
    }
  }

  /** No operation of the run changes the byte at `a`. */
  predicate Spares(ops: seq<Op>, a: U32) {
    forall i | 0 <= i < |ops| :: !Covers(ops[i], a)
  }

  lemma {:induction false} UncoveredKeepsHistory(was: Byte, ops: seq<Op>, a: U32)
    requires Spares(ops, a)
    ensures History(was, ops, a) == was
    decreases ops
  {
    if ops != [] {
      hide Covers;
      UncoveredKeepsHistory(Touch(was, ops[0], a), ops[1..], a);
    }
  }

  // ----- staying in the area

  /** The range of the operation lies in its area. */
  predicate InArea(op: Op) { op.off + Length(op) <= op.area.size }

  predicate Within(area: Area, a: U32) { area.off <= a < area.off + area.size }

  /** The bounds test of a read or a write means what it says exactly when the end
      offset fits in 32 bits. */
  lemma BoundsTestIsExact(op: Op)
    requires Accepted(op) && !op.EraseRange?
    ensures InArea(op) <==> op.off + Length(op) < UINT32
  {
  }

  lemma RoundTheCorner(base: nat, d: nat)
    requires d < UINT32
    ensures ((base + d) % UINT32 - base % UINT32) % UINT32 == d
  {
    var x, y := base % UINT32, (base + d) % UINT32;
    assert (x + d) % UINT32 == y;
  }

  lemma InAreaCoversWithin(op: Op, a: U32)
    requires InArea(op) && Covers(op, a)
    ensures Within(op.area, a)
  {
    assert op.area.off + op.off < UINT32;
    assert Start(op) == op.area.off + op.off;
  }

  /** An accepted write or erase touches a byte outside its area exactly when its
      range does not lie in the area: for a write when the end offset wraps, for an
      erase, whose range is not tested, whenever it is too long. */
  lemma OverrunsExactly(op: Op)
    requires Accepted(op) && !op.Read? && Length(op) > 0
    ensures (exists a: U32 :: Covers(op, a) && !Within(op.area, a)) <==> !InArea(op)
  {
    if InArea(op) {
      forall a: U32 | Covers(op, a)
        ensures Within(op.area, a)
      {
        InAreaCoversWithin(op, a);
      }
    } else {
      var d := if op.off >= op.area.size then op.off else op.area.size;
      var a: U32 := (op.area.off + d) % UINT32;
      RoundTheCorner(op.area.off + op.off, d - op.off);
      assert Covers(op, a);
      OutsideArea(op.area, d);
    }
  }

  lemma OutsideArea(area: Area, d: nat)
    requires area.size <= d < UINT32
    ensures !Within(area, (area.off + d) % UINT32)
  {
  }

  /** Such a write: 4096 bytes at offset 0xFFFFF000 of the primary slot pass the test
      and go to the last page of the bootloader. */
  lemma WriteIntoBootloader(flash: Flash, data: Block, k: nat)
    requires |data| == PAGE && k < PAGE && |flash| >= 32 * 1024
    ensures var op := Write(AREAS[1], 0xFFFF_F000, data);
            && Accepted(op) && Within(AREAS[0], 0x7000 + k)
            && Apply(flash, op)[0x7000 + k] == Burn(flash[0x7000 + k], data[k])
  {
    hide Burn;
    var op := Write(AREAS[1], 0xFFFF_F000, data);
    assert Start(op) == 0x7000;
    assert Offset(op, 0x7000 + k) == k;
  }

  /** Such an erase: nine pages of an eight-page bootloader clear the first page of
      the primary slot. */
  lemma EraseIntoPrimary(flash: Flash, k: nat)
    requires k < PAGE && |flash| >= 36 * 1024
    ensures var op := EraseRange(AREAS[0], 0, 36 * 1024);
            Accepted(op) && Within(AREAS[1], 32 * 1024 + k) && Apply(flash, op)[32 * 1024 + k] == 0xFF
  {
    var op := EraseRange(AREAS[0], 0, 36 * 1024);
    assert Start(op) == 0;
    assert Offset(op, 32 * 1024 + k) == 32 * 1024 + k;
  }

  /** A run whose operations stay in their areas leaves every byte outside those
      areas as it was. */
  lemma OtherAreasUntouched(flash: Flash, ops: seq<Op>, a: U32)
    requires a < |flash|
    requires forall i | 0 <= i < |ops| :: InArea(ops[i]) && !Within(ops[i].area, a)
    ensures Run(flash, ops)[a] == flash[a]
  {
    hide Run, History;
    BytesAreIndependent(flash, ops, a);
    forall i | 0 <= i < |ops|
      ensures !Covers(ops[i], a)
    {
      if Covers(ops[i], a) {
        InAreaCoversWithin(ops[i], a);
      }
    }
    UncoveredKeepsHistory(flash[a], ops, a);
  }

  // ----- reading back

  lemma {:induction false} HistorySplits(was: Byte, before: seq<Op>, after: seq<Op>, a: U32)
    ensures History(was, before + after, a) == History(History(was, before, a), after, a)
    decreases before
  {
    if before == [] {
      assert before + after == after;
    } else {
      hide Touch;
      assert (before + after)[1..] == before[1..] + after;
      HistorySplits(Touch(was, before[0], a), before[1..], after, a);
    }
  }

  lemma HistoryOne(was: Byte, op: Op, a: U32)
    ensures History(was, [op], a) == Touch(was, op, a)
  {
    assert [op][1..] == [];
  }

  lemma BurnFresh(x: Byte)
    ensures Burn(0xFF, x) == x
  {
  }

  /** The `k`-th byte of a write survives whatever spares it, if the last erase or
      write to touch its place before was an erase. */
  lemma WrittenByte(flash: Flash, before: seq<Op>, erase: Op, between: seq<Op>, write: Op, after: seq<Op>, k: nat)
    requires write.Write? && Accepted(write) && k < |write.data| && Start(write) + k < |flash|
    requires erase.EraseRange? && Covers(erase, Start(write) + k)
    requires Spares(between, Start(write) + k) && Spares(after, Start(write) + k)
    ensures Run(flash, before + [erase] + between + [write] + after)[Start(write) + k] == write.data[k]
  {
    hide Run, History, Burn, Spares, Accepted;
    var a := Start(write) + k;
    assert Offset(write, a) == k;
    var was := flash[a];
    BytesAreIndependent(flash, before + [erase] + between + [write] + after, a);
    HistorySplits(was, before + [erase] + between + [write], after, a);
    HistorySplits(was, before + [erase] + between, [write], a);
    HistorySplits(was, before + [erase], between, a);
    HistorySplits(was, before, [erase], a);
    HistoryOne(History(was, before, a), erase, a);
    UncoveredKeepsHistory(0xFF, between, a);
    HistoryOne(0xFF, write, a);
    BurnFresh(write.data[k]);
    UncoveredKeepsHistory(write.data[k], after, a);
  }

  lemma SliceIs(r: seq<Byte>, base: nat, data: seq<Byte>)
    requires base + |data| <= |r| && forall k | 0 <= k < |data| :: r[base + k] == data[k]
    ensures r[base..base + |data|] == data
  {
  }

  /** The bytes from `base` on are `data`. */
  predicate Holds(flash: seq<Byte>, base: nat, data: seq<Byte>) {
    base + |data| <= |flash| && flash[base..base + |data|] == data
  }

  /** After an erase that covers what is written next, and anything else that stays
      clear of it, a read returns what was written. */
  lemma EraseWriteRead(flash: Flash, before: seq<Op>, erase: Op, between: seq<Op>, write: Op, after: seq<Op>)
    requires erase.EraseRange? && write.Write? && Accepted(write)
    requires Start(write) + |write.data| <= |flash|
    requires forall a | Start(write) <= a < Start(write) + |write.data| ::
               Covers(erase, a) && Spares(between, a) && Spares(after, a)
    ensures Holds(Run(flash, before + [erase] + between + [write] + after), Start(write), write.data)
  {
    hide Run, Covers, Spares, Accepted, Start;
    var r := Run(flash, before + [erase] + between + [write] + after);
    var base := Start(write);
    forall k | 0 <= k < |write.data|
      ensures r[base + k] == write.data[k]
    {
      assert Covers(erase, base + k);
      WrittenByte(flash, before, erase, between, write, after, k);
    }
    SliceIs(r, base, write.data);
  }

  // ----- the layer as it runs

  /** 0, -1, and a failed assertion. */
  datatype Outcome = Done | Refused | Trapped

  /** The bytes the operation addresses exist on a flash of this size. */
  predicate OnFlash(op: Op, size: nat) { Start(op) + Length(op) <= size }

  /** Which holds for operations in an area of the flash. */
  lemma InAreaOnFlash(op: Op, size: nat)
    requires InArea(op) && op.area.off + op.area.size <= size
    ensures OnFlash(op, size)
  {
  }

  /** On the flash an operation programs or erases one range. */
  lemma ApplyOnFlash(flash: Flash, op: Op)
    requires OnFlash(op, |flash|)
    ensures op.Read? || !Accepted(op) ==> Apply(flash, op) == flash
    ensures op.Write? && Accepted(op) ==> Apply(flash, op) == Program(flash, Start(op), op.data)
    ensures op.EraseRange? && Accepted(op) ==> Apply(flash, op) == Erase(flash, Start(op), op.len)
  {
    hide Burn, Accepted, Start;
    forall a | 0 <= a < |flash|
      ensures Offset(op, a) < Length(op) <==> Start(op) <= a < Start(op) + Length(op)
      ensures Start(op) <= a ==> Offset(op, a) == a - Start(op)
    {
    }
  }

  lemma RefusedChangesNothing(flash: Flash, op: Op)
    requires !Accepted(op)
    ensures Apply(flash, op) == flash
  {
  }

  /** A write reads back as the data exactly when every bit set in the data was
      still set in the flash. */
  predicate Programmable(flash: seq<Byte>, addr: nat, data: seq<Byte>)
    requires addr + |data| <= |flash|
  {
    forall i | 0 <= i < |data| :: flash[addr + i] & data[i] == data[i]
  }

  lemma ReadbackIsProgrammable(flash: seq<Byte>, addr: nat, data: seq<Byte>)
    requires addr + |data| <= |flash|
    ensures Program(flash, addr, data)[addr..addr + |data|] == data <==> Programmable(flash, addr, data)
  {
    var after := Program(flash, addr, data)[addr..addr + |data|];
    assert forall i | 0 <= i < |data| :: after[i] == flash[addr + i] & data[i];
    if after == data {
      assert forall i | 0 <= i < |data| :: after[i] == data[i];
    }
  }

  /** The operation fails its readback check. */
  predicate Traps(flash: Flash, op: Op)
    requires Accepted(op) ==> OnFlash(op, |flash|)
  {
    op.Write? && Accepted(op) && !Programmable(flash, Start(op), op.data)
  }

  /** What the operation hands to its caller. */
  function Output(flash: Flash, op: Op): seq<Byte>
    requires Accepted(op) ==> OnFlash(op, |flash|)
  {
    if op.Read? && Accepted(op) then flash[Start(op)..Start(op) + op.len] else []
  }

  /** `memcpy` from, and `memcmp` with, the memory-mapped flash. */
  method Load(nvmc: Nvmc, addr: nat, len: nat) returns (data: seq<Byte>)
    requires addr + len <= 4 * nvmc.words.Length
    ensures data == nvmc.Contents()[addr..addr + len]
  {
    data := [];
    for i := 0 to len
      invariant data == nvmc.Contents()[addr..addr + i]
    {
      data := data + [ByteOf(nvmc.words[(addr + i) / 4], (addr + i) % 4)];
    }
  }

  method ReadArea(nvmc: Nvmc, fa: Area, off: U32, len: U32) returns (r: Outcome, data: seq<Byte>)
    requires nvmc.Valid()
    requires Accepted(Read(fa, off, len)) ==> OnFlash(Read(fa, off, len), 4 * nvmc.words.Length)
    ensures r == if Accepted(Read(fa, off, len)) then Done else Refused
    ensures data == Output(nvmc.Contents(), Read(fa, off, len))
    ensures fa.device == INTERNAL_FLASH && off + len <= fa.size ==> r == Done
    ensures fa.device == INTERNAL_FLASH && off + len <= fa.size && fa.off + fa.size <= 4 * nvmc.words.Length ==>
              data == nvmc.Contents()[fa.off + off..fa.off + off + len]
    ensures r == Done && off + len < UINT32 ==> InArea(Read(fa, off, len))
  {
    hide Nvmc.Contents;
    data := [];
    if fa.device != INTERNAL_FLASH {
      return Refused, data;
    }
    var end := (off + len) % UINT32;
    if end > fa.size {
      return Refused, data;
    }
    data := Load(nvmc, (fa.off + off) % UINT32, len);
    return Done, data;
  }

  method WriteArea(nvmc: Nvmc, fa: Area, off: U32, src: Block) returns (r: Outcome)
    requires nvmc.Valid()
    requires Accepted(Write(fa, off, src)) ==> OnFlash(Write(fa, off, src), 4 * nvmc.words.Length)
    modifies nvmc, nvmc.words
    ensures nvmc.Valid() && nvmc.Contents() == Apply(old(nvmc.Contents()), Write(fa, off, src))
    ensures r == Refused <==> !Accepted(Write(fa, off, src))
    ensures r == Trapped <==> Traps(old(nvmc.Contents()), Write(fa, off, src))
    ensures fa.device == INTERNAL_FLASH && off + |src| <= fa.size ==> r != Refused
    ensures r != Refused && off + |src| < UINT32 ==> InArea(Write(fa, off, src))
  {
    hide Programmable, Program, Nvmc.Contents, Apply;
    ghost var op := Write(fa, off, src);
    if !Accepted(op) {
      RefusedChangesNothing(nvmc.Contents(), op);
    } else {
      ApplyOnFlash(nvmc.Contents(), op);
    }
    if fa.device != INTERNAL_FLASH {
      return Refused;
    }
    var end := (off + |src|) % UINT32;
    if end > fa.size {
      return Refused;
    }
    var addr := (fa.off + off) % UINT32;
    r := ProgramAndVerify(nvmc, addr, src);
  }

  method ProgramAndVerify(nvmc: Nvmc, addr: nat, src: seq<Byte>) returns (r: Outcome)
    requires nvmc.Valid() && addr + |src| <= 4 * nvmc.words.Length
    modifies nvmc, nvmc.words
    ensures nvmc.Valid() && nvmc.Contents() == Program(old(nvmc.Contents()), addr, src)
    ensures r == if Programmable(old(nvmc.Contents()), addr, src) then Done else Trapped
  {
    hide Programmable, Program, Nvmc.Contents;
    ReadbackIsProgrammable(nvmc.Contents(), addr, src);
    nvmc.Write(addr, src);
    var back := Load(nvmc, addr, |src|);
    if back != src {
      return Trapped;
    }
    return Done;
  }

  /** Unlike reads and writes, nothing here tests the range against the area. */
  method EraseArea(nvmc: Nvmc, fa: Area, off: U32, len: U32) returns (r: Outcome)
    requires nvmc.Valid()
    requires Accepted(EraseRange(fa, off, len)) ==> OnFlash(EraseRange(fa, off, len), 4 * nvmc.words.Length)
    modifies nvmc, nvmc.words
    ensures nvmc.Valid() && nvmc.Contents() == Apply(old(nvmc.Contents()), EraseRange(fa, off, len))
    ensures r == if Accepted(EraseRange(fa, off, len)) then Done else Refused
  {
    hide Nvmc.Contents, Erase, Apply;
    ghost var op := EraseRange(fa, off, len);
    if !Accepted(op) {
      RefusedChangesNothing(nvmc.Contents(), op);
    } else {
      ApplyOnFlash(nvmc.Contents(), op);
    }
    if fa.device != INTERNAL_FLASH {
      return Refused;
    }
    if len % PAGE != 0 || off % PAGE != 0 {
      return Refused;
    }
    var start := (fa.off + off) % UINT32;
    EraseAll(nvmc, start, len);
    var erased := ReadsErased(nvmc, start, len);
    if !erased {
      return Trapped;
    }
    return Done;
  }

  /** The erase loop. */
  method EraseAll(nvmc: Nvmc, start: nat, len: nat)
    requires nvmc.Valid() && start % PAGE == 0 && len % PAGE == 0 && start + len <= 4 * nvmc.words.Length
    modifies nvmc, nvmc.words
    ensures nvmc.Valid() && nvmc.Contents() == Erase(old(nvmc.Contents()), start, len)
  {
    hide Erase, Nvmc.Contents;
    ghost var before := nvmc.Contents();
    EraseNothing(before, start);
    var i := 0;
    while i < len
      invariant i % PAGE == 0 && i <= len
      invariant nvmc.Valid() && nvmc.Contents() == Erase(before, start, i)
    {
      EraseExtends(before, start, i, PAGE);
      nvmc.EraseSector(start + i);
      i := i + PAGE;
    }
  }

  /** The check loop after an erase. */
  method ReadsErased(nvmc: Nvmc, start: nat, len: nat) returns (ok: bool)
    requires start + len <= 4 * nvmc.words.Length
    ensures ok <==> forall a | start <= a < start + len :: nvmc.Contents()[a] == 0xFF
  {
    for i := 0 to len
      invariant forall a | start <= a < start + i :: nvmc.Contents()[a] == 0xFF
    {
      var val := ByteOf(nvmc.words[(start + i) / 4], (start + i) % 4);
      assert val == nvmc.Contents()[start + i];
      if val != 0xFF {
        return false;
      }
    }
    return true;
  }

  lemma EraseNothing(flash: seq<Byte>, addr: nat)
    ensures Erase(flash, addr, 0) == flash
  {
  }

  // ----- the round trip inside the areas

  /** The operation leaves the addresses from `lo` up to `hi` alone: it is a read, or it
      stays in its area and on one side of them. */
  predicate KeepsOff(op: Op, lo: nat, hi: nat) {
    || op.Read?
    || (InArea(op) && (op.area.off + op.off + Length(op) <= lo || hi <= op.area.off + op.off))
  }

  lemma KeptOff(ops: seq<Op>, lo: nat, hi: nat, a: U32)
    requires forall i | 0 <= i < |ops| :: KeepsOff(ops[i], lo, hi)
    requires lo <= a < hi
    ensures Spares(ops, a)
  {
    forall i | 0 <= i < |ops|
      ensures !Covers(ops[i], a)
    {
      if InArea(ops[i]) && ops[i].area.off + ops[i].off < UINT32 {
        OffsetInArea(ops[i], a);
      }
    }
  }

  lemma OffsetInArea(op: Op, a: U32)
    requires InArea(op) && op.area.off + op.off < UINT32
    ensures Offset(op, a) < Length(op) <==> op.area.off + op.off <= a < op.area.off + op.off + Length(op)
  {
    assert Start(op) == op.area.off + op.off;
    if a < Start(op) {
      assert (a - Start(op)) % UINT32 == a - Start(op) + UINT32;
    }
  }

  lemma InAreaCovers(erase: Op, write: Op, a: U32)
    requires erase.EraseRange? && write.Write? && erase.area == write.area && erase.area.device == 0
    requires erase.off % 4096 == 0 && erase.len % 4096 == 0 && InArea(erase)
    requires erase.off <= write.off && write.off + |write.data| <= erase.off + erase.len
    requires write.area.off + write.off <= a < write.area.off + write.off + |write.data|
    ensures Covers(erase, a)
  {
    OffsetInArea(erase, a);
  }

  lemma InAreaAccepted(op: Op)
    requires op.area.device == 0 && InArea(op) && !op.EraseRange? && Length(op) > 0
    ensures Accepted(op) && Start(op) == op.area.off + op.off
  {
  }

  /** The run of an erase and a write with any operations before, between and after. */
  function RunAround(flash: Flash, before: seq<Op>, erase: Op, between: seq<Op>, write: Op, after: seq<Op>): (r: Flash)
    ensures |r| == |flash|
  {
    Run(flash, before + [erase] + between + [write] + after)
  }

  lemma WriteLeaves(flash: Flash, before: seq<Op>, erase: Op, between: seq<Op>, write: Op, after: seq<Op>)
    requires erase.EraseRange? && write.Write? && Accepted(write)
    requires Start(write) + |write.data| <= |flash|
    requires forall a | Start(write) <= a < Start(write) + |write.data| ::
               Covers(erase, a) && Spares(between, a) && Spares(after, a)
    ensures Holds(RunAround(flash, before, erase, between, write, after), Start(write), write.data)
  {
    hide Covers, Spares, Accepted, Start, Holds, Apply;
    EraseWriteRead(flash, before, erase, between, write, after);
  }

  /** What is written inside an internal area, over pages erased before, is what is
      found there, whatever else keeps off it meanwhile. */
  lemma InAreaWriteStays(flash: Flash, erase: Op, write: Op, before: seq<Op>, between: seq<Op>, after: seq<Op>)
    requires erase.EraseRange? && write.Write? && erase.area == write.area && erase.area.device == 0
    requires erase.off % 4096 == 0 && erase.len % 4096 == 0 && InArea(erase)
    requires erase.off <= write.off && write.off + |write.data| <= erase.off + erase.len
    requires erase.area.off + erase.area.size <= |flash| && write.data != []
    requires var lo := write.area.off + write.off;
             && (forall i | 0 <= i < |between| :: KeepsOff(between[i], lo, lo + |write.data|))
             && (forall i | 0 <= i < |after| :: KeepsOff(after[i], lo, lo + |write.data|))
    ensures Holds(RunAround(flash, before, erase, between, write, after), write.area.off + write.off, write.data)
  {
    InAreaAccepted(write);
    hide RunAround, Holds, Spares, KeepsOff, Covers, Accepted, Start;
    var lo := write.area.off + write.off;
    var hi := lo + |write.data|;
    forall a | lo <= a < hi
      ensures Covers(erase, a) && Spares(between, a) && Spares(after, a)
    {
      InAreaCovers(erase, write, a);
      KeptOff(between, lo, hi, a);
      KeptOff(after, lo, hi, a);
    }
    WriteLeaves(flash, before, erase, between, write, after);
  }

  lemma ReadsWhatIsHeld(flash: Flash, fa: Area, off: U32, data: Block)
    requires fa.device == 0 && off + |data| <= fa.size && fa.off + fa.size <= |flash|
    requires Holds(flash, fa.off + off, data)
    ensures OnFlash(Read(fa, off, |data|), |flash|) && Output(flash, Read(fa, off, |data|)) == data
  {
    InAreaOnFlash(Read(fa, off, |data|), |flash|);
    if data != [] {
      InAreaAccepted(Read(fa, off, |data|));
    }
  }

  /** So a read of the same range returns it. */
  lemma InAreaRoundTrip(flash: Flash, fa: Area, eoff: U32, elen: U32, off: U32, data: Block,
                        before: seq<Op>, between: seq<Op>, after: seq<Op>)
    requires fa.device == 0 && eoff % 4096 == 0 && elen % 4096 == 0
    requires eoff <= off && off + |data| <= eoff + elen <= fa.size && fa.off + fa.size <= |flash|
    requires forall i | 0 <= i < |between| :: KeepsOff(between[i], fa.off + off, fa.off + off + |data|)
    requires forall i | 0 <= i < |after| :: KeepsOff(after[i], fa.off + off, fa.off + off + |data|)
    ensures var r := RunAround(flash, before, EraseRange(fa, eoff, elen), between, Write(fa, off, data), after);
            OnFlash(Read(fa, off, |data|), |r|) && Output(r, Read(fa, off, |data|)) == data
  {
    hide RunAround, KeepsOff, Output, Accepted;
    var erase, write := EraseRange(fa, eoff, elen), Write(fa, off, data);
    var r := RunAround(flash, before, erase, between, write, after);
    if data == [] {
      assert fa.off + off <= |r|;
    } else {
      hide Holds;
      InAreaWriteStays(flash, erase, write, before, between, after);
    }
    ReadsWhatIsHeld(r, fa, off, data);
  }

  // ----- sequences of calls

  /** Operations that address existing bytes, if they are accepted. */
  predicate AllOnFlash(ops: seq<Op>, size: nat) {
    forall i | 0 <= i < |ops| && Accepted(ops[i]) :: OnFlash(ops[i], size)
  }

  /** Everything a run hands to its callers, in order. */
  function Outputs(flash: Flash, ops: seq<Op>): seq<Byte>
    requires AllOnFlash(ops, |flash|)
    decreases ops
  {
    if ops == [] then [] else Output(flash, ops[0]) + Outputs(Apply(flash, ops[0]), ops[1..])
  }

  lemma {:induction false} RunOneMore(flash: Flash, ops: seq<Op>, op: Op)
    requires AllOnFlash(ops + [op], |flash|)
    ensures AllOnFlash(ops, |flash|) && (Accepted(op) ==> OnFlash(op, |flash|))
    ensures Run(flash, ops + [op]) == Apply(Run(flash, ops), op)
    ensures Outputs(flash, ops + [op]) == Outputs(flash, ops) + Output(Run(flash, ops), op)
    decreases ops
  {
    hide Apply, Output, Accepted, OnFlash;
    var more := ops + [op];
    assert more[|ops|] == op;
    assert forall i | 0 <= i < |ops| :: more[i] == ops[i];
    if ops == [] {
      assert more[1..] == [];
    } else {
      assert more[1..] == ops[1..] + [op];
      RunOneMore(Apply(flash, ops[0]), ops[1..], op);
    }
  }

  /** One operation, by the call that performs it. */
  method Perform(nvmc: Nvmc, op: Op) returns (r: Outcome, data: seq<Byte>)
    requires nvmc.Valid() && (Accepted(op) ==> OnFlash(op, 4 * nvmc.words.Length))
    modifies nvmc, nvmc.words
    ensures nvmc.Valid() && nvmc.Contents() == Apply(old(nvmc.Contents()), op)
    ensures r == Refused <==> !Accepted(op)
    ensures r == Trapped <==> Traps(old(nvmc.Contents()), op)
    ensures data == Output(old(nvmc.Contents()), op)
  {
    hide Apply, Nvmc.Contents, Accepted, OnFlash, Programmable;
    data := [];
    match op
    case Read(area, off, len) =>
      ReadKeeps(nvmc.Contents(), op);
      r, data := ReadArea(nvmc, area, off, len);
    case Write(area, off, src) =>
      r := WriteArea(nvmc, area, off, src);
    case EraseRange(area, off, len) =>
      r := EraseArea(nvmc, area, off, len);
  }

  lemma ReadKeeps(flash: Flash, op: Op)
    requires op.Read?
    ensures Apply(flash, op) == flash
  {
  }

  /** Any sequence of calls computes the run, up to a write that fails its readback
      check; the controller is back in read mode, without fault, after each. */
  method Session(nvmc: Nvmc, ops: seq<Op>) returns (done: nat, trapped: bool, data: seq<Byte>)
    requires nvmc.Valid() && AllOnFlash(ops, 4 * nvmc.words.Length)
    modifies nvmc, nvmc.words
    ensures nvmc.Valid() && done <= |ops| && (trapped || done == |ops|)
    ensures nvmc.Contents() == Run(old(nvmc.Contents()), ops[..done])
    ensures data == Outputs(old(nvmc.Contents()), ops[..done])
    ensures forall i | 0 <= i < done ::
              Traps(Run(old(nvmc.Contents()), ops[..i]), ops[i]) <==> trapped && i == done - 1
    ensures trapped ==> done > 0
  {
    hide Nvmc.Contents, Run, Outputs, Output, Apply, Traps, Accepted, OnFlash;
    ghost var flash := nvmc.Contents();
    done, trapped, data := 0, false, [];
    EmptyRun(flash);
    assert ops[..0] == [];
    while done < |ops| && !trapped
      invariant nvmc.Valid() && done <= |ops|
      invariant nvmc.Contents() == Run(flash, ops[..done])
      invariant data == Outputs(flash, ops[..done])
      invariant forall i | 0 <= i < done :: Traps(Run(flash, ops[..i]), ops[i]) <==> trapped && i == done - 1
      invariant trapped ==> done > 0
      decreases |ops| - done
    {
      assert ops[..done] + [ops[done]] == ops[..done + 1];
      RunOneMore(flash, ops[..done], ops[done]);
      var r, out := Perform(nvmc, ops[done]);
      data := data + out;
      trapped := r == Trapped;
      done := done + 1;
    }
  }

  lemma EmptyRun(flash: Flash)
    ensures Run(flash, []) == flash && Outputs(flash, []) == []
  {
  }

  // ----- sectors

  datatype Sector = Sector(off: nat, size: nat)

  function SectorCount(size: nat): nat { (size + PAGE - 1) / PAGE }

  function Sectors(size: nat): (s: seq<Sector>)
    ensures |s| == SectorCount(size)
    ensures forall k | 0 <= k < |s| :: s[k] == Sector(PAGE * k, PAGE)
  {
    seq(SectorCount(size), k requires 0 <= k => Sector(PAGE * k, PAGE))
  }

  /** `flash_area_get_sectors`; the caller provides room for the sectors and an
      identifier that the table knows.  The offset is a 32-bit one, and the loop would
      not end for an area whose last page has no address after it. */
  method GetSectors(areas: seq<Area>, faId: int, sectors: array<Sector>) returns (r: Outcome, count: nat)
    requires FindArea(areas, faId % 256).Found?
    requires FindArea(areas, faId % 256).area.size <= UINT32 - PAGE
    requires sectors.Length >= SectorCount(FindArea(areas, faId % 256).area.size)
    modifies sectors
    ensures var fa := FindArea(areas, faId % 256).area;
            && r == (if fa.device == INTERNAL_FLASH then Done else Refused)
            && count == (if r == Done then SectorCount(fa.size) else 0)
            && (r == Done ==> sectors[..count] == Sectors(fa.size))
    ensures sectors[count..] == old(sectors[..])[count..]
  {
    var found := LookupArea(areas, faId);
    var fa := found.area;
    count := 0;
    if fa.device != INTERNAL_FLASH {
      return Refused, 0;
    }
    var off := 0;
    while off < fa.size
      invariant off == PAGE * count && count <= SectorCount(fa.size)
      decreases SectorCount(fa.size) - count
      invariant forall k | 0 <= k < count :: sectors[k] == Sector(PAGE * k, PAGE)
      invariant forall k | count <= k < sectors.Length :: sectors[k] == old(sectors[k])
    {
      sectors[count] := Sector(off, PAGE);
      count := count + 1;
      off := (off + PAGE) % UINT32;
    }
    return Done, count;
  }

  /** The sectors are contiguous from the start of the area, and cover it exactly
      when its size is a whole number of pages; otherwise the last one overhangs. */
  lemma SectorsTile(size: nat)
    ensures var s := Sectors(size);
            && (s != [] ==> s[0].off == 0)
            && (forall k | 0 <= k < |s| - 1 :: s[k].off + s[k].size == s[k + 1].off)
            && (s != [] ==> s[|s| - 1].off < size <= s[|s| - 1].off + s[|s| - 1].size)
            && (size % PAGE == 0 <==> PAGE * |s| == size)
  {
  }

  function EraseSectors(flash: seq<Byte>, base: nat, sectors: seq<Sector>): seq<Byte>
    decreases sectors
  {
    if sectors == [] then flash
    else EraseSectors(Erase(flash, base + sectors[0].off, sectors[0].size), base, sectors[1..])
  }

  lemma {:induction false} EraseRun(flash: seq<Byte>, base: nat, sectors: seq<Sector>, from: nat)
    requires forall k | 0 <= k < |sectors| :: sectors[k] == Sector(from + PAGE * k, PAGE)
    ensures EraseSectors(flash, base, sectors) == Erase(flash, base + from, PAGE * |sectors|)
    decreases sectors
  {
    if sectors == [] {
      EraseNothing(flash, base + from);
    } else {
      EraseRun(Erase(flash, base + from, PAGE), base, sectors[1..], from + PAGE);
      EraseExtends(flash, base + from, PAGE, PAGE * |sectors[1..]|);
    }
  }

  lemma CoversWholeArea(fa: Area, a: U32)
    requires fa.device == INTERNAL_FLASH && fa.size % PAGE == 0
    ensures Covers(EraseRange(fa, 0, fa.size), a) <==> fa.off <= a < fa.off + fa.size
  {
    assert Start(EraseRange(fa, 0, fa.size)) == fa.off;
    if a < fa.off {
      assert (a - fa.off) % UINT32 == a - fa.off + UINT32;
    }
  }

  lemma EraseWholeArea(flash: Flash, fa: Area)
    requires fa.device == INTERNAL_FLASH && fa.size % PAGE == 0
    ensures Apply(flash, EraseRange(fa, 0, fa.size)) == Erase(flash, fa.off, fa.size)
  {
    hide Covers, Apply, Erase;
    var op := EraseRange(fa, 0, fa.size);
    forall a | 0 <= a < |flash|
      ensures Apply(flash, op)[a] == Erase(flash, fa.off, fa.size)[a]
    {
      CoversWholeArea(fa, a);
    }
  }

  /** Erasing an area sector by sector is erasing it whole. */
  lemma SectorBySector(flash: Flash, fa: Area)
    requires fa.device == INTERNAL_FLASH && fa.size % PAGE == 0
    ensures EraseSectors(flash, fa.off, Sectors(fa.size)) == Apply(flash, EraseRange(fa, 0, fa.size))
  {
    hide Apply, Erase;
    EraseWholeArea(flash, fa);
    SectorsTile(fa.size);
    EraseRun(flash, fa.off, Sectors(fa.size), 0);
  }
}
