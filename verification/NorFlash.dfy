/** The flash controller and the byte writer on top of it.

    The part is NOR flash: a word store can only clear bits, an erase sets a whole
    page to ones, and each needs its own controller mode.  `& 3` and `& ~3` on an
    address are its remainder modulo four and the word address below it. */
module NorFlash {
  type Byte = bv8
  type Word = bv32

  const PAGE: nat := 4096
  const PAGE_WORDS: nat := 1024
  const UINT32: nat := 0x1_0000_0000

  const READ_ONLY: Word := 0
  const WRITE_ENABLE: Word := 1
  const ERASE_ENABLE: Word := 2

  // ----- bytes in words

  /** A byte position as a word, and what the source shifts by. */
  function Position(k: nat): (p: Word)
    requires k < 4
    ensures p < 4
  {
    if k == 0 then 0 else if k == 1 then 1 else if k == 2 then 2 else 3
  }

  function ByteAt(w: Word, p: Word): Byte
    requires p < 4
  {
    ((w >> (p << 3)) & 0xFF) as Byte
  }

  function ByteOf(w: Word, k: nat): Byte
    requires k < 4
  {
    ByteAt(w, Position(k))
  }

  /** The byte at the lowest address is the least significant one. */
  lemma LittleEndian(w: Word)
    ensures ByteOf(w, 0) == (w & 0xFF) as Byte
    ensures ByteOf(w, 1) == ((w >> 8) & 0xFF) as Byte
    ensures ByteOf(w, 2) == ((w >> 16) & 0xFF) as Byte
    ensures ByteOf(w, 3) == ((w >> 24) & 0xFF) as Byte
  {
  }

  /** The new word value computed by `prv_write_byte`: the byte masked out, the new
      value added in its place. */
  function Merge(w: Word, byteShift: Word, v: Byte): Word
    requires byteShift < 4
  {
    (w & !((0xFF as Word) << (byteShift << 3))) + ((v as Word) << (byteShift << 3))
  }

  /** The addition cannot carry: it is a bitwise or. */
  lemma MergeDoesNotCarry(w: Word, p: Word, v: Byte)
    requires p < 4
    ensures Merge(w, p, v) == (w & !((0xFF as Word) << (p << 3))) | ((v as Word) << (p << 3))
  {
  }

  /** So it sets one byte and leaves the other three as they were. */
  lemma MergeSetsOneByte(w: Word, p: Word, v: Byte, q: Word)
    requires p < 4 && q < 4
    ensures q == p ==> ByteAt(Merge(w, p, v), q) == v
    ensures q != p ==> ByteAt(Merge(w, p, v), q) == ByteAt(w, q)
  {
  }

  /** What programming makes of a byte: bits can only be cleared. */
  function Burn(was: Byte, now: Byte): Byte { was & now }

  /** Storing the merged word programs that byte ... */
  lemma StoreBurnsTheByte(w: Word, p: Word, v: Byte)
    requires p < 4
    ensures ByteAt(w & Merge(w, p, v), p) == Burn(ByteAt(w, p), v)
  {
  }

  /** ... and no other. */
  lemma StoreKeepsTheOthers(w: Word, p: Word, v: Byte, q: Word)
    requires p < 4 && q < 4 && p != q
    ensures ByteAt(w & Merge(w, p, v), q) == ByteAt(w, q)
  {
  }

  lemma PositionsDiffer(k: nat, m: nat)
    requires k < 4 && m < 4
    ensures Position(k) == Position(m) <==> k == m
  {
  }

  lemma ByteOfOnes(k: nat)
    requires k < 4
    ensures ByteOf(0xFFFF_FFFF, k) == 0xFF
  {
  }

  /** The memory-mapped view, little-endian. */
  function Bytes(words: seq<Word>): (bytes: seq<Byte>)
    ensures |bytes| == 4 * |words|
    ensures forall a | 0 <= a < |bytes| :: bytes[a] == ByteOf(words[a / 4], a % 4)
  {
    seq(4 * |words|, a requires 0 <= a < 4 * |words| => ByteOf(words[a / 4], a % 4))
  }

  // ----- what the operations do to the bytes

  /** Programming `data` at `addr`: every byte written becomes old AND new. */
  function Program(flash: seq<Byte>, addr: nat, data: seq<Byte>): (r: seq<Byte>)
    ensures |r| == |flash|
    ensures forall a | 0 <= a < |flash| ::
              r[a] == if addr <= a < addr + |data| then Burn(flash[a], data[a - addr]) else flash[a]
  {
    seq(|flash|, a requires 0 <= a < |flash| =>
      if addr <= a < addr + |data| then Burn(flash[a], data[a - addr]) else flash[a])
  }

  function Erase(flash: seq<Byte>, addr: nat, len: nat): (r: seq<Byte>)
    ensures |r| == |flash|
    ensures forall a | 0 <= a < |flash| :: r[a] == if addr <= a < addr + len then 0xFF else flash[a]
  {
    seq(|flash|, a requires 0 <= a < |flash| => if addr <= a < addr + len then 0xFF else flash[a])
  }

  lemma ProgramNothing(flash: seq<Byte>, addr: nat)
    ensures Program(flash, addr, []) == flash
  {
  }

  lemma ProgramExtends(flash: seq<Byte>, addr: nat, data: seq<Byte>, v: Byte)
    ensures Program(Program(flash, addr, data), addr + |data|, [v]) == Program(flash, addr, data + [v])
  {
    hide *;
  }

  lemma EraseExtends(flash: seq<Byte>, addr: nat, len: nat, more: nat)
    ensures Erase(Erase(flash, addr, len), addr + len, more) == Erase(flash, addr, len + more)
  {
  }

  // ----- the controller

  class Nvmc {
    const words: array<Word>
    var config: Word
    /** A store or an erase was attempted in the wrong mode. */
    var fault: bool

    ghost predicate Valid()
      reads this
    {
      && words.Length % PAGE_WORDS == 0 && 4 * words.Length <= UINT32
      && config == READ_ONLY && !fault
    }

    ghost function Contents(): (bytes: seq<Byte>)
      reads this, words
      ensures |bytes| == 4 * words.Length
    {
      Bytes(words[..])
    }

    constructor (pages: nat)
      requires pages * PAGE <= UINT32
      ensures Valid() && fresh(words) && words.Length == pages * PAGE_WORDS
    {
      words := new Word[pages * PAGE_WORDS];
      config := READ_ONLY;
      fault := false;
    }

    /** Hardware: a word store through the memory map. */
    method Store(index: nat, value: Word)
      requires index < words.Length
      modifies this`fault, words
      ensures config == WRITE_ENABLE ==> words[..] == old(words[..])[index := old(words[index]) & value]
      ensures config == WRITE_ENABLE ==> fault == old(fault)
      ensures config != WRITE_ENABLE ==> words[..] == old(words[..]) && fault
    {
      if config == WRITE_ENABLE {
        words[index] := words[index] & value;
      } else {
        fault := true;
      }
    }

    /** Hardware: a write of a page's address to ERASEPAGE. */
    method ErasePage(addr: nat)
      requires addr / PAGE * PAGE_WORDS + PAGE_WORDS <= words.Length
      modifies this`fault, words
      ensures config == ERASE_ENABLE ==> fault == old(fault)
      ensures config == ERASE_ENABLE ==> forall i | 0 <= i < words.Length ::
                words[i] == if i / PAGE_WORDS == addr / PAGE then 0xFFFF_FFFF else old(words[i])
      ensures config != ERASE_ENABLE ==> words[..] == old(words[..]) && fault
    {
      if config == ERASE_ENABLE {
        forall i | 0 <= i < words.Length && i / PAGE_WORDS == addr / PAGE {
          words[i] := 0xFFFF_FFFF;
        }
      } else {
        fault := true;
      }
    }

    /** `prv_write_byte` refines the programming of one byte. */
    method WriteByte(address: nat, value: Byte)
      requires Valid() && address < 4 * words.Length
      modifies this, words
      ensures Valid() && Contents() == Program(old(Contents()), address, [value])
    {
      var byteShift := address % 4;
      var index := (address - byteShift) / 4;
      hide Bytes, Program, Position, Merge;
      var value32 := Merge(words[index], Position(byteShift), value);
      config := WRITE_ENABLE;
      Store(index, value32);
      config := READ_ONLY;
      StoredBytes(old(words[..]), address, value);
    }

    /** `example_internal_flash_write`. */
    method Write(addr: nat, data: seq<Byte>)
      requires Valid() && addr + |data| <= 4 * words.Length
      modifies this, words
      ensures Valid() && Contents() == Program(old(Contents()), addr, data)
    {
      hide Bytes, Program;
      ghost var before := Contents();
      ProgramNothing(before, addr);
      for i := 0 to |data|
        invariant Valid() && Contents() == Program(before, addr, data[..i])
      {
        WriteByte(addr + i, data[i]);
        ProgramExtends(before, addr, data[..i], data[i]);
        assert data[..i] + [data[i]] == data[..i + 1];
      }
      assert data[..|data|] == data;
    }

    /** `example_internal_flash_erase_sector`. */
    method EraseSector(addr: nat)
      requires Valid() && addr % PAGE == 0 && addr + PAGE <= 4 * words.Length
      modifies this, words
      ensures Valid() && Contents() == Erase(old(Contents()), addr, PAGE)
    {
      config := ERASE_ENABLE;
      ErasePage(addr);
      config := READ_ONLY;
      ErasedBytes(old(words[..]), words[..], addr);
    }
  }

  /** The word that `WriteByte` stores. */
  function StoredWord(w: Word, k: nat, v: Byte): Word
    requires k < 4
  {
    w & Merge(w, Position(k), v)
  }

  lemma StoredByte(w: Word, k: nat, v: Byte, m: nat)
    requires k < 4 && m < 4
    ensures ByteOf(StoredWord(w, k, v), m) == if k == m then Burn(ByteOf(w, m), v) else ByteOf(w, m)
  {
    if k == m {
      StoreBurnsTheByte(w, Position(k), v);
    } else {
      PositionsDiffer(k, m);
      StoreKeepsTheOthers(w, Position(k), v, Position(m));
    }
  }

  lemma StoredBytes(words: seq<Word>, address: nat, v: Byte)
    requires address < 4 * |words|
    ensures var i := address / 4;
            Bytes(words[i := StoredWord(words[i], address % 4, v)]) == Program(Bytes(words), address, [v])
  {
    hide *;
    var i, k := address / 4, address % 4;
    assert address == 4 * i + k;
    var x, y := Bytes(words[i := StoredWord(words[i], k, v)]), Program(Bytes(words), address, [v]);
    forall a | 0 <= a < |x|
      ensures x[a] == y[a]
    {
      assert a == 4 * (a / 4) + a % 4;
      StoredByte(words[i], k, v, a % 4);
    }
  }

  lemma ErasedBytes(words: seq<Word>, after: seq<Word>, addr: nat)
    requires |words| == |after| && addr % PAGE == 0
    requires forall i | 0 <= i < |words| ::
               after[i] == if i / PAGE_WORDS == addr / PAGE then 0xFFFF_FFFF else words[i]
    ensures Bytes(after) == Erase(Bytes(words), addr, PAGE)
  {
    forall a | 0 <= a < 4 * |words|
      ensures Bytes(after)[a] == Erase(Bytes(words), addr, PAGE)[a]
    {
      ByteOfOnes(a % 4);
      PageOfByte(a, addr);
    }
  }

  lemma PageOfByte(a: nat, addr: nat)
    requires addr % PAGE == 0
    ensures (a / 4) / PAGE_WORDS == addr / PAGE <==> addr <= a < addr + PAGE
  {
    assert (a / 4) / PAGE_WORDS == a / PAGE;
  }
}
