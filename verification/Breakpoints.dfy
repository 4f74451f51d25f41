/** The flash patch and breakpoint unit: control and comparator registers, how
    `fpb.c` encodes a breakpoint into one and reads it back, and what the registers
    mean after any run of calls.

    Register behaviour follows section C1.11 of the ARMv7-M Architecture Reference
    Manual: a write of FP_CTRL without its KEY bit is ignored, and of the control
    register only ENABLE can be written. */
module Breakpoints {
  type Reg = bv32

  const CODE_END: Reg := 0x2000_0000

  // ----- register fields

  predicate On(ctrl: Reg) { ctrl & 1 != 0 }

  function Revision(ctrl: Reg): Reg { (ctrl >> 28) & 0xF }

  function CodeField(ctrl: Reg): Reg { (((ctrl >> 12) & 0x7) << 4) | ((ctrl >> 4) & 0xF) }

  function LiteralField(ctrl: Reg): Reg { (ctrl >> 8) & 0xF }

  function NumCode(ctrl: Reg): nat { CodeField(ctrl) as nat }

  function NumLiteral(ctrl: Reg): nat { LiteralField(ctrl) as nat }

  /** Hardware: what a write of `v` leaves in FP_CTRL.  ENABLE is bit 0; KEY is
      bit 1 and reads as zero. */
  function Written(ctrl: Reg, v: Reg): Reg {
    if v & 0x2 == 0 then ctrl else (ctrl & !0x3) | (v & 0x1)
  }

  function EnableValue(ctrl: Reg): Reg { ctrl | 0x3 }

  function DisableValue(ctrl: Reg): Reg { (ctrl & !0x3) | 0x2 }

  predicate SameUnit(x: Reg, y: Reg) {
    Revision(x) == Revision(y) && CodeField(x) == CodeField(y) && LiteralField(x) == LiteralField(y)
  }

  /** A control register from its fields: ENABLE in bit 0, the number of code
      comparators in bits 4 to 7 and 12 to 14, that of literal comparators in bits 8 to
      11, the revision in bits 28 to 31. */
  function FromFields(on: Reg, code: Reg, literal: Reg, revision: Reg): Reg {
    (revision << 28) | ((code >> 4) << 12) | (literal << 8) | ((code & 0xF) << 4) | on
  }

  lemma RevisionIsRead(on: Reg, code: Reg, literal: Reg, revision: Reg)
    requires on < 2 && code < 128 && literal < 16 && revision < 16
    ensures Revision(FromFields(on, code, literal, revision)) == revision
  {
  }

  lemma CodeIsRead(on: Reg, code: Reg, literal: Reg, revision: Reg)
    requires on < 2 && code < 128 && literal < 16 && revision < 16
    ensures CodeField(FromFields(on, code, literal, revision)) == code
  {
  }

  lemma LiteralIsRead(on: Reg, code: Reg, literal: Reg, revision: Reg)
    requires on < 2 && code < 128 && literal < 16 && revision < 16
    ensures LiteralField(FromFields(on, code, literal, revision)) == literal
  {
  }

  lemma OnIsRead(on: Reg, code: Reg, literal: Reg, revision: Reg)
    requires on < 2 && code < 128 && literal < 16 && revision < 16
    ensures On(FromFields(on, code, literal, revision)) <==> on == 1
  {
  }

  /** The fields are read back from where they are. */
  lemma FieldsAreRead(on: Reg, code: Reg, literal: Reg, revision: Reg)
    requires on < 2 && code < 128 && literal < 16 && revision < 16
    ensures var ctrl := FromFields(on, code, literal, revision);
            && (On(ctrl) <==> on == 1) && NumCode(ctrl) == code as nat
            && NumLiteral(ctrl) == literal as nat && Revision(ctrl) == revision
  {
    RevisionIsRead(on, code, literal, revision);
    CodeIsRead(on, code, literal, revision);
    LiteralIsRead(on, code, literal, revision);
    OnIsRead(on, code, literal, revision);
    hide FromFields, On, CodeField, LiteralField, Revision;
  }

  /** The read-only fields lie above the low four bits. */
  lemma FieldsAreHigh(x: Reg, y: Reg)
    requires x >> 4 == y >> 4
    ensures SameUnit(x, y)
  {
  }

  lemma EnableValueIsHigh(ctrl: Reg)
    ensures EnableValue(ctrl) >> 4 == ctrl >> 4
  {
  }

  lemma EnableIsWritten(ctrl: Reg)
    ensures Written(ctrl, EnableValue(ctrl)) == (ctrl & !0x3) | 0x1
  {
  }

  lemma EnabledIsHigh(ctrl: Reg)
    ensures ((ctrl & !0x3) | 0x1) >> 4 == ctrl >> 4
  {
  }

  lemma EnabledIsOn(ctrl: Reg)
    ensures On((ctrl & !0x3) | 0x1)
  {
  }

  /** Enabling carries the key, turns the unit on, and writes back the read-only
      fields as they are. */
  lemma EnableWorks(ctrl: Reg)
    ensures On(Written(ctrl, EnableValue(ctrl)))
    ensures SameUnit(Written(ctrl, EnableValue(ctrl)), ctrl)
    ensures SameUnit(EnableValue(ctrl), ctrl)
  {
    hide *;
    EnableValueIsHigh(ctrl);
    EnableIsWritten(ctrl);
    EnabledIsHigh(ctrl);
    EnabledIsOn(ctrl);
    FieldsAreHigh(EnableValue(ctrl), ctrl);
    FieldsAreHigh((ctrl & !0x3) | 0x1, ctrl);
  }

  lemma DisableValueIsHigh(ctrl: Reg)
    ensures DisableValue(ctrl) >> 4 == ctrl >> 4
  {
  }

  lemma DisableCarriesKey(ctrl: Reg)
    ensures DisableValue(ctrl) & 0x2 == 0x2
  {
  }

  lemma DisableClearsEnable(ctrl: Reg)
    ensures DisableValue(ctrl) & 0x1 == 0
  {
  }

  lemma DisableIsWritten(ctrl: Reg)
    ensures Written(ctrl, DisableValue(ctrl)) == ctrl & !0x3
  {
    hide DisableValue, Written;
    DisableCarriesKey(ctrl);
    DisableClearsEnable(ctrl);
    WrittenWithKey(ctrl, DisableValue(ctrl));
    OrNothing(ctrl & !0x3);
  }

  lemma WrittenWithKey(ctrl: Reg, v: Reg)
    requires v & 0x2 == 0x2
    ensures Written(ctrl, v) == (ctrl & !0x3) | (v & 0x1)
  {
  }

  lemma OrNothing(x: Reg)
    ensures x | 0 == x
  {
  }

  lemma DisabledIsHigh(ctrl: Reg)
    ensures (ctrl & !0x3) >> 4 == ctrl >> 4
  {
  }

  lemma DisabledIsOff(ctrl: Reg)
    ensures !On(ctrl & !0x3)
  {
  }

  lemma DisableWorks(ctrl: Reg)
    ensures !On(Written(ctrl, DisableValue(ctrl)))
    ensures SameUnit(Written(ctrl, DisableValue(ctrl)), ctrl)
    ensures SameUnit(DisableValue(ctrl), ctrl)
  {
    hide *;
    DisableValueIsHigh(ctrl);
    DisableIsWritten(ctrl);
    DisabledIsHigh(ctrl);
    DisabledIsOff(ctrl);
    FieldsAreHigh(DisableValue(ctrl), ctrl);
    FieldsAreHigh(ctrl & !0x3, ctrl);
  }

  // ----- comparators

  datatype Comparator = Comparator(enabled: bool, replace: Reg, address: Reg)

  /** REPLACE: the lower or the upper halfword of the word at the address. */
  function Halfword(addr: Reg): Reg { if addr & 0x2 == 0 then 1 else 2 }

  function Encode(addr: Reg): Reg { (addr & !0x3) | 0x1 | (Halfword(addr) << 30) }

  function Decode(comp: Reg): Comparator {
    var replace := comp >> 30;
    var word := comp & 0x1FFF_FFFC;
    Comparator(comp & 0x1 != 0, replace, if replace == 0x2 then word | 0x2 else word)
  }

  /** Reading a programmed comparator gives back the instruction's address, without
      its Thumb bit, and says which halfword matches. */
  lemma DecodeOfEncode(addr: Reg)
    requires addr < CODE_END
    ensures Decode(Encode(addr)) == Comparator(true, Halfword(addr), addr & !0x1)
  {
    hide Encode, Decode, Halfword;
    if addr & 0x2 == 0 {
      LowerHalfword(addr);
    } else {
      UpperHalfword(addr);
    }
  }

  lemma LowerHalfword(addr: Reg)
    requires addr < CODE_END && addr & 0x2 == 0
    ensures Halfword(addr) == 1 && Decode(Encode(addr)) == Comparator(true, 1, addr & !0x1)
  {
    hide Decode;
    EncodeLower(addr);
    DecodeLower(addr);
  }

  lemma EncodeLower(addr: Reg)
    requires addr & 0x2 == 0
    ensures Encode(addr) == (addr & !0x3) | 0x4000_0001
  {
  }

  lemma DecodeLower(addr: Reg)
    requires addr < CODE_END && addr & 0x2 == 0
    ensures Decode((addr & !0x3) | 0x4000_0001) == Comparator(true, 1, addr & !0x1)
  {
    LowerBits(addr);
  }

  lemma LowerBits(addr: Reg)
    requires addr < CODE_END && addr & 0x2 == 0
    ensures var c := (addr & !0x3) | 0x4000_0001;
            c & 0x1 == 1 && c >> 30 == 1 && c & 0x1FFF_FFFC == addr & !0x1
  {
  }

  lemma UpperHalfword(addr: Reg)
    requires addr < CODE_END && addr & 0x2 != 0
    ensures Halfword(addr) == 2 && Decode(Encode(addr)) == Comparator(true, 2, addr & !0x1)
  {
    hide Decode;
    EncodeUpper(addr);
    DecodeUpper(addr);
  }

  lemma EncodeUpper(addr: Reg)
    requires addr & 0x2 != 0
    ensures Encode(addr) == (addr & !0x3) | 0x8000_0001
  {
  }

  lemma DecodeUpper(addr: Reg)
    requires addr < CODE_END && addr & 0x2 != 0
    ensures Decode((addr & !0x3) | 0x8000_0001) == Comparator(true, 2, addr & !0x1)
  {
    UpperBits(addr);
  }

  lemma UpperBits(addr: Reg)
    requires addr < CODE_END && addr & 0x2 != 0
    ensures var c := (addr & !0x3) | 0x8000_0001;
            c & 0x1 == 1 && c >> 30 == 2 && (c & 0x1FFF_FFFC) | 0x2 == addr & !0x1
  {
  }

  /** Two breakpoints read the same exactly when they are for the same halfword. */
  lemma EncodeIsInjective(x: Reg, y: Reg)
    requires x < CODE_END && y < CODE_END
    ensures Decode(Encode(x)) == Decode(Encode(y)) <==> x & !0x1 == y & !0x1
  {
    DecodeOfEncode(x);
    DecodeOfEncode(y);
    if x & !0x1 == y & !0x1 {
      SameHalfword(x, y);
    }
  }

  lemma SameHalfword(x: Reg, y: Reg)
    requires x & !0x1 == y & !0x1
    ensures x & 0x2 == y & 0x2
  {
  }

  // ----- the unit

  datatype Unit = Unit(ctrl: Reg, comps: seq<Reg>)

  datatype Op = Set(id: nat, addr: Reg) | Enable | Disable

  /** The tests of `fpb_set_breakpoint`. */
  predicate Accepted(ctrl: Reg, op: Op) {
    op.Set? ==> Revision(ctrl) == 0 && op.id < NumCode(ctrl) && op.addr < CODE_END
  }

  /** A breakpoint is accepted on a unit of revision 0, for a code comparator that there
      is and an address below 0x20000000; enabling and disabling always are. */
  lemma AcceptedExactly(on: Reg, code: Reg, literal: Reg, revision: Reg, op: Op)
    requires on < 2 && code < 128 && literal < 16 && revision < 16
    ensures var ctrl := FromFields(on, code, literal, revision);
            Accepted(ctrl, op) <==> !op.Set? || (revision == 0 && op.id < code as nat && op.addr < 0x2000_0000)
  {
    FieldsAreRead(on, code, literal, revision);
    hide FromFields, NumCode, Revision;
  }

  predicate Sized(u: Unit) { |u.comps| == NumCode(u.ctrl) + NumLiteral(u.ctrl) }

  function Apply(u: Unit, op: Op): (r: Unit)
    requires Sized(u)
  {
    match op
    case Enable => u.(ctrl := Written(u.ctrl, EnableValue(u.ctrl)))
    case Disable => u.(ctrl := Written(u.ctrl, DisableValue(u.ctrl)))
    case Set(id, addr) =>
      if !Accepted(u.ctrl, op) then u
      else
        Unit(if On(u.ctrl) then u.ctrl else Written(u.ctrl, EnableValue(u.ctrl)), u.comps[id := Encode(addr)])
  }

  lemma ApplyKeepsUnit(u: Unit, op: Op)
    requires Sized(u)
    ensures SameUnit(Apply(u, op).ctrl, u.ctrl) && Sized(Apply(u, op))
  {
    hide Written, EnableValue, DisableValue, Encode, CodeField, LiteralField, Revision;
    EnableWorks(u.ctrl);
    DisableWorks(u.ctrl);
  }

  function Run(u: Unit, ops: seq<Op>): Unit
    requires Sized(u)
    decreases ops
  {
    if ops == [] then u
    else
      ApplyKeepsUnit(u, ops[0]);
      Run(Apply(u, ops[0]), ops[1..])
  }

  /** What the calls amount to, with no registers: a switch and, for each
      comparator, the last address set for it. */
  datatype Meaning = Meaning(on: bool, at: map<nat, Reg>)

  function Effect(ctrl: Reg, m: Meaning, op: Op): Meaning {
    match op
    case Enable => m.(on := true)
    case Disable => m.(on := false)
    case Set(id, addr) => if Accepted(ctrl, op) then Meaning(true, m.at[id := addr]) else m
  }

  function Effects(ctrl: Reg, m: Meaning, ops: seq<Op>): Meaning
    decreases ops
  {
    if ops == [] then m else Effects(ctrl, Effect(ctrl, m, ops[0]), ops[1..])
  }

  /** The registers `u`, reached from `start`, stand for `m`. */
  ghost predicate Stands(start: Unit, u: Unit, m: Meaning) {
    && SameUnit(u.ctrl, start.ctrl) && |u.comps| == |start.comps|
    && (On(u.ctrl) <==> m.on)
    && (forall id | id in m.at :: id < NumCode(u.ctrl) && m.at[id] < CODE_END)
    && (forall id: nat | id < |u.comps| :: u.comps[id] == if id in m.at then Encode(m.at[id]) else start.comps[id])
  }

  lemma ApplyRefines(start: Unit, u: Unit, m: Meaning, op: Op)
    requires Sized(start) && Sized(u) && Stands(start, u, m)
    ensures Stands(start, Apply(u, op), Effect(start.ctrl, m, op))
  {
    match op
    case Set(id, addr) => SetRefines(start, u, m, id, addr);
    case Enable =>
      hide Written, EnableValue, CodeField, LiteralField, Revision, On, Encode;
      EnableWorks(u.ctrl);
    case Disable =>
      hide Written, DisableValue, CodeField, LiteralField, Revision, On, Encode;
      DisableWorks(u.ctrl);
  }

  lemma SetRefines(start: Unit, u: Unit, m: Meaning, id: nat, addr: Reg)
    requires Sized(start) && Sized(u) && Stands(start, u, m)
    ensures Stands(start, Apply(u, Set(id, addr)), Effect(start.ctrl, m, Set(id, addr)))
  {
    hide Written, EnableValue, Encode, CodeField, LiteralField, Revision, On;
    EnableWorks(u.ctrl);
    AcceptsAlike(u.ctrl, start.ctrl, Set(id, addr));
  }

  lemma AcceptsAlike(x: Reg, y: Reg, op: Op)
    requires SameUnit(x, y)
    ensures Accepted(x, op) == Accepted(y, op)
  {
    hide CodeField, LiteralField, Revision;
  }

  lemma {:induction false} RunRefines(start: Unit, u: Unit, m: Meaning, ops: seq<Op>)
    requires Sized(start) && Sized(u) && Stands(start, u, m)
    ensures Stands(start, Run(u, ops), Effects(start.ctrl, m, ops))
    decreases ops
  {
    if ops != [] {
      hide Stands, Apply, Effect;
      ApplyRefines(start, u, m, ops[0]);
      ApplyKeepsUnit(u, ops[0]);
      RunRefines(start, Apply(u, ops[0]), Effect(start.ctrl, m, ops[0]), ops[1..]);
    }
  }

  /** Over any run of set, enable and disable: a comparator reads as the last
      address accepted for it, other comparators as before the run, and revision
      and comparator counts never change. */
  lemma ComparatorsReadBack(u: Unit, ops: seq<Op>, id: nat)
    requires Sized(u) && id < |u.comps|
    ensures var r := Run(u, ops);
            var m := Effects(u.ctrl, Meaning(On(u.ctrl), map[]), ops);
            && SameUnit(r.ctrl, u.ctrl) && |r.comps| == |u.comps|
            && (On(r.ctrl) <==> m.on)
            && (id in m.at ==> Decode(r.comps[id]) == Comparator(true, Halfword(m.at[id]), m.at[id] & !0x1))
            && (id !in m.at ==> r.comps[id] == u.comps[id])
  {
    hide Decode, Encode, Halfword, On, CodeField, LiteralField, Revision;
    var m := Effects(u.ctrl, Meaning(On(u.ctrl), map[]), ops);
    RunRefines(u, u, Meaning(On(u.ctrl), map[]), ops);
    if id in m.at {
      DecodeOfEncode(m.at[id]);
    }
  }

  // ----- the calls

  datatype Config = Config(enabled: bool, revision: Reg, numCode: nat, numLiteral: nat)

  datatype Reading = Unsupported | Reading(config: Comparator)

  class Fpb {
    var ctrl: Reg
    const comps: array<Reg>

    ghost predicate Valid()
      reads this, comps
    {
      Sized(Registers())
    }

    /** The unit as it powers up. */
    constructor (ctrl: Reg)
      ensures Valid() && fresh(comps) && this.ctrl == ctrl
    {
      this.ctrl := ctrl;
      comps := new Reg[NumCode(ctrl) + NumLiteral(ctrl)];
    }

    function Registers(): Unit
      reads this, comps
    {
      Unit(ctrl, comps[..])
    }

    /** Hardware: a store to FP_CTRL. */
    method WriteCtrl(v: Reg)
      modifies this`ctrl
      ensures ctrl == Written(old(ctrl), v)
    {
      if v & 0x2 != 0 {
        ctrl := (ctrl & !0x3) | (v & 0x1);
      }
    }

    method Disable()
      requires Valid()
      modifies this`ctrl
      ensures Valid() && Registers() == Apply(old(Registers()), Op.Disable)
    {
      var value := (ctrl & !0x3) | 0x2;
      assert value == DisableValue(ctrl);
      hide DisableValue, Written, CodeField, LiteralField;
      ApplyKeepsUnit(Registers(), Op.Disable);
      WriteCtrl(value);
    }

    method Enable()
      requires Valid()
      modifies this`ctrl
      ensures Valid() && Registers() == Apply(old(Registers()), Op.Enable)
    {
      var value := ctrl | 0x3;
      assert value == EnableValue(ctrl);
      hide EnableValue, Written, CodeField, LiteralField;
      ApplyKeepsUnit(Registers(), Op.Enable);
      WriteCtrl(value);
    }

    method GetConfig() returns (config: Config)
      ensures config == Config(On(ctrl), Revision(ctrl), NumCode(ctrl), NumLiteral(ctrl))
    {
      var fpCtrl := ctrl;
      var enabled := fpCtrl & 0x1;
      var revision := (fpCtrl >> 28) & 0xF;
      var numCode := (((fpCtrl >> 12) & 0x7) << 4) | ((fpCtrl >> 4) & 0xF);
      var numLit := (fpCtrl >> 8) & 0xF;
      config := Config(enabled != 0, revision, numCode as nat, numLit as nat);
    }

    method SetBreakpoint(compId: nat, instrAddr: Reg) returns (ok: bool)
      requires Valid()
      modifies this`ctrl, comps
      ensures Valid() && Registers() == Apply(old(Registers()), Set(compId, instrAddr))
      ensures ok == Accepted(old(ctrl), Set(compId, instrAddr))
    {
      hide Encode, Written, EnableValue, On, Revision, NumCode, NumLiteral;
      ghost var before := Registers();
      ApplyKeepsUnit(before, Set(compId, instrAddr));
      var config := GetConfig();
      if config.revision != 0 {
        return false;
      }
      if compId >= config.numCode {
        return false;
      }
      if instrAddr >= CODE_END {
        return false;
      }
      if !config.enabled {
        Enable();
      }
      var fpComp := ComparatorValue(instrAddr);
      comps[compId] := fpComp;
      return true;
    }

    static method ComparatorValue(instrAddr: Reg) returns (fpComp: Reg)
      ensures fpComp == Encode(instrAddr)
    {
      var replace: Reg := if instrAddr & 0x2 == 0 then 1 else 2;
      fpComp := (instrAddr & !0x3) | 0x1 | (replace << 30);
    }

    method GetCompConfig(compId: nat) returns (r: Reading)
      requires Valid()
      ensures r == if Revision(ctrl) != 0 || compId >= NumCode(ctrl) + NumLiteral(ctrl) then Unsupported
                   else Reading(Decode(comps[compId]))
    {
      var config := GetConfig();
      if config.revision != 0 {
        return Unsupported;
      }
      var numComps := config.numCode + config.numLiteral;
      if compId >= numComps {
        return Unsupported;
      }
      var fpComp := comps[compId];
      var enabled := fpComp & 0x1 != 0;
      var replace := fpComp >> 30;
      var address := fpComp & 0x1FFF_FFFC;
      if replace == 0x2 {
        address := address | 0x2;
      }
      return Reading(Comparator(enabled, replace, address));
    }
  }
}
