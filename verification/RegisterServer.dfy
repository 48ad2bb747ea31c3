/** The register server of one CoBo board as its clients see it: the control registers and
    the register files of 16 AGET chips (runcontrol/EccClient.cpp). */
module RegisterServer {
  import opened BitField

  datatype Device = Ctrl | Aget | Asad

  datatype AgetReg =
    | Reg1 | Reg2 | Reg3 | Reg4 | Reg6 | Reg7 | Reg8 | Reg8msb | Reg9 | Reg9msb | Reg10 | Reg11 | Reg12

  datatype CtrlField =
    | ScEn | PulseEnable | AgetChipSelect | AsadScMask | AsadSelect
    | IsFpnRead | FirmwareEnable | PartialReadOut | ControllerReset | HitRegister | Calibration
    | AgetScRw | ReadDepth

  /** One register of one chip; chips are numbered 4 * board + position. */
  datatype Cell = Cell(chip: nat, reg: AgetReg)

  /** What the server is told, one operation at a time; a read leaves no trace of its own. */
  datatype Operation = CtrlWrite(field: CtrlField, value: nat) | AgetWrite(reg: AgetReg)

  /** Nothing but the cell may differ. */
  ghost predicate OnlyCell(before: map<Cell, nat>, after: map<Cell, nat>, cell: Cell) {
    forall c :: c in before && c != cell ==> c in after && after[c] == before[c]
  }

  /** What a cell holds after a write. */
  function Stored(was: nat, value: nat, addressed: bool, faithful: bool, noise: map<Cell, nat>, c: Cell): nat {
    if !addressed then was else if faithful || c !in noise then value else noise[c]
  }

  class Ecc {
    /** Whether a write stores the value written; otherwise it may store anything. */
    const faithful: bool
    var device: Device
    var ctrl: map<CtrlField, nat>
    var aget: map<Cell, nat>
    /** All writes so far, in order. */
    ghost var log: seq<Operation>

    ghost predicate Valid()
      reads this
    {
      (forall f: CtrlField :: f in ctrl) && (forall c: Cell :: c in aget <==> c.chip < 16)
    }

    constructor (faithful: bool, ctrl: map<CtrlField, nat>, aget: map<Cell, nat>)
      requires (forall f: CtrlField :: f in ctrl) && (forall c: Cell :: c in aget <==> c.chip < 16)
      ensures Valid() && this.faithful == faithful && this.ctrl == ctrl && this.aget == aget && log == []
    {
      this.faithful := faithful;
      this.ctrl := ctrl;
      this.aget := aget;
      device := Ctrl;
      log := [];
    }

    method Connect(device: Device)
      requires Valid()
      modifies this`device
      ensures Valid() && this.device == device
    {
      this.device := device;
    }

    /** A field of the control device; the client must have connected to it. */
    method WriteCtrl(field: CtrlField, value: nat)
      requires Valid() && device == Ctrl
      modifies this`ctrl, this`log
      ensures Valid() && ctrl == old(ctrl)[field := value]
      ensures log == old(log) + [CtrlWrite(field, value)]
    {
      log := log + [CtrlWrite(field, value)];
      ctrl := ctrl[field := value];
    }

    /** The chips a write goes to: those enabled in SC_En. */
    ghost predicate Addressed(c: Cell, reg: AgetReg)
      requires Valid()
      reads this
    {
      c.reg == reg && Bit(ctrl[ScEn], c.chip)
    }

    /** A write on the AGET device is broadcast to all enabled chips. */
    method WriteRegister(reg: AgetReg, value: nat)
      requires Valid() && device == Aget
      modifies this`aget, this`log
      ensures Valid() && log == old(log) + [AgetWrite(reg)]
      ensures forall c :: c in aget && !Addressed(c, reg) ==> aget[c] == old(aget)[c]
      ensures faithful ==> forall c :: c in aget && Addressed(c, reg) ==> aget[c] == value
    {
      log := log + [AgetWrite(reg)];
      var noise: map<Cell, nat> := *;
      var enabled := ctrl[ScEn];
      aget := map c | c in aget :: Stored(aget[c], value, c.reg == reg && Bit(enabled, c.chip), faithful, noise, c);
    }

    /** A read on the AGET device comes from the selected chip. */
    method ReadRegister(reg: AgetReg) returns (value: nat)
      requires Valid() && device == Aget && ctrl[AgetChipSelect] < 16
      ensures value == aget[Cell(ctrl[AgetChipSelect], reg)]
    {
      value := aget[Cell(ctrl[AgetChipSelect], reg)];
    }

    /** A field write reads the register of the selected chip and broadcasts the changed word. */
    method WriteField(reg: AgetReg, offset: nat, width: nat, value: nat)
      requires Valid() && device == Aget && ctrl[AgetChipSelect] < 16
      modifies this`aget, this`log
      ensures Valid() && log == old(log) + [AgetWrite(reg)]
      ensures forall c :: c in aget && !Addressed(c, reg) ==> aget[c] == old(aget)[c]
      ensures faithful ==> forall c :: c in aget && Addressed(c, reg) ==>
              aget[c] == SetField(old(aget)[Cell(ctrl[AgetChipSelect], reg)], offset, width, value)
    {
      var word := ReadRegister(reg);
      WriteRegister(reg, SetField(word, offset, width, value));
    }
  }
}
