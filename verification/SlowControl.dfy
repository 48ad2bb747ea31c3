/** Configuring the AGET chips over the slow-control link
    (runcontrol/EccClient.cpp, runcontrol/GetController.cpp). */
module SlowControl {
  import opened BitField
  import opened Options
  import opened RegisterServer
  import opened Words

  lemma OneBit(k: nat)
    ensures forall i: nat :: Bit(Shl(1, k), i) <==> i == k
  {
    forall i: nat ensures Bit(Shl(1, k), i) <==> i == k {
      BitOfShl(1, k, i);
      if i > k { BitOfZero(i - k - 1); }
    }
  }

  /** The firmware is off, the controller out of reset and in slow-control mode, and the last
      operation it was given is a read. */
  ghost predicate Idle(ctrl: map<CtrlField, nat>) {
    && FirmwareEnable in ctrl && ctrl[FirmwareEnable] == 0 && ControllerReset in ctrl && ctrl[ControllerReset] == 0
    && HitRegister in ctrl && ctrl[HitRegister] == 0 && Calibration in ctrl && ctrl[Calibration] == 0
    && AgetScRw in ctrl && ctrl[AgetScRw] == 1
  }

  /** Firmware off, controller reset and released, no chip enabled, pulses for the masked chips, and a
      read to set them off. */
  ghost function PulseWrites(mask: nat): seq<Operation> {
    [CtrlWrite(FirmwareEnable, 0), CtrlWrite(ControllerReset, 1), CtrlWrite(ControllerReset, 0), CtrlWrite(ScEn, 0),
     CtrlWrite(PulseEnable, mask), CtrlWrite(HitRegister, 0), CtrlWrite(Calibration, 0), CtrlWrite(AgetScRw, 1)]
  }

  /** The switch to slow control: the pulses, then the masked chips enabled and the pulses off. */
  ghost function SwitchWrites(mask: nat): (ws: seq<Operation>)
    ensures |ws| == 10
  {
    PulseWrites(mask) + [CtrlWrite(ScEn, mask), CtrlWrite(PulseEnable, 0)]
  }

  /** Slow control has the link, and no pulses are sent. */
  ghost predicate SlowControlMode(ctrl: map<CtrlField, nat>) {
    Idle(ctrl) && PulseEnable in ctrl && ctrl[PulseEnable] == 0
  }

  /** Only these fields may differ. */
  ghost predicate OnlyFields(before: map<CtrlField, nat>, after: map<CtrlField, nat>, fields: set<CtrlField>) {
    forall f :: f !in fields ==> f in before && f in after && after[f] == before[f]
  }

  /** A write that decides who has the link, or sends pulses. */
  ghost predicate Switches(o: Operation) {
    o.CtrlWrite?
    && o.field in {FirmwareEnable, ControllerReset, PulseEnable, HitRegister, Calibration, AgetScRw}
  }

  /** More was written, and none of it leaves slow control. */
  ghost predicate Quiet(before: seq<Operation>, after: seq<Operation>) {
    before <= after && forall p :: |before| <= p < |after| ==> !Switches(after[p])
  }

  class EccClient {
    const ecc: Ecc
    var agetMask: nat
    var asadMask: nat

    constructor (ecc: Ecc)
      ensures this.ecc == ecc && agetMask == 0 && asadMask == 0
    {
      this.ecc := ecc;
      agetMask, asadMask := 0, 0;
    }

    method SetActiveAGetMask(mask: nat)
      modifies this`agetMask
      ensures agetMask == mask
    {
      agetMask := mask;
    }

    method SetActiveAsAdMask(mask: nat)
      modifies this`asadMask
      ensures asadMask == mask
    {
      asadMask := mask;
    }

    method SetAgetSlowControlMask(mask: nat)
      requires ecc.Valid()
      modifies ecc`ctrl, ecc`device, ecc`log
      ensures ecc.Valid() && ecc.ctrl == old(ecc.ctrl)[ScEn := mask]
      ensures ecc.log == old(ecc.log) + [CtrlWrite(ScEn, mask)]
    {
      ecc.Connect(Ctrl);
      ecc.WriteCtrl(ScEn, mask);
    }

    method SetAsAdSlowControlMask(mask: nat)
      requires ecc.Valid()
      modifies ecc`ctrl, ecc`device, ecc`log
      ensures ecc.Valid() && ecc.ctrl == old(ecc.ctrl)[AsadScMask := mask]
      ensures ecc.log == old(ecc.log) + [CtrlWrite(AsadScMask, mask)]
    {
      ecc.Connect(Ctrl);
      ecc.WriteCtrl(AsadScMask, mask);
    }

    method SelectAgetForRead(asadId: nat, agetId: nat)
      requires ecc.Valid()
      modifies ecc`ctrl, ecc`device, ecc`log
      ensures ecc.Valid() && ecc.ctrl == old(ecc.ctrl)[AgetChipSelect := 4 * asadId + agetId]
      ensures ecc.log == old(ecc.log) + [CtrlWrite(AgetChipSelect, 4 * asadId + agetId)]
    {
      ecc.Connect(Ctrl);
      ecc.WriteCtrl(AgetChipSelect, 4 * asadId + agetId);
    }

    method SelectAsAdForRead(asadId: nat)
      requires ecc.Valid()
      modifies ecc`ctrl, ecc`device, ecc`log
      ensures ecc.Valid() && ecc.ctrl == old(ecc.ctrl)[AsadSelect := asadId]
      ensures ecc.log == old(ecc.log) + [CtrlWrite(AsadSelect, asadId)]
    {
      ecc.Connect(Ctrl);
      ecc.WriteCtrl(AsadSelect, asadId);
    }

    /** Writes one register of one chip: no other register of any chip changes. */
    method AgetRegWSC(asadIdx: nat, agetIdx: nat, reg: AgetReg, value: nat)
      requires ecc.Valid() && asadIdx < 4 && agetIdx < 4
      modifies ecc
      ensures ecc.Valid() && OnlyCell(old(ecc.aget), ecc.aget, Cell(4 * asadIdx + agetIdx, reg))
      ensures ecc.faithful ==> ecc.aget[Cell(4 * asadIdx + agetIdx, reg)] == value
      ensures ecc.ctrl == old(ecc.ctrl)[ScEn := Shl(1, 4 * asadIdx + agetIdx)]
      ensures ecc.log == old(ecc.log) + [CtrlWrite(ScEn, Shl(1, 4 * asadIdx + agetIdx)), AgetWrite(reg)]
    {
      ecc.Connect(Ctrl);
      OneBit(4 * asadIdx + agetIdx);
      var mask := Shl(1, 4 * asadIdx + agetIdx);
      ecc.WriteCtrl(ScEn, mask);
      ecc.Connect(Aget);
      ecc.WriteRegister(reg, value);
    }

    /** Reads one register of one chip. */
    method AgetRegRSC(asadIdx: nat, agetIdx: nat, reg: AgetReg) returns (value: nat)
      requires ecc.Valid() && asadIdx < 4 && agetIdx < 4
      modifies ecc`ctrl, ecc`device, ecc`log
      ensures ecc.Valid() && value == ecc.aget[Cell(4 * asadIdx + agetIdx, reg)]
      ensures ecc.ctrl == old(ecc.ctrl)[AgetChipSelect := 4 * asadIdx + agetIdx]
      ensures ecc.log == old(ecc.log) + [CtrlWrite(AgetChipSelect, 4 * asadIdx + agetIdx)]
    {
      ecc.Connect(Ctrl);
      ecc.WriteCtrl(AgetChipSelect, 4 * asadIdx + agetIdx);
      ecc.Connect(Aget);
      value := ecc.ReadRegister(reg);
    }

    /** The fake slow-control operation that sends the three pulses: no chip is enabled. */
    method SendPulses()
      requires ecc.Valid()
      modifies ecc`ctrl, ecc`device, ecc`log
      ensures ecc.Valid() && ecc.device == Ctrl && Idle(ecc.ctrl)
      ensures ecc.ctrl[ScEn] == 0 && ecc.ctrl[PulseEnable] == agetMask
      ensures forall f ::
              f !in {FirmwareEnable, ControllerReset, ScEn, PulseEnable, HitRegister, Calibration, AgetScRw} ==>
              ecc.ctrl[f] == old(ecc.ctrl)[f]
      ensures ecc.log == old(ecc.log) + PulseWrites(agetMask)
    {
      ecc.Connect(Ctrl);
      ecc.WriteCtrl(FirmwareEnable, 0);
      ecc.WriteCtrl(ControllerReset, 1);
      ecc.WriteCtrl(ControllerReset, 0);
      ecc.WriteCtrl(ScEn, 0);
      ecc.WriteCtrl(PulseEnable, agetMask);
      ecc.WriteCtrl(HitRegister, 0);
      ecc.WriteCtrl(Calibration, 0);
      ecc.WriteCtrl(AgetScRw, 1);
    }

    /** Afterwards the active chips are enabled and no more pulses are sent. */
    method SwitchToSlowControl()
      requires ecc.Valid()
      modifies ecc`ctrl, ecc`device, ecc`log
      ensures ecc.Valid() && Idle(ecc.ctrl) && ecc.ctrl[ScEn] == agetMask && ecc.ctrl[PulseEnable] == 0
      ensures forall f ::
              f !in {FirmwareEnable, ControllerReset, ScEn, PulseEnable, HitRegister, Calibration, AgetScRw} ==>
              ecc.ctrl[f] == old(ecc.ctrl)[f]
      ensures ecc.log == old(ecc.log) + SwitchWrites(agetMask)
    {
      SendPulses();
      ecc.WriteCtrl(ScEn, agetMask);
      ecc.WriteCtrl(PulseEnable, 0);
    }

    /** Sets bit 15 of register 1 on the selected chips. */
    method EnableFPNRead(isFPNRead: bool)
      requires ecc.Valid() && ecc.ctrl[AgetChipSelect] < 16
      modifies ecc
      ensures ecc.Valid() && ecc.ctrl == old(ecc.ctrl)[IsFpnRead := if isFPNRead then 1 else 0]
      ensures ecc.log == old(ecc.log) + [CtrlWrite(IsFpnRead, if isFPNRead then 1 else 0), AgetWrite(Reg1)]
      ensures forall c :: c in ecc.aget && !(c.reg == Reg1 && Bit(ecc.ctrl[ScEn], c.chip)) ==>
              ecc.aget[c] == old(ecc.aget)[c]
      ensures ecc.faithful ==> forall c :: c in ecc.aget && c.reg == Reg1 && Bit(ecc.ctrl[ScEn], c.chip) ==>
              ecc.aget[c]
                == SetField(old(ecc.aget)[Cell(ecc.ctrl[AgetChipSelect], Reg1)], 15, 1, if isFPNRead then 1 else 0)
    {
      ecc.Connect(Ctrl);
      ecc.WriteCtrl(IsFpnRead, if isFPNRead then 1 else 0);
      ecc.Connect(Aget);
      ecc.WriteField(Reg1, 15, 1, if isFPNRead then 1 else 0);
    }

    method SetCoBoReadDepth(depth: nat)
      requires ecc.Valid()
      modifies ecc`ctrl, ecc`device, ecc`log
      ensures ecc.Valid() && ecc.ctrl == old(ecc.ctrl)[ReadDepth := depth]
      ensures ecc.log == old(ecc.log) + [CtrlWrite(ReadDepth, depth)]
    {
      ecc.Connect(Ctrl);
      ecc.WriteCtrl(ReadDepth, depth);
    }

    method SetFullReadOutMode(isAllChannelRead: bool)
      requires ecc.Valid()
      modifies ecc`ctrl, ecc`device, ecc`log
      ensures ecc.Valid() && ecc.ctrl == old(ecc.ctrl)[PartialReadOut := if isAllChannelRead then 0 else 1]
      ensures ecc.log == old(ecc.log) + [CtrlWrite(PartialReadOut, if isAllChannelRead then 0 else 1)]
    {
      ecc.Connect(Ctrl);
      if isAllChannelRead {
        ecc.WriteCtrl(PartialReadOut, 0);
      } else {
        ecc.WriteCtrl(PartialReadOut, 1);
      }
    }
  }

  // ---------- configuration ----------

  /** A chip's node: None where the file lacks the option.  `wanted` is the word the retrieval
      functions compute for each register, None when an option they need is missing. */
  datatype ChipConfig = ChipConfig(
    isActive: Option<bool>, scCheckMode: Option<bool>, isFPNRead: Option<bool>, isAllChannelRead: Option<bool>,
    wanted: AgetReg -> Option<nat>)

  datatype BoardConfig = BoardConfig(isActive: Option<bool>, chips: seq<ChipConfig>)

  datatype CoboConfig = CoboConfig(isActive: Option<bool>, enableMem2pMode: Option<bool>, boards: seq<BoardConfig>)

  /** Four boards of four chips. */
  predicate Shaped(cfg: CoboConfig) {
    |cfg.boards| == 4 && forall a :: 0 <= a < 4 ==> |cfg.boards[a].chips| == 4
  }

  function ChipOf(cfg: CoboConfig, i: nat): ChipConfig
    requires Shaped(cfg) && i < 16
  {
    cfg.boards[i / 4].chips[i % 4]
  }

  /** `isAsadActive`: the board's node is looked at only if the CoBo is active. */
  function AsadActive(cfg: CoboConfig, asadIdx: nat): Option<bool>
    requires Shaped(cfg) && asadIdx < 4
  {
    if cfg.isActive == Some(true) then cfg.boards[asadIdx].isActive else cfg.isActive
  }

  /** `isAgetActive`: the chip's node is looked at only if its board is active. */
  function AgetActive(cfg: CoboConfig, i: nat): Option<bool>
    requires Shaped(cfg) && i < 16
  {
    if AsadActive(cfg, i / 4) == Some(true) then ChipOf(cfg, i).isActive else AsadActive(cfg, i / 4)
  }

  /** A chip is active exactly when its node and the nodes above it all say so; its activity is not
      known exactly when the first node on the way that does not say so is missing. */
  lemma ActiveExactly(cfg: CoboConfig, i: nat)
    requires Shaped(cfg) && i < 16
    ensures AgetActive(cfg, i) == Some(true) <==>
            && cfg.isActive == Some(true) && cfg.boards[i / 4].isActive == Some(true)
            && cfg.boards[i / 4].chips[i % 4].isActive == Some(true)
    ensures AgetActive(cfg, i) == None <==>
            || cfg.isActive == None
            || (cfg.isActive == Some(true) && cfg.boards[i / 4].isActive == None)
            || (cfg.isActive == Some(true) && cfg.boards[i / 4].isActive == Some(true)
                && cfg.boards[i / 4].chips[i % 4].isActive == None)
    ensures AsadActive(cfg, i / 4) == Some(true) <==>
            cfg.isActive == Some(true) && cfg.boards[i / 4].isActive == Some(true)
  {
  }

  /** A register differs only if the nodes of its CoBo, board and chip all say active. */
  ghost predicate OnlyActiveNodes(cfg: CoboConfig, before: map<Cell, nat>, after: map<Cell, nat>)
    requires Shaped(cfg)
  {
    forall c :: c in before && c.chip < 16 && !(c in after && after[c] == before[c]) ==>
      && cfg.isActive == Some(true) && cfg.boards[c.chip / 4].isActive == Some(true)
      && cfg.boards[c.chip / 4].chips[c.chip % 4].isActive == Some(true)
  }

  lemma OnlyActiveDiffer(cfg: CoboConfig, before: map<Cell, nat>, after: map<Cell, nat>)
    requires Shaped(cfg) && InactiveUntouched(cfg, before, after)
    ensures OnlyActiveNodes(cfg, before, after)
  {
    forall c | c in before && c.chip < 16 && !(c in after && after[c] == before[c])
      ensures AgetActive(cfg, c.chip) == Some(true)
    {
      assert AgetActive(cfg, c.chip) != Some(true) ==> Untouched(before, after, c.chip);
    }
  }

  /** How a call ended: normally, with a missing option, or with the error it raises itself. */
  datatype Outcome = Returned | NotFound | Failed

  // ---------- masks ----------

  /** A lookup that fails ends the board's loop: the chips after it stay inactive. */
  predicate AgetMaskBit(cfg: CoboConfig, i: nat)
    requires Shaped(cfg) && i < 16
  {
    && AsadActive(cfg, i / 4) == Some(true)
    && (forall j: nat :: j / 4 == i / 4 && j <= i ==> ChipOf(cfg, j).isActive.Some?)
    && ChipOf(cfg, i).isActive == Some(true)
  }

  lemma SetOneBit(mask: nat, k: nat, bit: bool)
    ensures forall i: nat ::
              Bit(SetField(mask, k, 1, if bit then 1 else 0), i) <==> if i == k then bit else Bit(mask, i)
  {
    var word := SetField(mask, k, 1, if bit then 1 else 0);
    forall i: nat ensures Bit(word, i) <==> if i == k then bit else Bit(mask, i) { BitOfOneSet(mask, k, bit, word, i); }
  }

  lemma BitOfOneSet(mask: nat, k: nat, bit: bool, word: nat, i: nat)
    requires word == SetField(mask, k, 1, if bit then 1 else 0)
    ensures Bit(word, i) <==> if i == k then bit else Bit(mask, i)
  {
    BitOfSetField(mask, k, 1, if bit then 1 else 0, i);
    assert Bit(1, 0) && !Bit(0, 0);
  }

  /** The chip loop of one board; a lookup that fails ends it. */
  method SetBoardMask(board: BoardConfig, asadIdx: nat, mask: nat) returns (agetMask: nat)
    requires |board.chips| == 4
    ensures forall i: nat :: Bit(agetMask, i) <==>
            if i / 4 == asadIdx && (forall g: nat :: g <= i % 4 ==> board.chips[g].isActive.Some?)
            then board.chips[i % 4].isActive.value
            else Bit(mask, i)
  {
    agetMask := mask;
    var agetIdx := 0;
    while agetIdx < 4
      invariant 0 <= agetIdx <= 4
      invariant forall g: nat :: g < agetIdx ==> board.chips[g].isActive.Some?
      invariant forall i: nat :: Bit(agetMask, i) <==>
                if i / 4 == asadIdx && i % 4 < agetIdx then board.chips[i % 4].isActive.value else Bit(mask, i)
    {
      var isChipActive := board.chips[agetIdx].isActive;
      if isChipActive.None? { return; }
      SetOneBit(agetMask, 4 * asadIdx + agetIdx, isChipActive.value);
      agetMask := SetField(agetMask, 4 * asadIdx + agetIdx, 1, if isChipActive.value then 1 else 0);
      agetIdx := agetIdx + 1;
    }
  }

  // ---------- what a chip holds ----------

  /** How setting registers ended: done, refused by the check, or with a missing option. */
  datatype Status = Accepted | Mismatch | Missing

  /** What the check lets pass: the value itself, or in register 2 a difference in bit 21 only. */
  ghost predicate Tolerated(reg: AgetReg, value: nat, stored: nat) {
    stored == value || (reg == Reg2 && Xor(value, stored) == 0x200000)
  }

  /** The chip's register holds the word its configuration asks for: exactly if the hardware
      is faithful, up to the tolerance if the register was checked. */
  ghost predicate Holds(aget: map<Cell, nat>, i: nat, chip: ChipConfig, reg: AgetReg, faithful: bool, checked: bool) {
    && chip.wanted(reg).Some? && Cell(i, reg) in aget
    && (faithful ==> aget[Cell(i, reg)] == chip.wanted(reg).value)
    && (checked ==> Tolerated(reg, chip.wanted(reg).value, aget[Cell(i, reg)]))
  }

  /** The register was given its word and the check, if it is on, lets the stored word pass. */
  ghost predicate Passes(aget: map<Cell, nat>, i: nat, chip: ChipConfig, reg: AgetReg, checked: bool) {
    && chip.wanted(reg).Some? && Cell(i, reg) in aget
    && (checked ==> Tolerated(reg, chip.wanted(reg).value, aget[Cell(i, reg)]))
  }

  /** The register was given its word and stores one that the check does not let pass. */
  ghost predicate Refused(aget: map<Cell, nat>, i: nat, chip: ChipConfig, reg: AgetReg) {
    && chip.wanted(reg).Some? && Cell(i, reg) in aget
    && !Tolerated(reg, chip.wanted(reg).value, aget[Cell(i, reg)])
  }

  ghost predicate SomeRefused(aget: map<Cell, nat>, i: nat, chip: ChipConfig) {
    exists r: AgetReg :: Refused(aget, i, chip, r)
  }

  /** The order in which the registers of a chip are set. */
  function Order(reg: AgetReg): (n: nat)
    ensures n < 13
  {
    match reg
    case Reg1 => 0
    case Reg2 => 1
    case Reg3 => 2
    case Reg4 => 3
    case Reg6 => 4
    case Reg7 => 5
    case Reg8 => 6
    case Reg8msb => 7
    case Reg9 => 8
    case Reg9msb => 9
    case Reg10 => 10
    case Reg11 => 11
    case Reg12 => 12
  }

  lemma OrderInjective(r: AgetReg, q: AgetReg)
    ensures Order(r) == Order(q) ==> r == q
  {
  }

  /** The first n registers hold their words. */
  ghost predicate HoldsBelow(aget: map<Cell, nat>, i: nat, chip: ChipConfig, n: nat, faithful: bool, checked: bool) {
    forall r: AgetReg {:trigger Holds(aget, i, chip, r, faithful, checked)} ::
      Order(r) < n ==> Holds(aget, i, chip, r, faithful, checked)
  }

  /** Every register of the chip holds its word. */
  ghost predicate HoldsEvery(aget: map<Cell, nat>, i: nat, chip: ChipConfig, faithful: bool, checked: bool) {
    forall r: AgetReg :: Holds(aget, i, chip, r, faithful, checked)
  }

  ghost predicate WantsEvery(chip: ChipConfig) {
    forall r: AgetReg :: chip.wanted(r).Some?
  }

  /** Only registers lo to hi - 1 of the chip, in the order they are set, may differ. */
  ghost predicate OnlyRegs(before: map<Cell, nat>, after: map<Cell, nat>, i: nat, lo: nat, hi: nat) {
    forall c :: c in before && !(c.chip == i && lo <= Order(c.reg) < hi) ==> c in after && after[c] == before[c]
  }

  ghost predicate Untouched(before: map<Cell, nat>, after: map<Cell, nat>, i: nat) {
    forall c :: c in before && c.chip == i ==> c in after && after[c] == before[c]
  }

  ghost predicate OnlyChip(before: map<Cell, nat>, after: map<Cell, nat>, i: nat) {
    forall c :: c in before && c.chip != i ==> c in after && after[c] == before[c]
  }

  lemma HeldIsWanted(aget: map<Cell, nat>, i: nat, chip: ChipConfig, faithful: bool, checked: bool)
    requires HoldsEvery(aget, i, chip, faithful, checked)
    ensures WantsEvery(chip)
  {
    forall r: AgetReg ensures chip.wanted(r).Some? { assert Holds(aget, i, chip, r, faithful, checked); }
  }

  /** One register more: those before it keep what they hold. */
  lemma OneMore(before: map<Cell, nat>, after: map<Cell, nat>, i: nat, chip: ChipConfig, reg: AgetReg,
                faithful: bool, checked: bool)
    requires HoldsBelow(before, i, chip, Order(reg), faithful, checked) && OnlyCell(before, after, Cell(i, reg))
    ensures HoldsBelow(after, i, chip, Order(reg), faithful, checked)
    ensures Holds(after, i, chip, reg, faithful, checked) ==>
            HoldsBelow(after, i, chip, Order(reg) + 1, faithful, checked)
  {
    forall r: AgetReg | Order(r) <= Order(reg)
      ensures r != reg ==> Holds(after, i, chip, r, faithful, checked)
    {
      OrderInjective(r, reg);
      assert r != reg ==> Holds(before, i, chip, r, faithful, checked);
    }
  }

  lemma OnlyOneReg(before: map<Cell, nat>, after: map<Cell, nat>, i: nat, r: AgetReg)
    requires OnlyCell(before, after, Cell(i, r))
    ensures OnlyRegs(before, after, i, Order(r), Order(r) + 1) && OnlyRegs(before, after, i, Order(r), Order(r) + 2)
  {
    forall c | c in before && !(c.chip == i && c.reg == r) ensures c in after && after[c] == before[c] {
      assert c != Cell(i, r);
    }
    forall c: Cell ensures Order(c.reg) == Order(r) <==> c.reg == r { OrderInjective(c.reg, r); }
  }

  lemma TwoMore(before: map<Cell, nat>, middle: map<Cell, nat>, after: map<Cell, nat>, i: nat, chip: ChipConfig,
                r: AgetReg, q: AgetReg, faithful: bool, checked: bool)
    requires OnlyCell(before, middle, Cell(i, r)) && OnlyCell(middle, after, Cell(i, q)) && Order(q) == Order(r) + 1
    ensures OnlyRegs(before, after, i, Order(r), Order(r) + 2)
    ensures Cell(i, r) in middle ==> (Passes(middle, i, chip, r, checked) <==> Passes(after, i, chip, r, checked))
    ensures HoldsBelow(before, i, chip, Order(r), faithful, checked)
            && Holds(middle, i, chip, r, faithful, checked) && Holds(after, i, chip, q, faithful, checked) ==>
            HoldsBelow(after, i, chip, Order(r) + 2, faithful, checked)
  {
    if HoldsBelow(before, i, chip, Order(r), faithful, checked) && Holds(middle, i, chip, r, faithful, checked) {
      OneMore(before, middle, i, chip, r, faithful, checked);
      OneMore(middle, after, i, chip, q, faithful, checked);
    }
  }

  /** Register 12 completes the chip. */
  lemma LastRegister(before: map<Cell, nat>, after: map<Cell, nat>, i: nat, chip: ChipConfig, faithful: bool,
                     checked: bool)
    requires OnlyCell(before, after, Cell(i, Reg12))
    ensures HoldsBelow(before, i, chip, 12, faithful, checked) && Holds(after, i, chip, Reg12, faithful, checked) ==>
            HoldsEvery(after, i, chip, faithful, checked) && WantsEvery(chip)
  {
    if HoldsBelow(before, i, chip, 12, faithful, checked) && Holds(after, i, chip, Reg12, faithful, checked) {
      OneMore(before, after, i, chip, Reg12, faithful, checked);
      forall r: AgetReg ensures Holds(after, i, chip, r, faithful, checked) { assert Order(r) < 13; }
      HeldIsWanted(after, i, chip, faithful, checked);
    }
  }

  class GetController {
    const client: EccClient
    var asadMask: nat
    var agetMask: nat

    constructor (client: EccClient)
      ensures this.client == client
    {
      this.client := client;
      asadMask, agetMask := 0, 0;
    }

    method SetMasks(cfg: CoboConfig) returns (outcome: Outcome)
      requires Shaped(cfg)
      modifies this
      ensures cfg.isActive.None? ==> outcome == NotFound && asadMask == 0 && agetMask == 0
      ensures cfg.isActive.Some? ==>
              && outcome == Returned
              && (forall a: nat :: Bit(asadMask, a) <==> a < 4 && AsadActive(cfg, a) == Some(true))
              && (forall i: nat :: Bit(agetMask, i) <==> i < 16 && AgetMaskBit(cfg, i))
    {
      asadMask := 0;
      agetMask := 0;
      forall i: nat ensures !Bit(0, i) { BitOfZero(i); }
      if cfg.isActive.None? { return NotFound; }
      if cfg.isActive.value {
        var asadIdx := 0;
        while asadIdx < 4
          invariant 0 <= asadIdx <= 4
          invariant forall a: nat :: Bit(asadMask, a) <==> a < asadIdx && AsadActive(cfg, a) == Some(true)
          invariant forall i: nat :: Bit(agetMask, i) <==> i / 4 < asadIdx && AgetMaskBit(cfg, i)
        {
          var board := cfg.boards[asadIdx];
          if board.isActive == Some(true) {
            SetOneBit(asadMask, asadIdx, true);
            asadMask := SetField(asadMask, asadIdx, 1, 1);
            ghost var was := agetMask;
            agetMask := SetBoardMask(board, asadIdx, agetMask);
            forall i: nat | i / 4 == asadIdx ensures Bit(agetMask, i) <==> AgetMaskBit(cfg, i) {
              assert !Bit(was, i);
              BoardLookups(cfg, i);
            }
          }
          asadIdx := asadIdx + 1;
        }
      }
      outcome := Returned;
    }

    /** Writes a register and, if asked to, reads it back and compares. */
    method SetAgetReg(asadIdx: nat, agetIdx: nat, reg: AgetReg, wchk: bool, value: nat) returns (ok: bool)
      requires client.ecc.Valid() && asadIdx < 4 && agetIdx < 4
      modifies client.ecc
      ensures client.ecc.Valid() && OnlyCell(old(client.ecc.aget), client.ecc.aget, Cell(4 * asadIdx + agetIdx, reg))
      ensures client.ecc.faithful ==> ok && client.ecc.aget[Cell(4 * asadIdx + agetIdx, reg)] == value
      ensures Quiet(old(client.ecc.log), client.ecc.log)
      ensures OnlyFields(old(client.ecc.ctrl), client.ecc.ctrl, {ScEn, AgetChipSelect})
      ensures wchk ==> (ok <==> Tolerated(reg, value, client.ecc.aget[Cell(4 * asadIdx + agetIdx, reg)]))
      ensures !wchk ==> ok
    {
      client.AgetRegWSC(asadIdx, agetIdx, reg, value);
      if wchk {
        var resp := client.AgetRegRSC(asadIdx, agetIdx, reg);
        if value != resp {
          if reg == Reg2 {
            var regXor := Xor(value, resp);
            if regXor == 0x200000 { return true; }
          }
          return false;
        }
      }
      ok := true;
    }

    /** Looks the word up in the configuration, then sets the register. */
    method SetFromConfig(chip: ChipConfig, asadIdx: nat, agetIdx: nat, reg: AgetReg, wchk: bool) returns (st: Status)
      requires client.ecc.Valid() && asadIdx < 4 && agetIdx < 4
      modifies client.ecc
      ensures client.ecc.Valid() && OnlyCell(old(client.ecc.aget), client.ecc.aget, Cell(4 * asadIdx + agetIdx, reg))
      ensures st == Accepted ==>
              Holds(client.ecc.aget, 4 * asadIdx + agetIdx, chip, reg, client.ecc.faithful, wchk)
      ensures st == Accepted <==> Passes(client.ecc.aget, 4 * asadIdx + agetIdx, chip, reg, wchk)
      ensures st == Missing <==> chip.wanted(reg).None?
      ensures Quiet(old(client.ecc.log), client.ecc.log)
      ensures OnlyFields(old(client.ecc.ctrl), client.ecc.ctrl, {ScEn, AgetChipSelect})
      ensures st == Mismatch <==> wchk && Refused(client.ecc.aget, 4 * asadIdx + agetIdx, chip, reg)
      ensures client.ecc.faithful || !wchk ==> st != Mismatch
    {
      var value := chip.wanted(reg);
      if value.None? { return Missing; }
      var ok := SetAgetReg(asadIdx, agetIdx, reg, wchk, value.value);
      st := if ok then Accepted else Mismatch;
    }

    /** Two registers, the second only if the first was accepted; nothing else changes. */
    method SetTwo(chip: ChipConfig, asadIdx: nat, agetIdx: nat, r: AgetReg, q: AgetReg, wchk: bool) returns (st: Status)
      requires client.ecc.Valid() && asadIdx < 4 && agetIdx < 4 && Order(q) == Order(r) + 1
      modifies client.ecc
      ensures client.ecc.Valid()
      ensures OnlyRegs(old(client.ecc.aget), client.ecc.aget, 4 * asadIdx + agetIdx, Order(r), Order(r) + 2)
      ensures Quiet(old(client.ecc.log), client.ecc.log)
      ensures OnlyFields(old(client.ecc.ctrl), client.ecc.ctrl, {ScEn, AgetChipSelect})
      ensures !Passes(client.ecc.aget, 4 * asadIdx + agetIdx, chip, r, wchk) ==>
              OnlyRegs(old(client.ecc.aget), client.ecc.aget, 4 * asadIdx + agetIdx, Order(r), Order(r) + 1)
      ensures st == Accepted <==>
              && Passes(client.ecc.aget, 4 * asadIdx + agetIdx, chip, r, wchk)
              && Passes(client.ecc.aget, 4 * asadIdx + agetIdx, chip, q, wchk)
      ensures st == Accepted &&
              HoldsBelow(old(client.ecc.aget), 4 * asadIdx + agetIdx, chip, Order(r), client.ecc.faithful, wchk) ==>
              HoldsBelow(client.ecc.aget, 4 * asadIdx + agetIdx, chip, Order(r) + 2, client.ecc.faithful, wchk)
      ensures st == Missing ==> !WantsEvery(chip)
      ensures st == Mismatch ==> wchk && SomeRefused(client.ecc.aget, 4 * asadIdx + agetIdx, chip)
      ensures client.ecc.faithful || !wchk ==> st != Mismatch
    {
      ghost var i, faithful := 4 * asadIdx + agetIdx, client.ecc.faithful;
      st := SetFromConfig(chip, asadIdx, agetIdx, r, wchk);
      OnlyOneReg(old(client.ecc.aget), client.ecc.aget, i, r);
      if st == Accepted {
        ghost var middle, log := client.ecc.aget, client.ecc.log;
        st := SetFromConfig(chip, asadIdx, agetIdx, q, wchk);
        QuietFurther(old(client.ecc.log), log, client.ecc.log);
        TwoMore(old(client.ecc.aget), middle, client.ecc.aget, i, chip, r, q, faithful, wchk);
      }
    }

    /** Four registers, each only if those before it were accepted; nothing else changes. */
    method SetFour(chip: ChipConfig, asadIdx: nat, agetIdx: nat, r: AgetReg, q: AgetReg, s: AgetReg, t: AgetReg,
                   wchk: bool)
      returns (st: Status)
      requires client.ecc.Valid() && asadIdx < 4 && agetIdx < 4
      requires Order(q) == Order(r) + 1 && Order(s) == Order(r) + 2 && Order(t) == Order(r) + 3
      modifies client.ecc
      ensures client.ecc.Valid()
      ensures OnlyRegs(old(client.ecc.aget), client.ecc.aget, 4 * asadIdx + agetIdx, Order(r), Order(r) + 4)
      ensures Quiet(old(client.ecc.log), client.ecc.log)
      ensures OnlyFields(old(client.ecc.ctrl), client.ecc.ctrl, {ScEn, AgetChipSelect})
      ensures !Passes(client.ecc.aget, 4 * asadIdx + agetIdx, chip, r, wchk) ==>
              OnlyRegs(old(client.ecc.aget), client.ecc.aget, 4 * asadIdx + agetIdx, Order(r), Order(r) + 1)
      ensures !Passes(client.ecc.aget, 4 * asadIdx + agetIdx, chip, q, wchk) ==>
              OnlyRegs(old(client.ecc.aget), client.ecc.aget, 4 * asadIdx + agetIdx, Order(r), Order(r) + 2)
      ensures !Passes(client.ecc.aget, 4 * asadIdx + agetIdx, chip, s, wchk) ==>
              OnlyRegs(old(client.ecc.aget), client.ecc.aget, 4 * asadIdx + agetIdx, Order(r), Order(r) + 3)
      ensures st == Accepted <==>
              && Passes(client.ecc.aget, 4 * asadIdx + agetIdx, chip, r, wchk)
              && Passes(client.ecc.aget, 4 * asadIdx + agetIdx, chip, q, wchk)
              && Passes(client.ecc.aget, 4 * asadIdx + agetIdx, chip, s, wchk)
              && Passes(client.ecc.aget, 4 * asadIdx + agetIdx, chip, t, wchk)
      ensures st == Accepted &&
              HoldsBelow(old(client.ecc.aget), 4 * asadIdx + agetIdx, chip, Order(r), client.ecc.faithful, wchk) ==>
              HoldsBelow(client.ecc.aget, 4 * asadIdx + agetIdx, chip, Order(r) + 4, client.ecc.faithful, wchk)
      ensures st == Missing ==> !WantsEvery(chip)
      ensures st == Mismatch ==> wchk && SomeRefused(client.ecc.aget, 4 * asadIdx + agetIdx, chip)
      ensures client.ecc.faithful || !wchk ==> st != Mismatch
    {
      st := SetTwo(chip, asadIdx, agetIdx, r, q, wchk);
      if st == Accepted {
        st := SetTwo(chip, asadIdx, agetIdx, s, t, wchk);
      }
    }

    /** The same, as far as the configuration of the whole chip needs it. */
    method SetGroup(chip: ChipConfig, asadIdx: nat, agetIdx: nat, ghost n: nat,
                    r: AgetReg, q: AgetReg, s: AgetReg, t: AgetReg, wchk: bool)
      returns (st: Status)
      requires client.ecc.Valid() && asadIdx < 4 && agetIdx < 4
      requires Order(r) == n && Order(q) == n + 1 && Order(s) == n + 2 && Order(t) == n + 3
      modifies client.ecc
      ensures client.ecc.Valid() && OnlyChip(old(client.ecc.aget), client.ecc.aget, 4 * asadIdx + agetIdx)
      ensures st == Accepted &&
              HoldsBelow(old(client.ecc.aget), 4 * asadIdx + agetIdx, chip, n, client.ecc.faithful, wchk) ==>
              HoldsBelow(client.ecc.aget, 4 * asadIdx + agetIdx, chip, n + 4, client.ecc.faithful, wchk)
      ensures Quiet(old(client.ecc.log), client.ecc.log)
      ensures OnlyFields(old(client.ecc.ctrl), client.ecc.ctrl, {ScEn, AgetChipSelect})
      ensures st == Missing ==> !WantsEvery(chip)
      ensures st == Mismatch ==> wchk && SomeRefused(client.ecc.aget, 4 * asadIdx + agetIdx, chip)
      ensures client.ecc.faithful || !wchk ==> st != Mismatch
    {
      st := SetFour(chip, asadIdx, agetIdx, r, q, s, t, wchk);
    }

    /** Register 12 and the readout depth of the CoBo, which it shortens. */
    method SetAgetReg12(cfg: CoboConfig, chip: ChipConfig, asadIdx: nat, agetIdx: nat, wchk: bool) returns (st: Status)
      requires client.ecc.Valid() && asadIdx < 4 && agetIdx < 4
      modifies client.ecc
      ensures client.ecc.Valid() && OnlyCell(old(client.ecc.aget), client.ecc.aget, Cell(4 * asadIdx + agetIdx, Reg12))
      ensures st == Accepted ==>
              Holds(client.ecc.aget, 4 * asadIdx + agetIdx, chip, Reg12, client.ecc.faithful, wchk)
      ensures st == Missing <==> chip.wanted(Reg12).None? || cfg.enableMem2pMode.None?
      ensures Quiet(old(client.ecc.log), client.ecc.log)
      ensures OnlyFields(old(client.ecc.ctrl), client.ecc.ctrl, {ScEn, AgetChipSelect, ReadDepth})
      ensures st != Missing ==>
              && client.ecc.ctrl[ReadDepth] == ReadDepthOf(chip.wanted(Reg12).value, cfg.enableMem2pMode.value)
              && (st == Accepted <==> Passes(client.ecc.aget, 4 * asadIdx + agetIdx, chip, Reg12, wchk))
              && (st == Mismatch <==> wchk && Refused(client.ecc.aget, 4 * asadIdx + agetIdx, chip, Reg12))
      ensures client.ecc.faithful || !wchk ==> st != Mismatch
    {
      if chip.wanted(Reg12).None? { return Missing; }
      var readoutPointerOffset := chip.wanted(Reg12).value % TWO_TO_THE_16;
      st := SetFromConfig(chip, asadIdx, agetIdx, Reg12, wchk);
      if cfg.enableMem2pMode.None? { return Missing; }
      var depth := ((if cfg.enableMem2pMode.value then 256 else 512) - readoutPointerOffset) % TWO_TO_THE_16;
      DepthOfWord(chip.wanted(Reg12).value, cfg.enableMem2pMode.value, readoutPointerOffset);
      client.SetCoBoReadDepth(depth);
    }

    /** Registers 9 to 12. */
    method SetLast(cfg: CoboConfig, chip: ChipConfig, asadIdx: nat, agetIdx: nat, wchk: bool) returns (st: Status)
      requires client.ecc.Valid() && asadIdx < 4 && agetIdx < 4
      modifies client.ecc
      ensures client.ecc.Valid() && OnlyChip(old(client.ecc.aget), client.ecc.aget, 4 * asadIdx + agetIdx)
      ensures st == Accepted ==>
              && chip.wanted(Reg12).Some? && cfg.enableMem2pMode.Some?
              && client.ecc.ctrl[ReadDepth] == ReadDepthOf(chip.wanted(Reg12).value, cfg.enableMem2pMode.value)
      ensures Quiet(old(client.ecc.log), client.ecc.log)
      ensures OnlyFields(old(client.ecc.ctrl), client.ecc.ctrl, {ScEn, AgetChipSelect, ReadDepth})
      ensures st == Accepted &&
              HoldsBelow(old(client.ecc.aget), 4 * asadIdx + agetIdx, chip, 8, client.ecc.faithful, wchk) ==>
              HoldsEvery(client.ecc.aget, 4 * asadIdx + agetIdx, chip, client.ecc.faithful, wchk) && WantsEvery(chip)
      ensures st == Missing ==> !WantsEvery(chip) || cfg.enableMem2pMode.None?
      ensures st == Mismatch ==> wchk && SomeRefused(client.ecc.aget, 4 * asadIdx + agetIdx, chip)
      ensures client.ecc.faithful || !wchk ==> st != Mismatch
    {
      ghost var i, faithful := 4 * asadIdx + agetIdx, client.ecc.faithful;
      st := SetGroup(chip, asadIdx, agetIdx, 8, Reg9, Reg9msb, Reg10, Reg11, wchk);
      if st == Accepted {
        ghost var before, log := client.ecc.aget, client.ecc.log;
        st := SetAgetReg12(cfg, chip, asadIdx, agetIdx, wchk);
        QuietFurther(old(client.ecc.log), log, client.ecc.log);
        LastRegister(before, client.ecc.aget, i, chip, faithful, wchk);
      }
    }

    /** Registers 1 to 4 and 6 to 12, each only if those before it were accepted. */
    method SetAgetRegs(cfg: CoboConfig, chip: ChipConfig, asadIdx: nat, agetIdx: nat, scCheck: bool)
      returns (st: Status)
      requires client.ecc.Valid() && asadIdx < 4 && agetIdx < 4
      modifies client.ecc
      ensures client.ecc.Valid() && OnlyChip(old(client.ecc.aget), client.ecc.aget, 4 * asadIdx + agetIdx)
      ensures st == Accepted ==>
              HoldsEvery(client.ecc.aget, 4 * asadIdx + agetIdx, chip, client.ecc.faithful, scCheck)
              && WantsEvery(chip) && cfg.enableMem2pMode.Some?
              && client.ecc.ctrl[ReadDepth] == ReadDepthOf(chip.wanted(Reg12).value, cfg.enableMem2pMode.value)
      ensures Quiet(old(client.ecc.log), client.ecc.log)
      ensures OnlyFields(old(client.ecc.ctrl), client.ecc.ctrl, {ScEn, AgetChipSelect, ReadDepth})
      ensures st == Missing ==> !WantsEvery(chip) || cfg.enableMem2pMode.None?
      ensures st == Mismatch ==> scCheck && SomeRefused(client.ecc.aget, 4 * asadIdx + agetIdx, chip)
      ensures client.ecc.faithful || !scCheck ==> st != Mismatch
    {
      st := SetGroup(chip, asadIdx, agetIdx, 0, Reg1, Reg2, Reg3, Reg4, scCheck);
      if st == Accepted {
        st := SetGroup(chip, asadIdx, agetIdx, 4, Reg6, Reg7, Reg8, Reg8msb, scCheck);
      }
      if st == Accepted {
        st := SetLast(cfg, chip, asadIdx, agetIdx, scCheck);
      }
    }

    method SelectAsAdForSlowControl(asadIdx: nat)
      requires client.ecc.Valid()
      modifies client.ecc`ctrl, client.ecc`device, client.ecc`log
      ensures client.ecc.Valid()
              && client.ecc.ctrl == old(client.ecc.ctrl)[AsadScMask := Shl(1, asadIdx)][AsadSelect := asadIdx]
      ensures client.ecc.log == old(client.ecc.log) + SelectWrites(asadIdx)
    {
      client.SetAsAdSlowControlMask(Shl(1, asadIdx));
      client.SelectAsAdForRead(asadIdx);
    }

    method SelectAgetForSlowControl(asadIdx: nat, agetIdx: nat)
      requires client.ecc.Valid()
      modifies client.ecc`ctrl, client.ecc`device, client.ecc`log
      ensures client.ecc.Valid()
      ensures client.ecc.ctrl
           == old(client.ecc.ctrl)[ScEn := Shl(1, 4 * asadIdx + agetIdx)][AgetChipSelect := 4 * asadIdx + agetIdx]
      ensures Quiet(old(client.ecc.log), client.ecc.log)
    {
      client.SetAgetSlowControlMask(Shl(1, 4 * asadIdx + agetIdx));
      client.SelectAgetForRead(asadIdx, agetIdx);
    }

    /** Everything `configure` does to one active chip, once slow control has the link. */
    method ConfigureChip(cfg: CoboConfig, chip: ChipConfig, asadIdx: nat, agetIdx: nat) returns (outcome: Outcome)
      requires client.ecc.Valid() && asadIdx < 4 && agetIdx < 4 && SlowControlMode(client.ecc.ctrl)
      modifies client.ecc
      ensures client.ecc.Valid() && OnlyChip(old(client.ecc.aget), client.ecc.aget, 4 * asadIdx + agetIdx)
      ensures outcome == Returned ==>
              Writable(cfg, chip) && ChipHolds(client.ecc.aget, 4 * asadIdx + agetIdx, chip, client.ecc.faithful)
      ensures outcome == Returned ==> Settings(cfg, chip, client.ecc.ctrl)
      ensures Quiet(old(client.ecc.log), client.ecc.log) && SlowControlMode(client.ecc.ctrl)
      ensures OnlyFields(old(client.ecc.ctrl), client.ecc.ctrl, CHIP_FIELDS)
      ensures outcome == NotFound ==> !Writable(cfg, chip)
      ensures outcome == Failed ==>
              chip.scCheckMode == Some(true) && SomeRefused(client.ecc.aget, 4 * asadIdx + agetIdx, chip)
      ensures client.ecc.faithful || chip.scCheckMode != Some(true) ==> outcome != Failed
    {
      SelectAgetForSlowControl(asadIdx, agetIdx);
      OneBit(4 * asadIdx + agetIdx);
      if chip.isFPNRead.None? { return NotFound; }
      client.EnableFPNRead(chip.isFPNRead.value);
      if chip.scCheckMode.None? { return NotFound; }
      var st := SetAgetRegs(cfg, chip, asadIdx, agetIdx, chip.scCheckMode.value);
      outcome := match st case Accepted => Returned case Mismatch => Failed case Missing => NotFound;
    }

    /** One step of the loop over the chips: an inactive chip is passed over.  `before` and `start` are
        the registers and the control fields at the start of the whole configuration. */
    method ConfigureNextChip(cfg: CoboConfig, asadIdx: nat, agetIdx: nat, ghost before: map<Cell, nat>,
                             ghost start: map<CtrlField, nat>)
      returns (outcome: Outcome)
      requires client.ecc.Valid() && Shaped(cfg) && asadIdx < 4 && agetIdx < 4 && SlowControlMode(client.ecc.ctrl)
      requires Progress(cfg, before, client.ecc.aget, 4 * asadIdx + agetIdx, client.ecc.faithful)
      requires LastSettings(cfg, 4 * asadIdx + agetIdx, start, client.ecc.ctrl)
      modifies client.ecc
      ensures client.ecc.Valid() && InactiveUntouched(cfg, before, client.ecc.aget)
      ensures outcome == Returned ==>
              && Progress(cfg, before, client.ecc.aget, 4 * asadIdx + agetIdx + 1, client.ecc.faithful)
              && LastSettings(cfg, 4 * asadIdx + agetIdx + 1, start, client.ecc.ctrl)
      ensures Quiet(old(client.ecc.log), client.ecc.log) && SlowControlMode(client.ecc.ctrl)
      ensures outcome == NotFound ==> Lacking(cfg, 4 * asadIdx + agetIdx)
      ensures outcome == Failed ==> ChipRefused(cfg, client.ecc.aget, 4 * asadIdx + agetIdx)
      ensures client.ecc.faithful || Unchecked(cfg) ==> outcome != Failed
    {
      ghost var i, faithful, middle := 4 * asadIdx + agetIdx, client.ecc.faithful, client.ecc.aget;
      assert i / 4 == asadIdx && i % 4 == agetIdx;
      ProgressSpares(cfg, before, middle, i, faithful);
      var isChipActive := AgetActive(cfg, 4 * asadIdx + agetIdx);
      if isChipActive.None? { return NotFound; }
      outcome := Returned;
      if isChipActive.value {
        outcome := ConfigureChip(cfg, cfg.boards[asadIdx].chips[agetIdx], asadIdx, agetIdx);
        ProgressStep(cfg, before, middle, client.ecc.aget, i, faithful, outcome);
        if outcome == Returned { SettingsOfChip(cfg, i, start, client.ecc.ctrl); }
      } else {
        ProgressSkip(cfg, before, middle, i, faithful);
        LastActiveSkips(cfg, i);
      }
    }

    /** The loop over the chips of one active board. */
    method ConfigureBoard(cfg: CoboConfig, asadIdx: nat, ghost before: map<Cell, nat>, ghost start: map<CtrlField, nat>)
      returns (outcome: Outcome)
      requires client.ecc.Valid() && Shaped(cfg) && asadIdx < 4 && AsadActive(cfg, asadIdx) == Some(true)
      requires Progress(cfg, before, client.ecc.aget, 4 * asadIdx, client.ecc.faithful)
      requires SlowControlMode(client.ecc.ctrl) && LastSettings(cfg, 4 * asadIdx, start, client.ecc.ctrl)
      modifies client.ecc
      ensures client.ecc.Valid() && InactiveUntouched(cfg, before, client.ecc.aget)
      ensures outcome == Returned ==>
              && Progress(cfg, before, client.ecc.aget, 4 * asadIdx + 4, client.ecc.faithful)
              && LastSettings(cfg, 4 * asadIdx + 4, start, client.ecc.ctrl)
      ensures Quiet(old(client.ecc.log), client.ecc.log) && SlowControlMode(client.ecc.ctrl)
      ensures outcome == NotFound ==> exists i: nat :: i < 16 && Lacking(cfg, i)
      ensures outcome == Failed ==> SomeChipRefused(cfg, client.ecc.aget)
      ensures client.ecc.faithful || Unchecked(cfg) ==> outcome != Failed
    {
      ghost var faithful := client.ecc.faithful;
      var agetIdx := 0;
      while agetIdx < 4
        invariant 0 <= agetIdx <= 4 && client.ecc.Valid()
        invariant Progress(cfg, before, client.ecc.aget, 4 * asadIdx + agetIdx, faithful)
        invariant Quiet(old(client.ecc.log), client.ecc.log) && SlowControlMode(client.ecc.ctrl)
        invariant LastSettings(cfg, 4 * asadIdx + agetIdx, start, client.ecc.ctrl)
      {
        ghost var log := client.ecc.log;
        outcome := ConfigureNextChip(cfg, asadIdx, agetIdx, before, start);
        QuietFurther(old(client.ecc.log), log, client.ecc.log);
        if outcome != Returned { return; }
        agetIdx := agetIdx + 1;
      }
      ProgressSpares(cfg, before, client.ecc.aget, 4 * asadIdx + 4, faithful);
      outcome := Returned;
    }

    /** The board is selected and the chips are switched to slow control. */
    method OpenSession(asadIdx: nat)
      requires client.ecc.Valid()
      modifies client.ecc`ctrl, client.ecc`device, client.ecc`log
      ensures client.ecc.Valid() && SlowControlMode(client.ecc.ctrl)
      ensures client.ecc.log == old(client.ecc.log) + SelectWrites(asadIdx) + SwitchWrites(client.agetMask)
      ensures client.ecc.ctrl[IsFpnRead] == old(client.ecc.ctrl)[IsFpnRead]
      ensures client.ecc.ctrl[ReadDepth] == old(client.ecc.ctrl)[ReadDepth]
    {
      SelectAsAdForSlowControl(asadIdx);
      client.SwitchToSlowControl();
    }

    /** The chips are switched again, and the board is selected again. */
    method CloseSession(asadIdx: nat)
      requires client.ecc.Valid()
      modifies client.ecc`ctrl, client.ecc`device, client.ecc`log
      ensures client.ecc.Valid() && SlowControlMode(client.ecc.ctrl)
      ensures client.ecc.log == old(client.ecc.log) + SwitchWrites(client.agetMask) + SelectWrites(asadIdx)
      ensures client.ecc.ctrl[IsFpnRead] == old(client.ecc.ctrl)[IsFpnRead]
      ensures client.ecc.ctrl[ReadDepth] == old(client.ecc.ctrl)[ReadDepth]
    {
      client.SwitchToSlowControl();
      SelectAsAdForSlowControl(asadIdx);
    }

    /** The session of one active board; `first` are the writes before the whole configuration. */
    method ConfigureActiveBoard(cfg: CoboConfig, asadIdx: nat, ghost before: map<Cell, nat>,
                                ghost start: map<CtrlField, nat>, ghost first: seq<Operation>)
      returns (outcome: Outcome)
      requires client.ecc.Valid() && Shaped(cfg) && asadIdx < 4 && AsadActive(cfg, asadIdx) == Some(true)
      requires Progress(cfg, before, client.ecc.aget, 4 * asadIdx, client.ecc.faithful)
      requires LastSettings(cfg, 4 * asadIdx, start, client.ecc.ctrl)
      requires Guarded(first, client.ecc.log, client.agetMask)
      requires Sessions(cfg, asadIdx, client.agetMask, client.ecc.log[|first|..])
      modifies client.ecc
      ensures client.ecc.Valid() && InactiveUntouched(cfg, before, client.ecc.aget)
      ensures Guarded(first, client.ecc.log, client.agetMask)
      ensures outcome == Returned ==>
              && Progress(cfg, before, client.ecc.aget, 4 * asadIdx + 4, client.ecc.faithful)
              && LastSettings(cfg, 4 * asadIdx + 4, start, client.ecc.ctrl) && SlowControlMode(client.ecc.ctrl)
              && Sessions(cfg, asadIdx + 1, client.agetMask, client.ecc.log[|first|..])
      ensures outcome == NotFound ==> exists i: nat :: i < 16 && Lacking(cfg, i)
      ensures outcome == Failed ==> SomeChipRefused(cfg, client.ecc.aget)
      ensures client.ecc.faithful || Unchecked(cfg) ==> outcome != Failed
    {
      ghost var mask, l1, c1 := client.agetMask, client.ecc.log, client.ecc.ctrl;
      OpenSession(asadIdx);
      SettingsKept(cfg, 4 * asadIdx, start, c1, client.ecc.ctrl);
      ghost var l2 := client.ecc.log;
      outcome := ConfigureBoard(cfg, asadIdx, before, start);
      ghost var l3, c3 := client.ecc.log, client.ecc.ctrl;
      GuardedSession(first, l1, l2, l3, asadIdx, mask);
      if outcome != Returned { return; }
      CloseSession(asadIdx);
      SettingsKept(cfg, 4 * asadIdx + 4, start, c3, client.ecc.ctrl);
      GuardedEnd(first, l3, client.ecc.log, asadIdx, mask);
      SessionDone(cfg, asadIdx, mask, first, l1, l2, l3, client.ecc.log);
    }

    /** The loop over the boards. */
    method ConfigureBoards(cfg: CoboConfig) returns (outcome: Outcome)
      requires client.ecc.Valid() && Shaped(cfg)
      modifies client.ecc
      ensures client.ecc.Valid() && InactiveUntouched(cfg, old(client.ecc.aget), client.ecc.aget)
      ensures outcome == Returned ==> Progress(cfg, old(client.ecc.aget), client.ecc.aget, 16, client.ecc.faithful)
      ensures Guarded(old(client.ecc.log), client.ecc.log, client.agetMask)
      ensures outcome == Returned ==>
              && Sessions(cfg, 4, client.agetMask, client.ecc.log[|old(client.ecc.log)|..])
              && (SomeBoard(cfg, 4) ==> SlowControlMode(client.ecc.ctrl))
              && LastSettings(cfg, 16, old(client.ecc.ctrl), client.ecc.ctrl)
      ensures outcome == NotFound ==> exists i: nat :: i < 16 && Lacking(cfg, i)
      ensures outcome == Failed ==> SomeChipRefused(cfg, client.ecc.aget)
      ensures client.ecc.faithful || Unchecked(cfg) ==> outcome != Failed
    {
      ghost var before, faithful, start, first := client.ecc.aget, client.ecc.faithful, client.ecc.ctrl, client.ecc.log;
      var asadIdx := 0;
      while asadIdx < 4
        invariant 0 <= asadIdx <= 4 && client.ecc.Valid()
        invariant Progress(cfg, before, client.ecc.aget, 4 * asadIdx, faithful)
        invariant Guarded(first, client.ecc.log, client.agetMask)
        invariant Sessions(cfg, asadIdx, client.agetMask, client.ecc.log[|first|..])
        invariant SomeBoard(cfg, asadIdx) ==> SlowControlMode(client.ecc.ctrl)
        invariant LastSettings(cfg, 4 * asadIdx, start, client.ecc.ctrl)
      {
        var isBoardActive := AsadActive(cfg, asadIdx);
        if isBoardActive.None? {
          assert Lacking(cfg, 4 * asadIdx);
          return NotFound;
        }
        if isBoardActive.value {
          outcome := ConfigureActiveBoard(cfg, asadIdx, before, start, first);
          if outcome != Returned { return; }
        } else {
          ProgressSkipBoard(cfg, before, client.ecc.aget, asadIdx, faithful);
          SettingsSkipBoard(cfg, asadIdx, start, client.ecc.ctrl);
        }
        asadIdx := asadIdx + 1;
      }
      outcome := Returned;
    }

    /** Whether all active chips are read in full; it fails if some are and some are not. */
    method IsFullReadoutModeEnabled(cfg: CoboConfig) returns (outcome: Outcome, full: bool)
      requires Shaped(cfg)
      ensures outcome == NotFound ==> exists i: nat :: i < 16 && ReadoutUnknown(cfg, i)
      ensures outcome == Failed ==> !UniformReadout(cfg)
      ensures outcome == Returned ==> forall i: nat :: i < 16 ==>
              && !ReadoutUnknown(cfg, i)
              && (AgetActive(cfg, i) == Some(true) ==> ChipOf(cfg, i).isAllChannelRead == Some(full))
    {
      var partialReadoutCount, activeChipCount := 0, 0;
      var asadIdx := 0;
      while asadIdx < 4
        invariant 0 <= asadIdx <= 4
        invariant Counted(cfg, 4 * asadIdx, partialReadoutCount, activeChipCount)
      {
        var agetIdx := 0;
        while agetIdx < 4
          invariant 0 <= agetIdx <= 4
          invariant Counted(cfg, 4 * asadIdx + agetIdx, partialReadoutCount, activeChipCount)
        {
          ghost var i := 4 * asadIdx + agetIdx;
          assert i / 4 == asadIdx && i % 4 == agetIdx;
          var isChipActive := AgetActive(cfg, 4 * asadIdx + agetIdx);
          if isChipActive.None? {
            assert ReadoutUnknown(cfg, i);
            outcome, full := NotFound, true;
            return;
          }
          if isChipActive.value {
            activeChipCount := activeChipCount + 1;
            var isAllChannelRead := cfg.boards[asadIdx].chips[agetIdx].isAllChannelRead;
            if isAllChannelRead.None? {
              assert ReadoutUnknown(cfg, i);
              outcome, full := NotFound, true;
              return;
            }
            CountedStep(cfg, i, partialReadoutCount, activeChipCount - 1);
            if !isAllChannelRead.value { partialReadoutCount := partialReadoutCount + 1; }
          } else {
            CountedStep(cfg, i, partialReadoutCount, activeChipCount);
          }
          agetIdx := agetIdx + 1;
        }
        asadIdx := asadIdx + 1;
      }
      CountedVerdict(cfg, partialReadoutCount, activeChipCount);
      outcome, full := Returned, true;
      if partialReadoutCount > 0 {
        if partialReadoutCount == activeChipCount {
          full := false;
        } else {
          outcome := Failed;
        }
      }
    }

    /** After the boards: the two masks are set, and the readout mode if the chips agree on one. */
    method ApplyModes(cfg: CoboConfig) returns (outcome: Outcome)
      requires client.ecc.Valid() && Shaped(cfg)
      modifies client.ecc`ctrl, client.ecc`device, client.ecc`log
      ensures client.ecc.Valid()
      ensures SlowControlMode(old(client.ecc.ctrl)) ==> SlowControlMode(client.ecc.ctrl)
      ensures client.ecc.ctrl[IsFpnRead] == old(client.ecc.ctrl)[IsFpnRead]
      ensures client.ecc.ctrl[ReadDepth] == old(client.ecc.ctrl)[ReadDepth]
      ensures client.ecc.ctrl[AsadScMask] == asadMask && client.ecc.ctrl[ScEn] == agetMask
      ensures client.ecc.log == old(client.ecc.log) + MaskWrites(asadMask, agetMask)
                + if outcome == Returned then [CtrlWrite(PartialReadOut, client.ecc.ctrl[PartialReadOut])] else []
      ensures outcome == NotFound ==> exists i: nat :: i < 16 && ReadoutUnknown(cfg, i)
      ensures outcome == Failed ==> !UniformReadout(cfg)
      ensures outcome == Returned ==> forall i: nat :: i < 16 ==>
              && !ReadoutUnknown(cfg, i)
              && (AgetActive(cfg, i) == Some(true) ==>
                    ChipOf(cfg, i).isAllChannelRead == Some(client.ecc.ctrl[PartialReadOut] == 0))
    {
      client.SetAsAdSlowControlMask(asadMask);
      client.SetAgetSlowControlMask(agetMask);
      var full;
      outcome, full := IsFullReadoutModeEnabled(cfg);
      if outcome == Returned {
        client.SetFullReadOutMode(full);
      }
    }

    /** All of `configure` that follows finding the masks. */
    method Apply(cfg: CoboConfig) returns (outcome: Outcome)
      requires client.ecc.Valid() && Shaped(cfg)
      modifies client, client.ecc
      ensures client.ecc.Valid() && InactiveUntouched(cfg, old(client.ecc.aget), client.ecc.aget)
      ensures outcome == Returned ==>
              && Complete(cfg) && UniformReadout(cfg)
              && Delivered(cfg, client.ecc.aget, client.ecc.ctrl[PartialReadOut], client.ecc.faithful)
              && client.ecc.ctrl[ScEn] == agetMask == client.agetMask
              && client.ecc.ctrl[AsadScMask] == asadMask == client.asadMask
      ensures client.ecc.faithful || Unchecked(cfg) ==> (outcome == Returned <==> Complete(cfg) && UniformReadout(cfg))
      ensures outcome == Failed && (client.ecc.faithful || Unchecked(cfg)) ==>
              !UniformReadout(cfg) && AllHold(cfg, client.ecc.aget, client.ecc.faithful)
      ensures outcome == Failed ==>
              || SomeChipRefused(cfg, client.ecc.aget)
              || (!UniformReadout(cfg) && AllHold(cfg, client.ecc.aget, client.ecc.faithful))
      ensures Guarded(old(client.ecc.log), client.ecc.log, agetMask)
      ensures outcome == Returned ==>
              && WholeLog(cfg, agetMask, asadMask, client.ecc.ctrl[PartialReadOut],
                          client.ecc.log[|old(client.ecc.log)|..])
              && (SomeBoard(cfg, 4) ==> SlowControlMode(client.ecc.ctrl))
              && LastSettings(cfg, 16, old(client.ecc.ctrl), client.ecc.ctrl)
      ensures Complete(cfg) ==> outcome != NotFound
    {
      client.SetActiveAsAdMask(asadMask);
      client.SetActiveAGetMask(agetMask);
      outcome := ConfigureBoards(cfg);
      if outcome != Returned { return; }
      AllProcessed(cfg, old(client.ecc.aget), client.ecc.aget, client.ecc.faithful);
      ghost var boards, settings := client.ecc.log, client.ecc.ctrl;
      outcome := ApplyModes(cfg);
      SettingsKept(cfg, 16, old(client.ecc.ctrl), settings, client.ecc.ctrl);
      LogApplied(cfg, agetMask, asadMask, client.ecc.ctrl[PartialReadOut], outcome == Returned, old(client.ecc.log),
                 boards, client.ecc.log);
      if outcome == Returned {
        AllDelivered(cfg, client.ecc.aget, client.ecc.ctrl[PartialReadOut], client.ecc.faithful);
      }
    }

    /** The whole configuration.  Whatever happens, inactive chips keep every register.  If the
        call returns, every active chip holds what its configuration asks for, the masks say
        which boards and chips are active, and the readout modes agree.  On faithful hardware,
        or if no chip is checked, it returns exactly when no option it needs is missing and the
        readout modes agree; if only the modes disagree it fails, after all chips were written. */
    method Configure(cfg: CoboConfig) returns (outcome: Outcome)
      requires client.ecc.Valid() && Shaped(cfg)
      modifies this, client, client.ecc
      ensures client.ecc.Valid() && InactiveUntouched(cfg, old(client.ecc.aget), client.ecc.aget)
      ensures OnlyActiveNodes(cfg, old(client.ecc.aget), client.ecc.aget)
      ensures outcome == Returned ==>
              && Complete(cfg) && UniformReadout(cfg)
              && Delivered(cfg, client.ecc.aget, client.ecc.ctrl[PartialReadOut], client.ecc.faithful)
              && client.ecc.ctrl[ScEn] == agetMask == client.agetMask
              && client.ecc.ctrl[AsadScMask] == asadMask == client.asadMask
              && (forall i: nat :: Bit(agetMask, i) <==> i < 16 && AgetActive(cfg, i) == Some(true))
              && (forall a: nat :: Bit(asadMask, a) <==> a < 4 && AsadActive(cfg, a) == Some(true))
      ensures client.ecc.faithful || Unchecked(cfg) ==> (outcome == Returned <==> Complete(cfg) && UniformReadout(cfg))
      ensures outcome == Failed && (client.ecc.faithful || Unchecked(cfg)) ==>
              !UniformReadout(cfg) && AllHold(cfg, client.ecc.aget, client.ecc.faithful)
      ensures outcome == Failed ==>
              || SomeChipRefused(cfg, client.ecc.aget)
              || (!UniformReadout(cfg) && AllHold(cfg, client.ecc.aget, client.ecc.faithful))
      ensures Complete(cfg) && (client.ecc.faithful || Unchecked(cfg)) ==> (outcome == Failed <==> !UniformReadout(cfg))
      ensures Complete(cfg) ==> (outcome == Failed <==> !UniformReadout(cfg) || SomeChipRefused(cfg, client.ecc.aget))
      ensures Guarded(old(client.ecc.log), client.ecc.log, agetMask)
      ensures outcome == Returned ==>
              && WholeLog(cfg, agetMask, asadMask, client.ecc.ctrl[PartialReadOut],
                          client.ecc.log[|old(client.ecc.log)|..])
              && (SomeBoard(cfg, 4) ==> SlowControlMode(client.ecc.ctrl))
              && LastSettings(cfg, 16, old(client.ecc.ctrl), client.ecc.ctrl)
    {
      outcome := SetMasks(cfg);
      if outcome != Returned {
        assert Lacking(cfg, 0);
        return;
      }
      outcome := Apply(cfg);
      OnlyActiveDiffer(cfg, old(client.ecc.aget), client.ecc.aget);
      if outcome == Returned {
        CompleteMasks(cfg);
        NoneRefused(cfg, client.ecc.aget, client.ecc.faithful);
      }
    }

    /** Reads register 1 of a chip, replaces the threshold, and writes it back to that chip. */
    method SetGlobalRegThreshold(asadIdx: nat, agetIdx: nat, value: nat)
      requires client.ecc.Valid() && asadIdx < 4 && agetIdx < 4
      modifies client.ecc
      ensures client.ecc.Valid()
      ensures OnlyCell(old(client.ecc.aget), client.ecc.aget, Cell(4 * asadIdx + agetIdx, Reg1))
      ensures client.ecc.log == old(client.ecc.log) + ThresholdWrites(4 * asadIdx + agetIdx)
      ensures client.ecc.faithful ==> ThresholdSet(old(client.ecc.aget), client.ecc.aget, 4 * asadIdx + agetIdx, value)
    {
      var regValue := client.AgetRegRSC(asadIdx, agetIdx, Reg1);
      ThresholdFramed(regValue, value);
      client.AgetRegWSC(asadIdx, agetIdx, Reg1, SetField(regValue, 19, 3, value));
    }

    /** Only register 1 of active chips changes, and on faithful hardware only its threshold bits. */
    method InitializeGlobalThresholds(cfg: CoboConfig, value: nat) returns (outcome: Outcome)
      requires client.ecc.Valid() && Shaped(cfg)
      modifies client.ecc
      ensures client.ecc.Valid()
      ensures outcome == Returned <==> forall i: nat :: i < 16 ==> AgetActive(cfg, i).Some?
      ensures old(client.ecc.log) + [CtrlWrite(ScEn, agetMask)] <= client.ecc.log
      ensures InactiveUntouched(cfg, old(client.ecc.aget), client.ecc.aget)
      ensures forall i: nat :: i < 16 ==> OnlyReg1(old(client.ecc.aget), client.ecc.aget, i)
      ensures client.ecc.faithful && outcome == Returned ==>
              forall i: nat :: i < 16 && AgetActive(cfg, i) == Some(true) ==>
              ThresholdSet(old(client.ecc.aget), client.ecc.aget, i, value)
    {
      client.SetAgetSlowControlMask(agetMask);
      ghost var before, faithful, masked := client.ecc.aget, client.ecc.faithful, client.ecc.log;
      var asadIdx := 0;
      while asadIdx < 4
        invariant 0 <= asadIdx <= 4 && client.ecc.Valid()
        invariant ThresholdsDone(cfg, before, client.ecc.aget, 4 * asadIdx, value, faithful)
        invariant masked <= client.ecc.log
      {
        var agetIdx := 0;
        while agetIdx < 4
          invariant 0 <= agetIdx <= 4 && client.ecc.Valid()
          invariant ThresholdsDone(cfg, before, client.ecc.aget, 4 * asadIdx + agetIdx, value, faithful)
          invariant masked <= client.ecc.log
        {
          ghost var n := 4 * asadIdx + agetIdx;
          ghost var middle := client.ecc.aget;
          assert n / 4 == asadIdx && n % 4 == agetIdx;
          var isChipActive := AgetActive(cfg, 4 * asadIdx + agetIdx);
          ThresholdsSoFar(cfg, before, middle, n, value, faithful);
          if isChipActive.None? { return NotFound; }
          if isChipActive.value {
            SetGlobalRegThreshold(asadIdx, agetIdx, value);
            ThresholdStep(cfg, before, middle, client.ecc.aget, n, value, faithful);
          } else {
            ThresholdSkip(cfg, before, middle, n, value, faithful);
          }
          agetIdx := agetIdx + 1;
        }
        asadIdx := asadIdx + 1;
      }
      ThresholdsSoFar(cfg, before, client.ecc.aget, 16, value, faithful);
      outcome := Returned;
    }
  }

  // ---------- the switches to slow control ----------

  ghost function SelectWrites(asadIdx: nat): (ws: seq<Operation>)
    ensures |ws| == 2
  {
    [CtrlWrite(AsadScMask, Shl(1, asadIdx)), CtrlWrite(AsadSelect, asadIdx)]
  }

  /** Since `start`, the chips of the mask were switched to slow control before p, and nothing has
      switched them since. */
  ghost predicate Switched(log: seq<Operation>, start: nat, p: nat, mask: nat) {
    exists q :: SwitchedAt(log, start, p, mask, q)
  }

  ghost predicate SwitchedAt(log: seq<Operation>, start: nat, p: nat, mask: nat, q: int) {
    && start <= q && q + 10 <= p <= |log| && log[q..q + 10] == SwitchWrites(mask)
    && forall r :: q + 10 <= r < p ==> !Switches(log[r])
  }

  /** All that was written to chips since `before` was written in slow-control mode. */
  ghost predicate Guarded(before: seq<Operation>, after: seq<Operation>, mask: nat) {
    && before <= after
    && forall p :: |before| <= p < |after| && after[p].AgetWrite? ==> Switched(after, |before|, p, mask)
  }

  lemma SwitchedPrefix(log: seq<Operation>, longer: seq<Operation>, start: nat, p: nat, mask: nat)
    requires log <= longer && Switched(log, start, p, mask)
    ensures Switched(longer, start, p, mask)
  {
    var q :| SwitchedAt(log, start, p, mask, q);
    assert longer[q..q + 10] == log[q..q + 10];
    assert SwitchedAt(longer, start, p, mask, q);
  }

  lemma GuardedTail(first: seq<Operation>, log: seq<Operation>, longer: seq<Operation>, mask: nat,
                    tail: seq<Operation>)
    requires Guarded(first, log, mask) && longer == log + tail
    requires forall p :: 0 <= p < |tail| ==> tail[p].CtrlWrite?
    ensures Guarded(first, longer, mask)
  {
    forall p | |first| <= p < |longer| && longer[p].AgetWrite? ensures Switched(longer, |first|, p, mask) {
      if p < |log| { SwitchedPrefix(log, longer, |first|, p, mask); }
    }
  }

  /** The session of one board: selected and switched, then whatever stays in slow control. */
  lemma GuardedSession(first: seq<Operation>, l1: seq<Operation>, l2: seq<Operation>, l3: seq<Operation>, a: nat,
                       mask: nat)
    requires Guarded(first, l1, mask) && l2 == l1 + SelectWrites(a) + SwitchWrites(mask) && Quiet(l2, l3)
    ensures Guarded(first, l3, mask)
  {
    var q := |l1| + 2;
    assert l3[q..q + 10] == l2[q..q + 10] == SwitchWrites(mask);
    assert forall r :: |l1| <= r < |l2| ==> l3[r] == l2[r] && l2[r].CtrlWrite?;
    forall p | |first| <= p < |l3| && l3[p].AgetWrite? ensures Switched(l3, |first|, p, mask) {
      if p < |l1| {
        SwitchedPrefix(l1, l3, |first|, p, mask);
      } else {
        assert SwitchedAt(l3, |first|, p, mask, q);
      }
    }
  }

  lemma GuardedEnd(first: seq<Operation>, l3: seq<Operation>, l4: seq<Operation>, a: nat, mask: nat)
    requires Guarded(first, l3, mask) && l4 == l3 + SwitchWrites(mask) + SelectWrites(a)
    ensures Guarded(first, l4, mask)
  {
    assert l4 == l3 + (SwitchWrites(mask) + SelectWrites(a));
    GuardedTail(first, l3, l4, mask, SwitchWrites(mask) + SelectWrites(a));
  }

  /** What is written for one board: it is selected, the chips are switched to slow control, the chips
      are written, the chips are switched again, and it is selected again. */
  ghost predicate Session(ops: seq<Operation>, a: nat, mask: nat) {
    var head, tail := SelectWrites(a) + SwitchWrites(mask), SwitchWrites(mask) + SelectWrites(a);
    && 24 <= |ops| && ops[..12] == head && ops[|ops| - 12..] == tail
    && forall p :: 12 <= p < |ops| - 12 ==> !Switches(ops[p])
  }

  /** One session for each active board below n, in order, and nothing else. */
  ghost predicate Sessions(cfg: CoboConfig, n: nat, mask: nat, ops: seq<Operation>)
    requires Shaped(cfg) && n <= 4
  {
    if n == 0 then ops == []
    else if AsadActive(cfg, n - 1) == Some(true) then
      exists k :: 0 <= k <= |ops| && Sessions(cfg, n - 1, mask, ops[..k]) && Session(ops[k..], n - 1, mask)
    else Sessions(cfg, n - 1, mask, ops)
  }

  lemma SessionIs(ops: seq<Operation>, a: nat, mask: nat, mid: seq<Operation>)
    requires ops == SelectWrites(a) + SwitchWrites(mask) + mid + SwitchWrites(mask) + SelectWrites(a)
    requires forall p :: 0 <= p < |mid| ==> !Switches(mid[p])
    ensures Session(ops, a, mask)
  {
    assert forall p :: 12 <= p < |ops| - 12 ==> ops[p] == mid[p - 12];
  }

  lemma SessionDone(cfg: CoboConfig, a: nat, mask: nat, first: seq<Operation>, l1: seq<Operation>, l2: seq<Operation>,
                    l3: seq<Operation>, l4: seq<Operation>)
    requires Shaped(cfg) && a < 4 && AsadActive(cfg, a) == Some(true) && first <= l1
    requires Sessions(cfg, a, mask, l1[|first|..]) && l2 == l1 + SelectWrites(a) + SwitchWrites(mask) && Quiet(l2, l3)
    requires l4 == l3 + SwitchWrites(mask) + SelectWrites(a)
    ensures Sessions(cfg, a + 1, mask, l4[|first|..])
  {
    var ops, k := l4[|first|..], |l1| - |first|;
    var mid := l3[|l2|..];
    assert l3 == l2 + mid;
    assert ops[..k] == l1[|first|..];
    assert ops[k..] == SelectWrites(a) + SwitchWrites(mask) + mid + SwitchWrites(mask) + SelectWrites(a);
    SessionIs(ops[k..], a, mask, mid);
  }

  ghost function MaskWrites(asadMask: nat, agetMask: nat): seq<Operation> {
    [CtrlWrite(AsadScMask, asadMask), CtrlWrite(ScEn, agetMask)]
  }

  /** The whole call: the boards' sessions, then the two masks and the readout mode. */
  ghost predicate WholeLog(cfg: CoboConfig, agetMask: nat, asadMask: nat, partialReadOut: nat, ops: seq<Operation>)
    requires Shaped(cfg)
  {
    && 3 <= |ops| && Sessions(cfg, 4, agetMask, ops[..|ops| - 3])
    && ops[|ops| - 3..]
       == [CtrlWrite(AsadScMask, asadMask), CtrlWrite(ScEn, agetMask), CtrlWrite(PartialReadOut, partialReadOut)]
  }

  lemma LogApplied(cfg: CoboConfig, agetMask: nat, asadMask: nat, partialReadOut: nat, returned: bool,
                   first: seq<Operation>, boards: seq<Operation>, log: seq<Operation>)
    requires Shaped(cfg) && Guarded(first, boards, agetMask) && Sessions(cfg, 4, agetMask, boards[|first|..])
    requires log == boards + MaskWrites(asadMask, agetMask)
                    + if returned then [CtrlWrite(PartialReadOut, partialReadOut)] else []
    ensures Guarded(first, log, agetMask)
    ensures returned ==> WholeLog(cfg, agetMask, asadMask, partialReadOut, log[|first|..])
  {
    var tail := MaskWrites(asadMask, agetMask) + if returned then [CtrlWrite(PartialReadOut, partialReadOut)] else [];
    assert log == boards + tail;
    GuardedTail(first, boards, log, agetMask, tail);
    if returned {
      var ops := log[|first|..];
      assert ops[..|ops| - 3] == boards[|first|..];
    }
  }

  ghost predicate SomeBoard(cfg: CoboConfig, n: nat)
    requires Shaped(cfg) && n <= 4
  {
    exists a: nat :: a < n && AsadActive(cfg, a) == Some(true)
  }

  // ---------- what the last chip leaves in the CoBo ----------

  const CHIP_FIELDS: set<CtrlField> := {ScEn, AgetChipSelect, ReadDepth, IsFpnRead}

  /** The fields of the CoBo that follow the chip configured last. */
  ghost predicate Settings(cfg: CoboConfig, chip: ChipConfig, ctrl: map<CtrlField, nat>) {
    && chip.isFPNRead.Some? && chip.wanted(Reg12).Some? && cfg.enableMem2pMode.Some?
    && IsFpnRead in ctrl && ctrl[IsFpnRead] == (if chip.isFPNRead.value then 1 else 0)
    && ReadDepth in ctrl && ctrl[ReadDepth] == ReadDepthOf(chip.wanted(Reg12).value, cfg.enableMem2pMode.value)
  }

  /** The last active chip below n. */
  ghost function LastActive(cfg: CoboConfig, n: nat): (last: Option<nat>)
    requires Shaped(cfg) && n <= 16
    ensures last.Some? ==> last.value < n
  {
    if n == 0 then None else if AgetActive(cfg, n - 1) == Some(true) then Some(n - 1) else LastActive(cfg, n - 1)
  }

  lemma {:induction false} LastActiveIs(cfg: CoboConfig, n: nat)
    requires Shaped(cfg) && n <= 16
    ensures match LastActive(cfg, n)
            case Some(i) => i < n && AgetActive(cfg, i) == Some(true)
                            && forall j :: i < j < n ==> AgetActive(cfg, j) != Some(true)
            case None => forall j: nat :: j < n ==> AgetActive(cfg, j) != Some(true)
  {
    if n > 0 { LastActiveIs(cfg, n - 1); }
  }

  ghost predicate LastSettings(cfg: CoboConfig, n: nat, before: map<CtrlField, nat>, after: map<CtrlField, nat>)
    requires Shaped(cfg) && n <= 16
  {
    match LastActive(cfg, n)
    case Some(i) => Settings(cfg, ChipOf(cfg, i), after)
    case None => IsFpnRead in before && IsFpnRead in after && after[IsFpnRead] == before[IsFpnRead]
                 && ReadDepth in before && ReadDepth in after && after[ReadDepth] == before[ReadDepth]
  }

  lemma SettingsKept(cfg: CoboConfig, n: nat, before: map<CtrlField, nat>, middle: map<CtrlField, nat>,
                     after: map<CtrlField, nat>)
    requires Shaped(cfg) && n <= 16 && LastSettings(cfg, n, before, middle)
    requires IsFpnRead in middle && IsFpnRead in after && after[IsFpnRead] == middle[IsFpnRead]
    requires ReadDepth in middle && ReadDepth in after && after[ReadDepth] == middle[ReadDepth]
    ensures LastSettings(cfg, n, before, after)
  {
  }

  lemma SettingsOfChip(cfg: CoboConfig, n: nat, before: map<CtrlField, nat>, after: map<CtrlField, nat>)
    requires Shaped(cfg) && n < 16 && AgetActive(cfg, n) == Some(true) && Settings(cfg, ChipOf(cfg, n), after)
    ensures LastSettings(cfg, n + 1, before, after)
  {
  }

  lemma QuietFurther(before: seq<Operation>, middle: seq<Operation>, after: seq<Operation>)
    requires Quiet(before, middle) && Quiet(middle, after)
    ensures Quiet(before, after)
  {
  }

  lemma LastActiveSkips(cfg: CoboConfig, n: nat)
    requires Shaped(cfg) && n < 16 && AgetActive(cfg, n) != Some(true)
    ensures LastActive(cfg, n + 1) == LastActive(cfg, n)
  {
  }

  lemma ChipOfBoard(asadIdx: nat, k: nat)
    requires k < 4
    ensures (4 * asadIdx + k) / 4 == asadIdx
  {
  }

  lemma {:induction false} LastActiveSkipsBoard(cfg: CoboConfig, asadIdx: nat, k: nat)
    requires Shaped(cfg) && asadIdx < 4 && AsadActive(cfg, asadIdx) == Some(false) && k <= 4
    ensures LastActive(cfg, 4 * asadIdx + k) == LastActive(cfg, 4 * asadIdx)
  {
    if k > 0 {
      LastActiveSkipsBoard(cfg, asadIdx, k - 1);
      ChipOfBoard(asadIdx, k - 1);
      LastActiveSkips(cfg, 4 * asadIdx + k - 1);
    }
  }

  lemma SettingsSkipBoard(cfg: CoboConfig, asadIdx: nat, before: map<CtrlField, nat>, after: map<CtrlField, nat>)
    requires Shaped(cfg) && asadIdx < 4 && AsadActive(cfg, asadIdx) == Some(false)
    requires LastSettings(cfg, 4 * asadIdx, before, after)
    ensures LastSettings(cfg, 4 * asadIdx + 4, before, after)
  {
    LastActiveSkipsBoard(cfg, asadIdx, 4);
  }

  // ---------- thresholds ----------

  /** What is written for one chip: it is selected and read, then enabled and written. */
  ghost function ThresholdWrites(i: nat): seq<Operation> {
    [CtrlWrite(AgetChipSelect, i), CtrlWrite(ScEn, Shl(1, i)), AgetWrite(Reg1)]
  }

  ghost predicate OnlyReg1(before: map<Cell, nat>, after: map<Cell, nat>, i: nat) {
    forall c :: c in before && c.chip == i && c.reg != Reg1 ==> c in after && after[c] == before[c]
  }

  /** The word with the threshold in bits 19 to 21 and every other bit as it was. */
  ghost predicate Rethresholded(was: nat, word: nat, value: nat) {
    && GetField(word, 19, 3) == Low(value, 3)
    && forall b: nat :: !(19 <= b < 22) ==> Bit(word, b) == Bit(was, b)
  }

  ghost predicate ThresholdSet(before: map<Cell, nat>, after: map<Cell, nat>, i: nat, value: nat) {
    var c := Cell(i, Reg1);
    c in before && c in after && Rethresholded(before[c], after[c], value)
  }

  lemma ThresholdFramed(was: nat, value: nat)
    ensures Rethresholded(was, SetField(was, 19, 3, value), value)
  {
    SetFieldFrames(was, 19, 3, value);
  }

  lemma SetFieldFrames(was: nat, offset: nat, width: nat, value: nat)
    ensures GetField(SetField(was, offset, width, value), offset, width) == Low(value, width)
    ensures forall b: nat :: !(offset <= b < offset + width) ==>
            Bit(SetField(was, offset, width, value), b) == Bit(was, b)
  {
  }

  /** Chip i once the chips below n have been visited. */
  ghost predicate ThresholdProgress(cfg: CoboConfig, before: map<Cell, nat>, after: map<Cell, nat>, i: nat, n: nat,
                                    value: nat, faithful: bool)
    requires Shaped(cfg) && i < 16
  {
    && OnlyReg1(before, after, i)
    && (i < n ==> AgetActive(cfg, i).Some?)
    && (i >= n || AgetActive(cfg, i) != Some(true) ==> Untouched(before, after, i))
    && (i < n && AgetActive(cfg, i) == Some(true) && faithful ==> ThresholdSet(before, after, i, value))
  }

  ghost predicate ThresholdsDone(cfg: CoboConfig, before: map<Cell, nat>, after: map<Cell, nat>, n: nat,
                                 value: nat, faithful: bool)
    requires Shaped(cfg)
  {
    forall i: nat :: i < 16 ==> ThresholdProgress(cfg, before, after, i, n, value, faithful)
  }

  lemma ThresholdStep(cfg: CoboConfig, before: map<Cell, nat>, middle: map<Cell, nat>, after: map<Cell, nat>,
                      n: nat, value: nat, faithful: bool)
    requires Shaped(cfg) && n < 16 && AgetActive(cfg, n) == Some(true)
    requires ThresholdsDone(cfg, before, middle, n, value, faithful)
    requires OnlyCell(middle, after, Cell(n, Reg1)) && Cell(n, Reg1) in before
    requires faithful ==> ThresholdSet(middle, after, n, value)
    ensures ThresholdsDone(cfg, before, after, n + 1, value, faithful)
  {
    var m := n + 1;
    assert ThresholdProgress(cfg, before, middle, n, n, value, faithful);
    forall i: nat | i < 16 ensures ThresholdProgress(cfg, before, after, i, m, value, faithful) {
      assert ThresholdProgress(cfg, before, middle, i, n, value, faithful);
    }
  }

  lemma ThresholdSkip(cfg: CoboConfig, before: map<Cell, nat>, after: map<Cell, nat>, n: nat, value: nat,
                      faithful: bool)
    requires Shaped(cfg) && n < 16 && AgetActive(cfg, n) == Some(false)
    requires ThresholdsDone(cfg, before, after, n, value, faithful)
    ensures ThresholdsDone(cfg, before, after, n + 1, value, faithful)
  {
    var m := n + 1;
    forall i: nat | i < 16 ensures ThresholdProgress(cfg, before, after, i, m, value, faithful) {
      assert ThresholdProgress(cfg, before, after, i, n, value, faithful);
    }
  }

  lemma ThresholdsSoFar(cfg: CoboConfig, before: map<Cell, nat>, after: map<Cell, nat>, n: nat, value: nat,
                        faithful: bool)
    requires Shaped(cfg) && n <= 16 && ThresholdsDone(cfg, before, after, n, value, faithful)
    ensures InactiveUntouched(cfg, before, after)
    ensures forall i: nat :: i < 16 ==> OnlyReg1(before, after, i)
    ensures forall i: nat :: i < n ==> AgetActive(cfg, i).Some?
    ensures faithful ==> forall i: nat :: i < n && AgetActive(cfg, i) == Some(true) ==>
            ThresholdSet(before, after, i, value)
  {
    forall i: nat | i < 16
      ensures OnlyReg1(before, after, i) && (i < n ==> AgetActive(cfg, i).Some?)
      ensures AgetActive(cfg, i) != Some(true) ==> Untouched(before, after, i)
      ensures faithful && i < n && AgetActive(cfg, i) == Some(true) ==> ThresholdSet(before, after, i, value)
    {
      assert ThresholdProgress(cfg, before, after, i, n, value, faithful);
    }
  }

  // ---------- readout modes and completeness ----------

  /** Chip i's activity, or if it is active its readout mode, is missing. */
  ghost predicate ReadoutUnknown(cfg: CoboConfig, i: nat)
    requires Shaped(cfg) && i < 16
  {
    AgetActive(cfg, i).None? || (AgetActive(cfg, i) == Some(true) && ChipOf(cfg, i).isAllChannelRead.None?)
  }

  /** Every active chip holds its configuration. */
  ghost predicate AllHold(cfg: CoboConfig, aget: map<Cell, nat>, faithful: bool)
    requires Shaped(cfg)
  {
    forall i: nat :: i < 16 && AgetActive(cfg, i) == Some(true) ==> ChipHolds(aget, i, ChipOf(cfg, i), faithful)
  }

  /** Every active chip holds its configuration, and its readout mode is the one the CoBo's
      partial readout flag says. */
  ghost predicate Delivered(cfg: CoboConfig, aget: map<Cell, nat>, partialReadOut: nat, faithful: bool)
    requires Shaped(cfg)
  {
    forall i: nat :: i < 16 && AgetActive(cfg, i) == Some(true) ==>
      && ChipHolds(aget, i, ChipOf(cfg, i), faithful)
      && ChipOf(cfg, i).isAllChannelRead == Some(partialReadOut == 0)
  }

  lemma AllDelivered(cfg: CoboConfig, aget: map<Cell, nat>, partialReadOut: nat, faithful: bool)
    requires Shaped(cfg) && AllHold(cfg, aget, faithful)
    requires forall i: nat :: i < 16 ==> !Lacking(cfg, i)
    requires forall i: nat :: i < 16 ==>
               && !ReadoutUnknown(cfg, i)
               && (AgetActive(cfg, i) == Some(true) ==> ChipOf(cfg, i).isAllChannelRead == Some(partialReadOut == 0))
    ensures Complete(cfg) && UniformReadout(cfg) && Delivered(cfg, aget, partialReadOut, faithful)
  {
  }

  lemma AllProcessed(cfg: CoboConfig, before: map<Cell, nat>, after: map<Cell, nat>, faithful: bool)
    requires Shaped(cfg) && Progress(cfg, before, after, 16, faithful)
    ensures AllHold(cfg, after, faithful) && forall i: nat :: i < 16 ==> !Lacking(cfg, i)
  {
    forall i: nat | i < 16
      ensures !Lacking(cfg, i) && (AgetActive(cfg, i) == Some(true) ==> ChipHolds(after, i, ChipOf(cfg, i), faithful))
    {
      assert Processed(cfg, after, i, faithful);
    }
  }

  /** No two active chips differ in their readout mode. */
  ghost predicate UniformReadout(cfg: CoboConfig)
    requires Shaped(cfg)
  {
    forall i: nat, j: nat ::
      i < 16 && j < 16 && AgetActive(cfg, i) == Some(true) && AgetActive(cfg, j) == Some(true) ==>
      ChipOf(cfg, i).isAllChannelRead == ChipOf(cfg, j).isAllChannelRead
  }

  /** Every option the configuration of the active chips needs is there. */
  ghost predicate Complete(cfg: CoboConfig)
    requires Shaped(cfg)
  {
    forall i: nat :: i < 16 ==> !Lacking(cfg, i) && !ReadoutUnknown(cfg, i)
  }

  ghost predicate HasMode(cfg: CoboConfig, i: nat, mode: bool)
    requires Shaped(cfg) && i < 16
  {
    AgetActive(cfg, i) == Some(true) && ChipOf(cfg, i).isAllChannelRead == Some(mode)
  }

  /** The two counters over the chips below n. */
  ghost predicate Counted(cfg: CoboConfig, n: nat, partial: nat, active: nat)
    requires Shaped(cfg)
  {
    && partial <= active
    && (forall i: nat :: i < n && i < 16 ==> !ReadoutUnknown(cfg, i))
    && (partial > 0 <==> exists i: nat :: i < n && i < 16 && HasMode(cfg, i, false))
    && (partial < active <==> exists i: nat :: i < n && i < 16 && HasMode(cfg, i, true))
  }

  lemma OneOrOther(o: Option<bool>)
    requires o.Some?
    ensures o == Some(true) || o == Some(false)
  {
    if o.value { assert o == Some(true); } else { assert o == Some(false); }
  }

  lemma CountedStep(cfg: CoboConfig, n: nat, partial: nat, active: nat)
    requires Shaped(cfg) && n < 16 && Counted(cfg, n, partial, active) && !ReadoutUnknown(cfg, n)
    ensures Counted(cfg, n + 1, partial + (if HasMode(cfg, n, false) then 1 else 0),
                    active + (if AgetActive(cfg, n) == Some(true) then 1 else 0))
  {
    if AgetActive(cfg, n) == Some(true) {
      OneOrOther(ChipOf(cfg, n).isAllChannelRead);
      assert HasMode(cfg, n, true) || HasMode(cfg, n, false);
    }
  }

  lemma CountedVerdict(cfg: CoboConfig, partial: nat, active: nat)
    requires Shaped(cfg) && Counted(cfg, 16, partial, active)
    ensures 0 < partial < active ==> !UniformReadout(cfg)
    ensures partial == 0 || partial == active ==> forall i: nat :: i < 16 ==>
            !ReadoutUnknown(cfg, i)
            && (AgetActive(cfg, i) == Some(true) ==> ChipOf(cfg, i).isAllChannelRead == Some(partial == 0))
  {
    forall i: nat | i < 16 && AgetActive(cfg, i) == Some(true)
      ensures HasMode(cfg, i, true) || HasMode(cfg, i, false)
    {
      assert !ReadoutUnknown(cfg, i);
      OneOrOther(ChipOf(cfg, i).isAllChannelRead);
    }
  }

  /** When every activity is known, the mask bits are the active chips. */
  lemma CompleteMasks(cfg: CoboConfig)
    requires Shaped(cfg) && Complete(cfg)
    ensures forall i: nat :: i < 16 ==> (AgetMaskBit(cfg, i) <==> AgetActive(cfg, i) == Some(true))
  {
    forall i: nat, j: nat | i < 16 && j / 4 == i / 4 && AsadActive(cfg, i / 4) == Some(true)
      ensures ChipOf(cfg, j).isActive.Some?
    {
      assert !Lacking(cfg, j);
    }
  }

  // ---------- how far the loops have come ----------

  /** All a chip's registers hold what they should. */
  ghost predicate ChipHolds(aget: map<Cell, nat>, i: nat, chip: ChipConfig, faithful: bool) {
    HoldsEvery(aget, i, chip, faithful, chip.scCheckMode == Some(true))
  }

  /** The chip is active and checked, and one of its registers stores a word that is not let pass. */
  ghost predicate ChipRefused(cfg: CoboConfig, aget: map<Cell, nat>, i: nat)
    requires Shaped(cfg) && i < 16
  {
    && AgetActive(cfg, i) == Some(true) && ChipOf(cfg, i).scCheckMode == Some(true)
    && SomeRefused(aget, i, ChipOf(cfg, i))
  }

  ghost predicate SomeChipRefused(cfg: CoboConfig, aget: map<Cell, nat>)
    requires Shaped(cfg)
  {
    exists i: nat :: i < 16 && ChipRefused(cfg, aget, i)
  }

  /** When every active chip holds its configuration, the check refuses nothing. */
  lemma NoneRefused(cfg: CoboConfig, aget: map<Cell, nat>, faithful: bool)
    requires Shaped(cfg) && AllHold(cfg, aget, faithful)
    ensures !SomeChipRefused(cfg, aget)
  {
    forall i: nat, r: AgetReg | i < 16 && AgetActive(cfg, i) == Some(true) && ChipOf(cfg, i).scCheckMode == Some(true)
      ensures !Refused(aget, i, ChipOf(cfg, i), r)
    {
      assert ChipHolds(aget, i, ChipOf(cfg, i), faithful);
      assert Holds(aget, i, ChipOf(cfg, i), r, faithful, true);
    }
  }

  /** No option that writing the chip's registers needs is missing. */
  ghost predicate Writable(cfg: CoboConfig, chip: ChipConfig) {
    && chip.isFPNRead.Some? && chip.scCheckMode.Some? && WantsEvery(chip) && cfg.enableMem2pMode.Some?
  }

  /** No active chip has its writes checked. */
  ghost predicate Unchecked(cfg: CoboConfig)
    requires Shaped(cfg)
  {
    forall i: nat :: i < 16 && AgetActive(cfg, i) == Some(true) ==> ChipOf(cfg, i).scCheckMode != Some(true)
  }

  /** Chip i's activity, or if it is active some option it needs, is missing. */
  ghost predicate Lacking(cfg: CoboConfig, i: nat)
    requires Shaped(cfg) && i < 16
  {
    AgetActive(cfg, i).None? || (AgetActive(cfg, i) == Some(true) && !Writable(cfg, ChipOf(cfg, i)))
  }

  /** Chip i is known to be inactive, or it is complete and holds its configuration. */
  ghost predicate Processed(cfg: CoboConfig, aget: map<Cell, nat>, i: nat, faithful: bool)
    requires Shaped(cfg) && i < 16
  {
    && !Lacking(cfg, i)
    && (AgetActive(cfg, i) == Some(true) ==> ChipHolds(aget, i, ChipOf(cfg, i), faithful))
  }

  /** No register of a chip that is not active differs. */
  ghost predicate InactiveUntouched(cfg: CoboConfig, before: map<Cell, nat>, after: map<Cell, nat>)
    requires Shaped(cfg)
  {
    forall i: nat :: i < 16 && AgetActive(cfg, i) != Some(true) ==> Untouched(before, after, i)
  }

  /** Chips below n are processed, inactive chips and those from n on are as they were. */
  ghost predicate Progress(cfg: CoboConfig, before: map<Cell, nat>, after: map<Cell, nat>, n: nat, faithful: bool)
    requires Shaped(cfg)
  {
    forall i: nat :: i < 16 ==>
      && (i < n ==> Processed(cfg, after, i, faithful))
      && (i >= n || AgetActive(cfg, i) != Some(true) ==> Untouched(before, after, i))
  }

  lemma ProgressStep(cfg: CoboConfig, before: map<Cell, nat>, middle: map<Cell, nat>, after: map<Cell, nat>,
                     n: nat, faithful: bool, outcome: Outcome)
    requires Shaped(cfg) && n < 16 && AgetActive(cfg, n) == Some(true)
    requires Progress(cfg, before, middle, n, faithful) && OnlyChip(middle, after, n)
    requires outcome == Returned ==> !Lacking(cfg, n) && ChipHolds(after, n, ChipOf(cfg, n), faithful)
    ensures outcome == Returned ==> Progress(cfg, before, after, n + 1, faithful)
    ensures InactiveUntouched(cfg, before, after)
  {
    forall i: nat | i < n ensures Processed(cfg, after, i, faithful) {
      assert Processed(cfg, middle, i, faithful);
      OtherChipHolds(middle, after, n, i, ChipOf(cfg, i), faithful);
    }
  }

  lemma OtherChipHolds(middle: map<Cell, nat>, after: map<Cell, nat>, n: nat, i: nat, chip: ChipConfig, faithful: bool)
    requires i != n && OnlyChip(middle, after, n)
    ensures ChipHolds(middle, i, chip, faithful) ==> ChipHolds(after, i, chip, faithful)
  {
    var checked := chip.scCheckMode == Some(true);
    if ChipHolds(middle, i, chip, faithful) {
      forall r: AgetReg ensures Holds(after, i, chip, r, faithful, checked) {
        assert Holds(middle, i, chip, r, faithful, checked);
      }
    }
  }

  lemma ProgressSpares(cfg: CoboConfig, before: map<Cell, nat>, after: map<Cell, nat>, n: nat, faithful: bool)
    requires Shaped(cfg) && Progress(cfg, before, after, n, faithful)
    ensures InactiveUntouched(cfg, before, after)
  {
  }

  lemma ProgressSkip(cfg: CoboConfig, before: map<Cell, nat>, after: map<Cell, nat>, n: nat, faithful: bool)
    requires Shaped(cfg) && n < 16 && AgetActive(cfg, n) == Some(false) && Progress(cfg, before, after, n, faithful)
    ensures Progress(cfg, before, after, n + 1, faithful)
  {
  }

  lemma ProgressSkipBoard(cfg: CoboConfig, before: map<Cell, nat>, after: map<Cell, nat>, asadIdx: nat, faithful: bool)
    requires Shaped(cfg) && asadIdx < 4 && AsadActive(cfg, asadIdx) == Some(false)
    requires Progress(cfg, before, after, 4 * asadIdx, faithful)
    ensures Progress(cfg, before, after, 4 * asadIdx + 4, faithful)
  {
  }

  /** 10-bit number of buckets left after skipping the offset, in 16-bit arithmetic. */
  function ReadDepthOf(offset: nat, mem2p: bool): nat {
    ((if mem2p then 256 else 512) - offset) % TWO_TO_THE_16
  }

  /** The depth and the offset make up the 512 buckets of the memory, or 256 where it is split, in 16-bit
      arithmetic: without wrap-around as long as the offset is not beyond them. */
  lemma DepthComplements(word: nat, mem2p: bool)
    ensures ReadDepthOf(word, mem2p) < 0x1_0000
    ensures !mem2p ==> (ReadDepthOf(word, mem2p) + word) % 0x1_0000 == 512
    ensures mem2p ==> (ReadDepthOf(word, mem2p) + word) % 0x1_0000 == 256
    ensures !mem2p && word <= 512 ==> ReadDepthOf(word, mem2p) + word == 512
    ensures mem2p && word <= 256 ==> ReadDepthOf(word, mem2p) + word == 256
  {
    var size := if mem2p then 256 else 512;
    var depth := ReadDepthOf(word, mem2p);
    assert size == depth + word + (size - word - depth);
    assert (size - word - depth) % TWO_TO_THE_16 == 0;
  }

  lemma DepthOfWord(word: nat, mem2p: bool, offset: nat)
    requires offset == word % TWO_TO_THE_16
    ensures ((if mem2p then 256 else 512) - offset) % TWO_TO_THE_16 == ReadDepthOf(word, mem2p)
  {
    var size := if mem2p then 256 else 512;
    MultiplesVanish(size - word, word / TWO_TO_THE_16);
  }

  lemma MultiplesVanish(x: int, k: int)
    ensures (x + k * TWO_TO_THE_16) % TWO_TO_THE_16 == x % TWO_TO_THE_16
  {
  }

  lemma BoardLookups(cfg: CoboConfig, i: nat)
    requires Shaped(cfg) && i < 16
    ensures (forall g: nat :: g <= i % 4 ==> cfg.boards[i / 4].chips[g].isActive.Some?)
       <==> (forall j: nat :: j / 4 == i / 4 && j <= i ==> ChipOf(cfg, j).isActive.Some?)
  {
    if forall j: nat :: j / 4 == i / 4 && j <= i ==> ChipOf(cfg, j).isActive.Some? {
      forall g: nat | g <= i % 4 ensures cfg.boards[i / 4].chips[g].isActive.Some? {
        var j := 4 * (i / 4) + g;
        assert j / 4 == i / 4 && j % 4 == g;
        assert ChipOf(cfg, j).isActive.Some?;
      }
    }
  }
}
