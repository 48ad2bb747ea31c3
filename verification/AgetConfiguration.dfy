/** From a chip's configuration node to what its registers make the chip do: the packed words
    and the slow control put together (runcontrol/GetController.cpp). */
module AgetConfiguration {
  import opened BitField
  import C = ChannelRegisters
  import opened Options
  import R1 = Register1
  import R2 = Register2
  import opened RegisterServer
  import S = SlowControl

  /** A chip's node with all its options present. */
  datatype ChipNode = ChipNode(
    isActive: bool, scCheckMode: bool, reg1: R1.Reg1Config, reg2: R2.Reg2Config, readoutPointerOffset: int,
    channels: seq<C.ChannelConfig>)

  /** The names the options of registers 1 and 2 know. */
  datatype Tables = Tables(reg1: R1.Reg1Names, reg2: R2.Reg2Names)

  const AGET_TABLES := Tables(R1.REG1_NAMES, R2.REG2_NAMES)

  predicate TablesFit(t: Tables) { R1.Reg1NamesFit(t.reg1) && R2.Reg2NamesFit(t.reg2) }

  lemma AgetTablesFit()
    ensures TablesFit(AGET_TABLES)
  {
    R1.Reg1NamesAreFit();
    R2.Reg2NamesAreFit();
  }

  function ChannelRegisterOf(reg: AgetReg): C.ChannelRegister
    requires !reg.Reg1? && !reg.Reg2? && !reg.Reg12?
  {
    match reg
    case Reg3 => C.Reg3
    case Reg4 => C.Reg4
    case Reg6 => C.Reg6
    case Reg7 => C.Reg7
    case Reg8 => C.Reg8
    case Reg8msb => C.Reg8msb
    case Reg9 => C.Reg9
    case Reg9msb => C.Reg9msb
    case Reg10 => C.Reg10
    case Reg11 => C.Reg11
  }

  /** The word each register of the chip is to hold. */
  ghost function WordFor(t: Tables, node: ChipNode, reg: AgetReg): nat {
    if reg.Reg1? then R1.Reg1Word(t.reg1, node.reg1)
    else if reg.Reg2? then R2.Reg2Word(t.reg2, node.reg2)
    else if reg.Reg12? then R1.Unsigned(node.readoutPointerOffset)
    else C.OrAll(ChannelRegisterOf(reg), node.channels)
  }

  /** Each channel register of the chip takes the packing of its own name. */
  lemma ChannelRegistersByName()
    ensures ChannelRegisterOf(Reg3) == C.Reg3 && ChannelRegisterOf(Reg4) == C.Reg4
    ensures ChannelRegisterOf(Reg6) == C.Reg6 && ChannelRegisterOf(Reg7) == C.Reg7
    ensures ChannelRegisterOf(Reg8) == C.Reg8 && ChannelRegisterOf(Reg8msb) == C.Reg8msb
    ensures ChannelRegisterOf(Reg9) == C.Reg9 && ChannelRegisterOf(Reg9msb) == C.Reg9msb
    ensures ChannelRegisterOf(Reg10) == C.Reg10 && ChannelRegisterOf(Reg11) == C.Reg11
  {
  }

  /** The words of the chip-wide registers; register 12 takes the offset as an unsigned 64-bit number. */
  lemma ChipWideWords(t: Tables, node: ChipNode)
    ensures WordFor(t, node, Reg1) == R1.Reg1Word(t.reg1, node.reg1)
    ensures WordFor(t, node, Reg2) == R2.Reg2Word(t.reg2, node.reg2)
    ensures WordFor(t, node, Reg12) == node.readoutPointerOffset % 0x1_0000_0000_0000_0000
  {
  }

  /** The choice of the retrieval function in `setAget_reg`. */
  method Retrieve(t: Tables, node: ChipNode, reg: AgetReg) returns (value: nat)
    requires TablesFit(t)
    ensures value == if node.isActive then WordFor(t, node, reg) else 0
  {
    if reg.Reg1? {
      value := R1.RetrieveReg1(node.isActive, t.reg1, node.reg1);
    } else if reg.Reg2? {
      value := R2.RetrieveReg2(node.isActive, t.reg2, node.reg2);
    } else if reg.Reg12? {
      value := if node.isActive then R1.Unsigned(node.readoutPointerOffset) else 0;
    } else {
      value := C.RetrieveChannels(node.isActive, ChannelRegisterOf(reg), node.channels);
    }
  }

  /** The chip as slow control sees it. */
  ghost function Seen(t: Tables, node: ChipNode): S.ChipConfig {
    S.ChipConfig(Some(node.isActive), Some(node.scCheckMode), Some(node.reg1.isFPNRead),
                 Some(node.reg1.isAllChannelRead), reg => Some(WordFor(t, node, reg)))
  }

  /** What slow control promises of a register of chip i once `configure` has returned, if the
      hardware is faithful or the chip was checked: see `SlowControl.Delivered`. */
  ghost predicate Configured(t: Tables, node: ChipNode, aget: map<Cell, nat>, i: nat, reg: AgetReg, faithful: bool) {
    (faithful || node.scCheckMode) && S.Holds(aget, i, Seen(t, node), reg, faithful, node.scCheckMode)
  }

  /** What a returned `configure` gives for the node of an active chip. */
  lemma ConfigureDelivers(t: Tables, node: ChipNode, cfg: S.CoboConfig, i: nat, reg: AgetReg, aget: map<Cell, nat>,
                          partialReadOut: nat, faithful: bool)
    requires S.Shaped(cfg) && i < 16 && S.AgetActive(cfg, i) == Some(true) && S.ChipOf(cfg, i) == Seen(t, node)
    requires S.Delivered(cfg, aget, partialReadOut, faithful) && (faithful || node.scCheckMode)
    ensures Configured(t, node, aget, i, reg, faithful)
    ensures Seen(t, node).isAllChannelRead == Some(partialReadOut == 0)
  {
  }

  /** Of any register but the second, exactly the word that was wanted is there. */
  lemma StoredWord(t: Tables, node: ChipNode, aget: map<Cell, nat>, i: nat, reg: AgetReg, faithful: bool)
    requires Configured(t, node, aget, i, reg, faithful) && !reg.Reg2?
    ensures Cell(i, reg) in aget && aget[Cell(i, reg)] == WordFor(t, node, reg)
  {
  }

  lemma Reg1ReadsBack(t: R1.Reg1Names, c: R1.Reg1Config, word: nat)
    requires R1.Reg1NamesFit(t) && word == R1.Reg1Word(t, c)
    ensures R1.DecodeReg1(t, word) == R1.Effective(t, c)
  {
    R1.Reg1RoundTrip(t, c);
  }

  /** Register 1 of a configured chip decodes to the configuration, if the hardware is faithful
      or the chip was checked. */
  lemma Reg1Delivered(t: Tables, node: ChipNode, aget: map<Cell, nat>, i: nat, faithful: bool)
    requires TablesFit(t) && Configured(t, node, aget, i, Reg1, faithful)
    ensures Cell(i, Reg1) in aget
    ensures R1.DecodeReg1(t.reg1, aget[Cell(i, Reg1)]) == R1.Effective(t.reg1, node.reg1)
  {
    StoredWord(t, node, aget, i, Reg1, faithful);
    Reg1ReadsBack(t.reg1, node.reg1, aget[Cell(i, Reg1)]);
  }

  /** The CoBo's partial readout flag agrees with bit 14 of register 1 of the chip. */
  lemma ReadoutAgrees(t: Tables, node: ChipNode, aget: map<Cell, nat>, i: nat, faithful: bool, partialReadOut: nat)
    requires TablesFit(t) && Configured(t, node, aget, i, Reg1, faithful)
    requires Seen(t, node).isAllChannelRead == Some(partialReadOut == 0)
    ensures Cell(i, Reg1) in aget
    ensures Bit(aget[Cell(i, Reg1)], 14) <==> partialReadOut == 0
  {
    Reg1Delivered(t, node, aget, i, faithful);
    BitOfField(aget[Cell(i, Reg1)], 14);
  }

  /** The CoBo's FPN mode, which is that of the last active chip, agrees with bit 15 of register 1 of
      that chip. */
  lemma FpnAgrees(t: Tables, node: ChipNode, aget: map<Cell, nat>, i: nat, faithful: bool,
                  cfg: S.CoboConfig, ctrl: map<CtrlField, nat>)
    requires TablesFit(t) && Configured(t, node, aget, i, Reg1, faithful) && S.Settings(cfg, Seen(t, node), ctrl)
    ensures Cell(i, Reg1) in aget && IsFpnRead in ctrl
    ensures Bit(aget[Cell(i, Reg1)], 15) <==> ctrl[IsFpnRead] == 1
  {
    Reg1Delivered(t, node, aget, i, faithful);
    BitOfField(aget[Cell(i, Reg1)], 15);
  }

  lemma BitOfField(w: nat, k: nat)
    ensures Bit(w, k) <==> GetField(w, k, 1) == 1
  {
    BitOfGetField(w, k, 1, 0);
    LowBound(Shr(w, k), 1);
    assert Pow2(1) == 2;
  }

  /** The check of register 2 lets at most bit 21 through. */
  lemma ToleranceIsBit21(value: nat, stored: nat)
    ensures S.Tolerated(Reg2, value, stored) <==> stored == value || DifferOnlyAt(value, stored, 21)
  {
    ShlOne(21);
    Pow2Sum(8, 8);
    Pow2Sum(16, 5);
    assert Pow2(8) == 256 && Pow2(5) == 32;
    XorIsOneBit(value, stored, 21);
  }

  /** Words that differ in bit 21 only decode to configurations that differ in one option. */
  lemma Bit21Alone(t: R2.Reg2Names, a: nat, b: nat)
    requires DifferOnlyAt(a, b, 21)
    ensures var stored := R2.DecodeReg2(t, b);
            stored == R2.DecodeReg2(t, a).(isRisingedgeWriteAutoresetBank := stored.isRisingedgeWriteAutoresetBank)
  {
    LowFieldsUnaffected(a, b);
    HighFieldsUnaffected(a, b);
  }

  lemma LowFieldsUnaffected(a: nat, b: nat)
    requires DifferOnlyAt(a, b, 21)
    ensures GetField(a, 0, 3) == GetField(b, 0, 3) && GetField(a, 3, 1) == GetField(b, 3, 1)
    ensures GetField(a, 4, 1) == GetField(b, 4, 1) && GetField(a, 5, 1) == GetField(b, 5, 1)
    ensures GetField(a, 6, 1) == GetField(b, 6, 1) && GetField(a, 7, 1) == GetField(b, 7, 1)
    ensures GetField(a, 8, 1) == GetField(b, 8, 1) && GetField(a, 9, 1) == GetField(b, 9, 1)
    ensures GetField(a, 10, 1) == GetField(b, 10, 1) && GetField(a, 11, 1) == GetField(b, 11, 1)
    ensures GetField(a, 12, 2) == GetField(b, 12, 2) && GetField(a, 14, 2) == GetField(b, 14, 2)
  {
    FieldsUnaffected(a, b, 21);
  }

  lemma HighFieldsUnaffected(a: nat, b: nat)
    requires DifferOnlyAt(a, b, 21)
    ensures GetField(a, 16, 1) == GetField(b, 16, 1) && GetField(a, 17, 1) == GetField(b, 17, 1)
    ensures GetField(a, 18, 1) == GetField(b, 18, 1) && GetField(a, 19, 1) == GetField(b, 19, 1)
    ensures GetField(a, 20, 1) == GetField(b, 20, 1) && GetField(a, 22, 1) == GetField(b, 22, 1)
    ensures GetField(a, 24, 1) == GetField(b, 24, 1) && GetField(a, 25, 2) == GetField(b, 25, 2)
    ensures GetField(a, 27, 2) == GetField(b, 27, 2)
  {
    FieldsUnaffected(a, b, 21);
  }

  lemma FieldsUnaffected(a: nat, b: nat, k: nat)
    requires DifferOnlyAt(a, b, k)
    ensures forall offset: nat, width: nat :: !(offset <= k < offset + width) ==>
            GetField(a, offset, width) == GetField(b, offset, width)
  {
    forall offset: nat, width: nat | !(offset <= k < offset + width)
      ensures GetField(a, offset, width) == GetField(b, offset, width)
    {
      FieldUnaffected(a, b, k, offset, width);
    }
  }

  /** Register 2 of a configured chip decodes to the configuration, except that on faulty
      hardware the one option in bit 21 may come out wrong. */
  lemma Reg2Delivered(t: Tables, node: ChipNode, aget: map<Cell, nat>, i: nat, faithful: bool)
    requires TablesFit(t) && Configured(t, node, aget, i, Reg2, faithful)
    ensures Cell(i, Reg2) in aget
    ensures Reg2Reads(t.reg2, node.reg2, aget[Cell(i, Reg2)], faithful)
  {
    Reg2ReadsBack(t.reg2, node.reg2, aget[Cell(i, Reg2)], faithful);
  }

  ghost predicate Reg2Reads(t: R2.Reg2Names, c: R2.Reg2Config, word: nat, exactly: bool) {
    var stored := R2.DecodeReg2(t, word);
    && stored == R2.Effective(t, c).(isRisingedgeWriteAutoresetBank := stored.isRisingedgeWriteAutoresetBank)
    && (exactly ==> stored == R2.Effective(t, c))
  }

  lemma Reg2ReadsBack(t: R2.Reg2Names, c: R2.Reg2Config, word: nat, exactly: bool)
    requires R2.Reg2NamesFit(t) && S.Tolerated(Reg2, R2.Reg2Word(t, c), word)
    requires exactly ==> word == R2.Reg2Word(t, c)
    ensures Reg2Reads(t, c, word, exactly)
  {
    R2.Reg2RoundTrip(t, c);
    ToleranceIsBit21(R2.Reg2Word(t, c), word);
    if word != R2.Reg2Word(t, c) { Bit21Alone(t, R2.Reg2Word(t, c), word); }
  }

  lemma FieldUnaffected(a: nat, b: nat, k: nat, offset: nat, width: nat)
    requires DifferOnlyAt(a, b, k) && !(offset <= k < offset + width)
    ensures GetField(a, offset, width) == GetField(b, offset, width)
  {
    forall i: nat ensures Bit(GetField(a, offset, width), i) == Bit(GetField(b, offset, width), i) {
      BitOfGetField(a, offset, width, i);
      BitOfGetField(b, offset, width, i);
      assert Bit(a, offset + i) == Bit(b, offset + i) <==> offset + i != k;
    }
    BitExtensional(GetField(a, offset, width), GetField(b, offset, width));
  }

  /** The gain of an active channel, or any other code with a slot, reads back from the chip. */
  lemma CodeDelivered(t: Tables, node: ChipNode, aget: map<Cell, nat>, i: nat, faithful: bool,
                      reg: AgetReg, e: C.ChannelConfig)
    requires !reg.Reg1? && !reg.Reg2? && !reg.Reg12? && C.Slotted(ChannelRegisterOf(reg))
    requires TablesFit(t) && Configured(t, node, aget, i, reg, faithful)
    requires e in node.channels && C.Counts(e) && C.SlotOf(ChannelRegisterOf(reg), e.channel).Some?
    requires forall f :: f in node.channels && C.Counts(f) && f.channel == e.channel ==>
             C.CodeFor(ChannelRegisterOf(reg), f) == C.CodeFor(ChannelRegisterOf(reg), e)
    ensures Cell(i, reg) in aget
    ensures var slots := ChannelRegisterOf(reg);
            GetField(aget[Cell(i, reg)], C.SlotOf(slots, e.channel).value, C.SlotWidth(slots)) == C.CodeFor(slots, e)
  {
    StoredWord(t, node, aget, i, reg, faithful);
    C.CodeReadsBack(ChannelRegisterOf(reg), node.channels, e);
  }
}
