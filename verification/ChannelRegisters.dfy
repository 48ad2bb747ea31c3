/** The AGET registers that hold one or two bits for every channel
    (runcontrol/GetController.cpp). */
module ChannelRegisters {
  import opened BitField
  import opened Options
  import opened Words

  /** One `channel` node of a chip's configuration.  The words of registers 8 and 9 are what
      `CoBoConfigParser` makes of the node. */
  datatype ChannelConfig = ChannelConfig(
    isDefault: bool, channel: int, isActive: bool, isSelectedforTestMode: bool, gain: string,
    triggerInhibition: string, reg8: Word64, reg8msb: Word64, reg9: Word64, reg9msb: Word64)

  datatype ChannelRegister = Reg3 | Reg4 | Reg6 | Reg7 | Reg8 | Reg8msb | Reg9 | Reg9msb | Reg10 | Reg11

  // ---------- the bit masks, as the code computes them ----------

  function GainCode(gain: string): nat {
    if gain == "240fC" then 1 else if gain == "1pC" then 2 else if gain == "10pC" then 3 else 0
  }

  function InhibitionCode(mode: string): nat {
    if mode == "inhibit_channel" || mode == "inhibit_trigger_function" then 1
    else if mode == "inhibit_trigger" || mode == "inhibit_trigger_data" then 2
    else 0
  }

  function Mask3(e: ChannelConfig): nat {
    if e.isSelectedforTestMode && 0 <= e.channel <= 33 then Shl(1, 33 - e.channel) else 0
  }

  function Mask4(e: ChannelConfig): nat {
    if e.isSelectedforTestMode && 34 <= e.channel <= 67 then Shl(1, e.channel - 34) else 0
  }

  function Mask6(e: ChannelConfig): nat {
    var c := e.channel;
    if 0 <= c <= 33 && c != 11 && c != 22 then
      var shiftIndex := if c < 11 then 62 - 2 * c else if c < 22 then 62 - 2 * c + 2 else 62 - 2 * c + 4;
      Shl(GainCode(e.gain), shiftIndex)
    else 0
  }

  function Mask7(e: ChannelConfig): nat {
    var c := e.channel;
    if 34 <= c <= 67 && c != 45 && c != 56 then
      var shiftIndex := if c < 45 then 2 * (c - 34) else if c < 56 then 2 * (c - 34) - 2 else 2 * (c - 34) - 4;
      Shl(GainCode(e.gain), shiftIndex)
    else 0
  }

  /** Channel numbers arrive as unsigned: negative ones are too large. */
  function Mask10(e: ChannelConfig): nat {
    var c := e.channel;
    if c < 0 || c > 32 || c == 11 || c == 22 then 0
    else
      var physical := c - (if c > 11 then 1 else 0) - (if c > 22 then 1 else 0);
      SetField(0, 64 - 2 * (physical + 1), 2, InhibitionCode(e.triggerInhibition))
  }

  function Mask11(e: ChannelConfig): nat {
    var c := e.channel;
    if c < 34 || c > 67 || c == 45 || c == 56 then 0
    else
      var physical := c - (if c > 45 then 1 else 0) - (if c > 56 then 1 else 0);
      SetField(0, 2 * (physical - 34), 2, InhibitionCode(e.triggerInhibition))
  }

  function Mask(reg: ChannelRegister, e: ChannelConfig): nat {
    match reg
    case Reg3 => Mask3(e)
    case Reg4 => Mask4(e)
    case Reg6 => Mask6(e)
    case Reg7 => Mask7(e)
    case Reg8 => e.reg8
    case Reg8msb => e.reg8msb
    case Reg9 => e.reg9
    case Reg9msb => e.reg9msb
    case Reg10 => Mask10(e)
    case Reg11 => Mask11(e)
  }

  /** The default node and inactive channels contribute nothing. */
  predicate Counts(e: ChannelConfig) { !e.isDefault && e.isActive }

  /** The word the loop over the nodes builds. */
  function OrAll(reg: ChannelRegister, entries: seq<ChannelConfig>): nat {
    if entries == [] then 0
    else
      var rest := OrAll(reg, entries[..|entries| - 1]);
      var e := entries[|entries| - 1];
      if Counts(e) then Or(rest, Mask(reg, e)) else rest
  }

  method RetrieveChannels(active: bool, reg: ChannelRegister, entries: seq<ChannelConfig>) returns (datareg: nat)
    ensures datareg == if active then OrAll(reg, entries) else 0
  {
    datareg := 0;
    if active {
      var i := 0;
      while i < |entries|
        invariant 0 <= i <= |entries| && datareg == OrAll(reg, entries[..i])
      {
        assert entries[..i + 1][..i] == entries[..i];
        var e := entries[i];
        i := i + 1;
        if e.isDefault {
          continue;
        }
        if e.isActive {
          datareg := Or(datareg, Mask(reg, e));
        }
      }
      assert entries[..i] == entries;
    }
  }

  // ---------- where the data sheet puts a channel ----------

  /** The channels that measure fixed-pattern noise have no gain and no inhibition. */
  predicate IsFpn(channel: int) { channel == 11 || channel == 22 || channel == 45 || channel == 56 }

  /** The number of ordinary channels before this one. */
  function Physical(channel: nat): nat {
    if channel == 0 then 0 else Physical(channel - 1) + if IsFpn(channel - 1) then 0 else 1
  }

  predicate Slotted(reg: ChannelRegister) {
    reg.Reg3? || reg.Reg4? || reg.Reg6? || reg.Reg7? || reg.Reg10? || reg.Reg11?
  }

  function SlotWidth(reg: ChannelRegister): nat { if reg.Reg3? || reg.Reg4? then 1 else 2 }

  /** Channels 0 to 33 fill the first register of a pair downwards from its top bit,
      channels 34 to 67 the second upwards from bit 0. */
  function SlotOf(reg: ChannelRegister, channel: int): Option<nat>
    requires Slotted(reg)
  {
    if reg.Reg3? && 0 <= channel <= 33 then Some(33 - channel)
    else if reg.Reg4? && 34 <= channel <= 67 then Some(channel - 34)
    else if reg.Reg6? && 0 <= channel <= 33 && !IsFpn(channel) then
      PhysicalOf(channel); Some(62 - 2 * Physical(channel))
    else if reg.Reg10? && 0 <= channel <= 32 && !IsFpn(channel) then
      PhysicalOf(channel); Some(62 - 2 * Physical(channel))
    else if (reg.Reg7? || reg.Reg11?) && 34 <= channel <= 67 && !IsFpn(channel) then
      PhysicalOf(channel); Some(2 * (Physical(channel) - 32))
    else None
  }

  /** What the channel's node asks the slot to hold. */
  function CodeFor(reg: ChannelRegister, e: ChannelConfig): (code: nat)
    requires Slotted(reg)
  {
    match reg
    case Reg6 => GainCode(e.gain)
    case Reg7 => GainCode(e.gain)
    case Reg10 => InhibitionCode(e.triggerInhibition)
    case Reg11 => InhibitionCode(e.triggerInhibition)
    case _ => if e.isSelectedforTestMode then 1 else 0
  }

  function FpnBefore(c: int): int {
    (if c > 11 then 1 else 0) + (if c > 22 then 1 else 0) + (if c > 45 then 1 else 0) + (if c > 56 then 1 else 0)
  }

  lemma {:induction false} PhysicalOf(channel: nat)
    ensures Physical(channel) == channel - FpnBefore(channel)
  {
    if channel > 0 { PhysicalOf(channel - 1); }
  }

  lemma SlotBound(reg: ChannelRegister, channel: int)
    requires Slotted(reg) && SlotOf(reg, channel).Some?
    ensures SlotOf(reg, channel).value + SlotWidth(reg) <= 64
  {
    PhysicalOf(channel);
  }

  /** Two channels never share a bit. */
  lemma SlotsDisjoint(reg: ChannelRegister, c: int, d: int)
    requires Slotted(reg) && c != d && SlotOf(reg, c).Some? && SlotOf(reg, d).Some?
    ensures SlotOf(reg, c).value + SlotWidth(reg) <= SlotOf(reg, d).value
         || SlotOf(reg, d).value + SlotWidth(reg) <= SlotOf(reg, c).value
  {
    PhysicalOf(c);
    PhysicalOf(d);
  }

  /** Every shift the code computes puts the code into the channel's slot. */
  lemma MaskFillsSlot(reg: ChannelRegister, e: ChannelConfig)
    requires Slotted(reg)
    ensures CodeFor(reg, e) < Pow2(SlotWidth(reg))
    ensures match SlotOf(reg, e.channel)
            case None => Mask(reg, e) == 0
            case Some(o) => Mask(reg, e) == Shl(CodeFor(reg, e), o)
  {
    CodeFits(reg, e);
    if reg.Reg10? || reg.Reg11? { FieldFillsSlot(reg, e); } else { ShiftFillsSlot(reg, e); }
  }

  lemma ShiftFillsSlot(reg: ChannelRegister, e: ChannelConfig)
    requires reg.Reg3? || reg.Reg4? || reg.Reg6? || reg.Reg7?
    ensures match SlotOf(reg, e.channel)
            case None => Mask(reg, e) == 0
            case Some(o) => Mask(reg, e) == Shl(CodeFor(reg, e), o)
  {
    if SlotOf(reg, e.channel).Some? {
      if reg.Reg3? || reg.Reg4? {
        ZeroShifted(SlotOf(reg, e.channel).value);
      } else {
        PhysicalOf(e.channel);
      }
    }
  }

  lemma FieldFillsSlot(reg: ChannelRegister, e: ChannelConfig)
    requires reg.Reg10? || reg.Reg11?
    ensures match SlotOf(reg, e.channel)
            case None => Mask(reg, e) == 0
            case Some(o) => Mask(reg, e) == Shl(CodeFor(reg, e), o)
  {
    if SlotOf(reg, e.channel).Some? {
      PhysicalOf(e.channel);
      CodeFits(reg, e);
      FieldOfZero(SlotOf(reg, e.channel).value, CodeFor(reg, e));
    }
  }

  lemma FieldOfZero(o: nat, code: nat)
    requires code < Pow2(2)
    ensures SetField(0, o, 2, code) == Shl(code, o)
  {
    Positive(o);
    AddIsSetField(0, o, 2, code);
  }

  lemma Positive(o: nat)
    ensures 0 < Pow2(o)
  {
  }

  lemma CodeFits(reg: ChannelRegister, e: ChannelConfig)
    requires Slotted(reg)
    ensures CodeFor(reg, e) < Pow2(SlotWidth(reg))
  {
  }

  lemma {:induction false} ZeroShifted(k: nat)
    ensures Shl(0, k) == 0
  {
    if k > 0 { ZeroShifted(k - 1); }
  }

  /** No bit of the gain registers is left over. */
  lemma GainSlotsCover(b: nat)
    requires b < 64
    ensures exists c :: SlotOf(Reg6, c).Some? && SlotOf(Reg6, c).value <= b < SlotOf(Reg6, c).value + 2
    ensures exists c :: SlotOf(Reg7, c).Some? && SlotOf(Reg7, c).value <= b < SlotOf(Reg7, c).value + 2
  {
    var p := 31 - b / 2;
    var c := p + (if p >= 11 then 1 else 0) + (if p >= 21 then 1 else 0);
    PhysicalOf(c);
    assert SlotOf(Reg6, c).Some?;
    var q := b / 2;
    var d := 34 + q + (if q >= 11 then 1 else 0) + (if q >= 21 then 1 else 0);
    PhysicalOf(d);
    assert SlotOf(Reg7, d).Some?;
  }

  /** Gain and inhibition of a channel sit at the same place of their registers, except that
      the inhibition of channel 33 has no place at all. */
  lemma SharedSlots(e: ChannelConfig)
    ensures SlotOf(Reg6, e.channel).Some? && e.channel != 33 ==>
            && Mask6(e) == Shl(GainCode(e.gain), SlotOf(Reg6, e.channel).value)
            && Mask10(e) == Shl(InhibitionCode(e.triggerInhibition), SlotOf(Reg6, e.channel).value)
    ensures SlotOf(Reg7, e.channel).Some? ==>
            && Mask7(e) == Shl(GainCode(e.gain), SlotOf(Reg7, e.channel).value)
            && Mask11(e) == Shl(InhibitionCode(e.triggerInhibition), SlotOf(Reg7, e.channel).value)
    ensures e.channel == 33 ==> SlotOf(Reg6, 33) == Some(0) && Mask10(e) == 0
  {
    MaskFillsSlot(Reg6, e);
    MaskFillsSlot(Reg7, e);
    MaskFillsSlot(Reg10, e);
    MaskFillsSlot(Reg11, e);
    PhysicalOf(33);
  }

  // ---------- what a node asks for ----------

  /** The code of every name, and of any other; the two gain and the two inhibition registers agree. */
  lemma CodesByName(e: ChannelConfig)
    ensures CodeFor(Reg6, e) == CodeFor(Reg7, e) && CodeFor(Reg10, e) == CodeFor(Reg11, e)
    ensures CodeFor(Reg6, e) == 1 <==> e.gain == "240fC"
    ensures CodeFor(Reg6, e) == 2 <==> e.gain == "1pC"
    ensures CodeFor(Reg6, e) == 3 <==> e.gain == "10pC"
    ensures e.gain == "120fC" ==> CodeFor(Reg6, e) == 0
    ensures CodeFor(Reg6, e) < 4 && CodeFor(Reg10, e) < 3
    ensures CodeFor(Reg10, e) == 1 <==>
            e.triggerInhibition == "inhibit_channel" || e.triggerInhibition == "inhibit_trigger_function"
    ensures CodeFor(Reg10, e) == 2 <==>
            e.triggerInhibition == "inhibit_trigger" || e.triggerInhibition == "inhibit_trigger_data"
    ensures CodeFor(Reg3, e) == CodeFor(Reg4, e) == if e.isSelectedforTestMode then 1 else 0
  {
    assert "240fC"[0] == '2' && "1pC"[1] == 'p' && "10pC"[1] == '0' && "120fC"[1] == '2';
    assert |"inhibit_channel"| == 15 && |"inhibit_trigger_function"| == 24;
    assert |"inhibit_trigger"| == 15 && |"inhibit_trigger_data"| == 20;
    assert "inhibit_channel"[8] == 'c' && "inhibit_trigger"[8] == 't';
  }

  /** One node more: an inactive or default node changes nothing, any other adds the bits it asks for. */
  lemma OneNodeMore(reg: ChannelRegister, entries: seq<ChannelConfig>, e: ChannelConfig, b: nat)
    ensures e.isDefault || !e.isActive ==> OrAll(reg, entries + [e]) == OrAll(reg, entries)
    ensures !e.isDefault && e.isActive ==>
            (Bit(OrAll(reg, entries + [e]), b) <==> Bit(OrAll(reg, entries), b) || Bit(Mask(reg, e), b))
  {
    assert (entries + [e])[..|entries|] == entries;
    BitOfOr(OrAll(reg, entries), Mask(reg, e), b);
  }

  /** Registers 8 and 9 take the words of the node, each its own half. */
  lemma WordsOfNode(e: ChannelConfig)
    ensures Mask(Reg8, e) == e.reg8 && Mask(Reg8msb, e) == e.reg8msb
    ensures Mask(Reg9, e) == e.reg9 && Mask(Reg9msb, e) == e.reg9msb
  {
  }

  // ---------- what the loop leaves in the word ----------

  ghost predicate Asks(reg: ChannelRegister, e: ChannelConfig, b: nat) { Counts(e) && Bit(Mask(reg, e), b) }

  /** A bit is set exactly when some active channel asks for it. */
  lemma {:induction false} OrAllBit(reg: ChannelRegister, entries: seq<ChannelConfig>, b: nat)
    ensures Bit(OrAll(reg, entries), b) <==> exists e :: e in entries && Asks(reg, e, b)
    decreases |entries|
  {
    if entries == [] {
      BitOfZero(b);
    } else {
      var n := |entries| - 1;
      var e := entries[n];
      var before := entries[..n];
      OrAllBit(reg, before, b);
      assert entries == before + [e];
      assert forall f :: f in entries <==> f in before || f == e;
      if Counts(e) { BitOfOr(OrAll(reg, before), Mask(reg, e), b); }
      assert Bit(OrAll(reg, entries), b) <==> Bit(OrAll(reg, before), b) || Asks(reg, e, b);
    }
  }

  /** The order of the nodes, and repeating one, makes no difference. */
  lemma OrderIndependent(reg: ChannelRegister, es: seq<ChannelConfig>, fs: seq<ChannelConfig>)
    requires forall e :: e in es <==> e in fs
    ensures OrAll(reg, es) == OrAll(reg, fs)
  {
    forall b: nat ensures Bit(OrAll(reg, es), b) == Bit(OrAll(reg, fs), b) {
      OrAllBit(reg, es, b);
      OrAllBit(reg, fs, b);
    }
    BitExtensional(OrAll(reg, es), OrAll(reg, fs));
  }

  lemma {:induction false} OrAllBound(reg: ChannelRegister, entries: seq<ChannelConfig>)
    ensures OrAll(reg, entries) < Pow2(64)
    decreases |entries|
  {
    Pow2Of64();
    if entries != [] {
      var n := |entries| - 1;
      OrAllBound(reg, entries[..n]);
      MaskBound(reg, entries[n]);
      OrBound(OrAll(reg, entries[..n]), Mask(reg, entries[n]), 64);
    }
  }

  lemma MaskBound(reg: ChannelRegister, e: ChannelConfig)
    ensures Mask(reg, e) < Pow2(64)
  {
    Pow2Of64();
    if Slotted(reg) {
      MaskFillsSlot(reg, e);
      if SlotOf(reg, e.channel).Some? {
        var o, w := SlotOf(reg, e.channel).value, SlotWidth(reg);
        SlotBound(reg, e.channel);
        Positive(o);
        AddIsSetField(0, o, w, CodeFor(reg, e));
        SetFieldBound(0, o, w, CodeFor(reg, e), 64);
      }
    }
  }

  /** Whether an active node of this channel has bit j in its code. */
  ghost predicate CodeHas(reg: ChannelRegister, e: ChannelConfig, channel: int, j: nat)
    requires Slotted(reg)
  {
    Counts(e) && e.channel == channel && Bit(CodeFor(reg, e), j)
  }

  lemma MaskBit(reg: ChannelRegister, e: ChannelConfig, channel: int, j: nat)
    requires Slotted(reg) && SlotOf(reg, channel).Some? && j < SlotWidth(reg)
    ensures Asks(reg, e, SlotOf(reg, channel).value + j) <==> CodeHas(reg, e, channel, j)
  {
    var b := SlotOf(reg, channel).value + j;
    MaskFillsSlot(reg, e);
    match SlotOf(reg, e.channel)
    case None =>
      BitOfZero(b);
    case Some(o) =>
      BitOfShl(CodeFor(reg, e), o, b);
      if e.channel != channel {
        SlotsDisjoint(reg, e.channel, channel);
        if o <= b { HighBitClear(CodeFor(reg, e), SlotWidth(reg), b - o); }
      }
  }

  /** A bit of a channel's slot is set exactly when an active node of that channel asks for
      it, whatever the other channels ask for. */
  lemma SlotBit(reg: ChannelRegister, entries: seq<ChannelConfig>, channel: int, j: nat)
    requires Slotted(reg) && SlotOf(reg, channel).Some? && j < SlotWidth(reg)
    ensures Bit(OrAll(reg, entries), SlotOf(reg, channel).value + j)
       <==> exists e :: e in entries && CodeHas(reg, e, channel, j)
  {
    var b := SlotOf(reg, channel).value + j;
    OrAllBit(reg, entries, b);
    forall e ensures Asks(reg, e, b) <==> CodeHas(reg, e, channel, j) {
      MaskBit(reg, e, channel, j);
    }
  }

  /** With one active node for its channel (or several that agree), a code reads back. */
  lemma CodeReadsBack(reg: ChannelRegister, entries: seq<ChannelConfig>, e: ChannelConfig)
    requires Slotted(reg) && SlotOf(reg, e.channel).Some? && e in entries && Counts(e)
    requires forall f :: f in entries && Counts(f) && f.channel == e.channel ==> CodeFor(reg, f) == CodeFor(reg, e)
    ensures GetField(OrAll(reg, entries), SlotOf(reg, e.channel).value, SlotWidth(reg)) == CodeFor(reg, e)
  {
    var o, w := SlotOf(reg, e.channel).value, SlotWidth(reg);
    var field := GetField(OrAll(reg, entries), o, w);
    MaskFillsSlot(reg, e);
    forall j: nat ensures Bit(field, j) == Bit(CodeFor(reg, e), j) {
      BitOfGetField(OrAll(reg, entries), o, w, j);
      if j < w {
        SlotBit(reg, entries, e.channel, j);
        if Bit(CodeFor(reg, e), j) { assert CodeHas(reg, e, e.channel, j); }
      } else {
        HighBitClear(CodeFor(reg, e), w, j);
      }
    }
    BitExtensional(field, CodeFor(reg, e));
  }

  /** A channel without an active node reads back 0. */
  lemma InactiveReadsZero(reg: ChannelRegister, entries: seq<ChannelConfig>, channel: int)
    requires Slotted(reg) && SlotOf(reg, channel).Some?
    requires forall f :: f in entries && f.channel == channel ==> !Counts(f)
    ensures GetField(OrAll(reg, entries), SlotOf(reg, channel).value, SlotWidth(reg)) == 0
  {
    var o, w := SlotOf(reg, channel).value, SlotWidth(reg);
    var field := GetField(OrAll(reg, entries), o, w);
    forall j: nat ensures Bit(field, j) == Bit(0, j) {
      BitOfGetField(OrAll(reg, entries), o, w, j);
      BitOfZero(j);
      if j < w { SlotBit(reg, entries, channel, j); }
    }
    BitExtensional(field, 0);
  }
}
