/** AGET register 1: the chip-wide options, packed into one word
    (runcontrol/GetController.cpp). */
module Register1 {
  import opened BitField
  import opened Words

  // ---------- options given by name ----------

  /** The names an option knows, in the order of their codes, and the code of any other name. */
  datatype Names = Names(list: seq<string>, default: nat)

  function CodeIn(name: string, list: seq<string>, default: nat): (code: nat)
    ensures name in list ==> code < |list| && list[code] == name
    ensures name !in list ==> code == default
  {
    if list == [] then default
    else if list[|list| - 1] == name then |list| - 1
    else CodeIn(name, list[..|list| - 1], default)
  }

  function CodeOf(name: string, names: Names): nat { CodeIn(name, names.list, names.default) }

  function NameAt(names: Names, code: nat): string {
    if code < |names.list| then names.list[code] else ""
  }

  /** A name the option knows stands for itself, any other for the default. */
  function Known(name: string, names: Names): string {
    if name in names.list then name else NameAt(names, names.default)
  }

  predicate NamesFit(names: Names, size: nat) {
    names.default < |names.list| == size
  }

  lemma NameOfCode(name: string, names: Names, size: nat)
    requires NamesFit(names, size)
    ensures CodeOf(name, names) < size
    ensures NameAt(names, CodeOf(name, names)) == Known(name, names)
    ensures Known(name, names) == name <==> name in names.list
  {
  }

  function BoolCode(b: bool): nat { if b then 1 else 0 }

  /** The internal test capacitor is recognised by the start of its name. */
  function TestRangeCode(s: string): nat {
    if "120f" <= s || "120 f" <= s then 0
    else if "240f" <= s || "240 f" <= s then 1
    else if "1p" <= s || "1 p" <= s then 2
    else if "10p" <= s || "10 p" <= s then 3
    else 0
  }

  const TEST_RANGES := ["120fF", "240fF", "1pF", "10pF"]

  lemma TestRangesRead(s: string)
    ensures TestRangeCode(s) < 4 && (TEST_RANGES[TestRangeCode(s)] == s <==> s in TEST_RANGES)
  {
    if s == "120fF" {
      assert s[..4] == "120f";
    } else if s == "240fF" {
      assert s[0] == '2' && s[..4] == "240f";
    } else if s == "1pF" {
      assert s[0] == '1' && s[1] == 'p' && s[..2] == "1p";
    } else if s == "10pF" {
      assert s[0] == '1' && s[1] == '0' && s[..3] == "10p";
    }
  }

  // ---------- the options of register 1 ----------

  datatype Reg1Config = Reg1Config(
    isIcsax2: bool, testModeRange: string, peakingTime: string, testModeSelection: string,
    integrationMode: string, scaPointer: string, scaSplitting: bool, is32channels: bool,
    isAllChannelRead: bool, isFPNRead: bool, isPositivePolarity: bool, vicm: string,
    globalThresholdValue: int, isThresholdSignedPositive: bool, triggerVetoOption: string,
    isckwriteSynchro: bool, isTOTActive: bool, isTriggerWidth200ns: bool,
    triggerWidthRange: string, externalLink: string)

  datatype Reg1Names = Reg1Names(
    peakingTime: Names, testModeSelection: Names, integrationMode: Names, scaPointer: Names,
    vicm: Names, triggerVetoOption: Names, triggerWidthRange: Names, externalLink: Names)

  /** The names the code compares with. */
  const REG1_NAMES := Reg1Names(
    Names(["70", "117", "232", "280", "334", "383", "502", "541",
           "568", "632", "721", "760", "831", "870", "976", "1014"], 8),
    Names(["nothing", "calibration", "test", "functionality"], 0),
    Names(["variable", "fixed_500ns"], 1),
    Names(["column_0", "col_0or256", "col_0or128or256or384", "anySCAPointer"], 0),
    Names(["1.25V", "1.35V", "1.55V", "1.65V"], 0),
    Names(["none", "4us", "HitRegisterWidth", "undefined"], 0),
    Names(["width0", "width1", "width2", "width3"], 0),
    Names(["none", "SKFilterInput", "Gain-2Input", "CSAStandby"], 0))

  predicate Reg1NamesFit(t: Reg1Names) {
    && NamesFit(t.peakingTime, 16) && NamesFit(t.testModeSelection, 4) && NamesFit(t.integrationMode, 2)
    && NamesFit(t.scaPointer, 4) && NamesFit(t.vicm, 4) && NamesFit(t.triggerVetoOption, 4)
    && NamesFit(t.triggerWidthRange, 4) && NamesFit(t.externalLink, 4)
  }

  /** An integer option as the unsigned 64-bit value it is converted to. */
  function Unsigned(v: int): nat { v % TWO_TO_THE_64 }

  /** The numbers the options become, in the order of the register's fields. */
  datatype Reg1Codes = Reg1Codes(
    icsa: nat, gain: nat, time: nat, test: nat, integratorMode: nat, scaPointer: nat,
    scaSplitting: nat, mode32Channels: nat, readoutMode: nat, fpnReadout: nat, polarity: nat, vicm: nat,
    dacThreshold: nat, dacPolarity: nat, triggerVeto: nat, synchroDiscri: nat, tot: nat, rangeTriggWidth: nat,
    lsbTriggWidth: nat, msbTriggWidth: nat, external: nat)

  function Reg1CodesOf(t: Reg1Names, c: Reg1Config): Reg1Codes {
    var width := CodeOf(c.triggerWidthRange, t.triggerWidthRange);
    Reg1Codes(
      BoolCode(c.isIcsax2), TestRangeCode(c.testModeRange), CodeOf(c.peakingTime, t.peakingTime),
      CodeOf(c.testModeSelection, t.testModeSelection), CodeOf(c.integrationMode, t.integrationMode),
      CodeOf(c.scaPointer, t.scaPointer),
      BoolCode(c.scaSplitting), BoolCode(c.is32channels), BoolCode(c.isAllChannelRead),
      BoolCode(c.isFPNRead), BoolCode(c.isPositivePolarity), CodeOf(c.vicm, t.vicm),
      Low(Unsigned(c.globalThresholdValue), 3), BoolCode(c.isThresholdSignedPositive),
      CodeOf(c.triggerVetoOption, t.triggerVetoOption), BoolCode(c.isckwriteSynchro),
      BoolCode(c.isTOTActive), BoolCode(c.isTriggerWidth200ns),
      width % 2, width / 2, CodeOf(c.externalLink, t.externalLink))
  }

  // ---------- packing ----------

  /** Bits 0 to 11: gain, shaping and test. */
  function AnalogFields(k: Reg1Codes): seq<Field> {
    [Field(0, 1, k.icsa), Field(1, 2, k.gain), Field(3, 4, k.time),
     Field(7, 2, k.test), Field(9, 1, k.integratorMode), Field(10, 2, k.scaPointer)]
  }

  /** Bits 12 to 18: readout. */
  function ReadoutFields(k: Reg1Codes): seq<Field> {
    [Field(12, 1, k.scaSplitting), Field(13, 1, k.mode32Channels), Field(14, 1, k.readoutMode),
     Field(15, 1, k.fpnReadout), Field(16, 1, k.polarity), Field(17, 2, k.vicm)]
  }

  /** Bits 19 to 27: threshold and veto. */
  function TriggerFields(k: Reg1Codes): seq<Field> {
    [Field(19, 3, k.dacThreshold), Field(22, 1, k.dacPolarity), Field(23, 2, k.triggerVeto),
     Field(25, 1, k.synchroDiscri), Field(26, 1, k.tot), Field(27, 1, k.rangeTriggWidth)]
  }

  /** Bits 28 to 31: trigger width, low bit first, and external link. */
  function LinkFields(k: Reg1Codes): seq<Field> {
    [Field(28, 1, k.lsbTriggWidth), Field(29, 1, k.msbTriggWidth), Field(30, 2, k.external)]
  }

  function Reg1Fields(k: Reg1Codes): seq<Field> {
    AnalogFields(k) + ReadoutFields(k) + TriggerFields(k) + LinkFields(k)
  }

  /** The word register 1 receives. */
  ghost function Reg1Word(t: Reg1Names, c: Reg1Config): nat { Pack(Reg1Fields(Reg1CodesOf(t, c))) }

  method WriteAnalog(t: Reg1Names, c: Reg1Config, reg: nat, ghost log: seq<Field>) returns (regValue: nat)
    requires reg == Pack(log)
    ensures regValue == Pack(log + AnalogFields(Reg1CodesOf(t, c)))
  {
    ghost var fs := AnalogFields(Reg1CodesOf(t, c));
    PackSix(log, fs[0], fs[1], fs[2], fs[3], fs[4], fs[5]);
    regValue := SetField(reg, 0, 1, BoolCode(c.isIcsax2));
    regValue := SetField(regValue, 1, 2, TestRangeCode(c.testModeRange));
    regValue := SetField(regValue, 3, 4, CodeOf(c.peakingTime, t.peakingTime));
    regValue := SetField(regValue, 7, 2, CodeOf(c.testModeSelection, t.testModeSelection));
    regValue := SetField(regValue, 9, 1, CodeOf(c.integrationMode, t.integrationMode));
    regValue := SetField(regValue, 10, 2, CodeOf(c.scaPointer, t.scaPointer));
  }

  method WriteReadout(t: Reg1Names, c: Reg1Config, reg: nat, ghost log: seq<Field>) returns (regValue: nat)
    requires reg == Pack(log)
    ensures regValue == Pack(log + ReadoutFields(Reg1CodesOf(t, c)))
  {
    ghost var fs := ReadoutFields(Reg1CodesOf(t, c));
    PackSix(log, fs[0], fs[1], fs[2], fs[3], fs[4], fs[5]);
    regValue := SetField(reg, 12, 1, BoolCode(c.scaSplitting));
    regValue := SetField(regValue, 13, 1, BoolCode(c.is32channels));
    regValue := SetField(regValue, 14, 1, BoolCode(c.isAllChannelRead));
    regValue := SetField(regValue, 15, 1, BoolCode(c.isFPNRead));
    regValue := SetField(regValue, 16, 1, BoolCode(c.isPositivePolarity));
    regValue := SetField(regValue, 17, 2, CodeOf(c.vicm, t.vicm));
  }

  method WriteTrigger(t: Reg1Names, c: Reg1Config, reg: nat, ghost log: seq<Field>) returns (regValue: nat)
    requires reg == Pack(log)
    ensures regValue == Pack(log + TriggerFields(Reg1CodesOf(t, c)))
  {
    ghost var fs := TriggerFields(Reg1CodesOf(t, c));
    PackSix(log, fs[0], fs[1], fs[2], fs[3], fs[4], fs[5]);
    SetFieldLow(reg, 19, 3, Unsigned(c.globalThresholdValue));
    regValue := SetField(reg, 19, 3, Unsigned(c.globalThresholdValue));
    regValue := SetField(regValue, 22, 1, BoolCode(c.isThresholdSignedPositive));
    regValue := SetField(regValue, 23, 2, CodeOf(c.triggerVetoOption, t.triggerVetoOption));
    regValue := SetField(regValue, 25, 1, BoolCode(c.isckwriteSynchro));
    regValue := SetField(regValue, 26, 1, BoolCode(c.isTOTActive));
    regValue := SetField(regValue, 27, 1, BoolCode(c.isTriggerWidth200ns));
  }

  method WidthBits(code: nat) returns (lsb: nat, msb: nat)
    requires code < 4
    ensures lsb == code % 2 && msb == code / 2
  {
    lsb, msb := 0, 0;
    if code == 1 {
      lsb, msb := 1, 0;
    } else if code == 2 {
      lsb, msb := 0, 1;
    } else if code == 3 {
      lsb, msb := 1, 1;
    }
  }

  method WriteLink(t: Reg1Names, c: Reg1Config, reg: nat, ghost log: seq<Field>) returns (regValue: nat)
    requires reg == Pack(log) && Reg1NamesFit(t)
    ensures regValue == Pack(log + LinkFields(Reg1CodesOf(t, c)))
  {
    ghost var fs := LinkFields(Reg1CodesOf(t, c));
    PackThree(log, fs[0], fs[1], fs[2]);
    NameOfCode(c.triggerWidthRange, t.triggerWidthRange, 4);
    var lsb, msb := WidthBits(CodeOf(c.triggerWidthRange, t.triggerWidthRange));
    regValue := SetField(reg, 28, 1, lsb);
    regValue := SetField(regValue, 29, 1, msb);
    regValue := SetField(regValue, 30, 2, CodeOf(c.externalLink, t.externalLink));
  }

  method RetrieveReg1(active: bool, t: Reg1Names, c: Reg1Config) returns (regValue: nat)
    requires Reg1NamesFit(t)
    ensures regValue == if active then Reg1Word(t, c) else 0
  {
    regValue := 0;
    if active {
      ghost var k := Reg1CodesOf(t, c);
      assert [] + AnalogFields(k) == AnalogFields(k);
      regValue := WriteAnalog(t, c, regValue, []);
      regValue := WriteReadout(t, c, regValue, AnalogFields(k));
      regValue := WriteTrigger(t, c, regValue, AnalogFields(k) + ReadoutFields(k));
      regValue := WriteLink(t, c, regValue, AnalogFields(k) + ReadoutFields(k) + TriggerFields(k));
    }
  }

  // ---------- reading the fields back ----------

  /** The 21 fields leave no gap and no overlap in bits 0 to 31. */
  lemma Reg1Tiles(k: Reg1Codes)
    ensures var fs := Reg1Fields(k);
            |fs| == 21 && fs[0].offset == 0 && fs[20].offset + fs[20].width == 32
            && forall i :: 0 < i < 21 ==> fs[i].offset == fs[i - 1].offset + fs[i - 1].width
  {
  }

  predicate Reads(w: nat, f: Field) {
    GetField(w, f.offset, f.width) == Low(f.code, f.width)
  }

  /** Every field of the packed word reads back, whatever the other fields are. */
  lemma Reg1FieldsRead(k: Reg1Codes)
    ensures forall f :: f in AnalogFields(k) || f in ReadoutFields(k) || f in TriggerFields(k) || f in LinkFields(k)
                    ==> Reads(Pack(Reg1Fields(k)), f)
    ensures Pack(Reg1Fields(k)) < Pow2(32)
  {
    var fs := Reg1Fields(k);
    Reg1Tiles(k);
    AscendingDisjoint(fs);
    forall f | f in fs ensures Reads(Pack(fs), f) {
      var i :| 0 <= i < |fs| && fs[i] == f;
      PackReadsBack(fs, i);
    }
    forall f | f in fs ensures f.offset + f.width <= 32 {
      var i :| 0 <= i < |fs| && fs[i] == f;
      if i < 20 { AscendingOrder(fs, i, 20); }
    }
    PackBound(fs, 32);
  }

  /** The fields of a word. */
  function UnpackReg1(w: nat): Reg1Codes {
    Reg1Codes(
      GetField(w, 0, 1), GetField(w, 1, 2), GetField(w, 3, 4), GetField(w, 7, 2), GetField(w, 9, 1),
      GetField(w, 10, 2), GetField(w, 12, 1), GetField(w, 13, 1), GetField(w, 14, 1), GetField(w, 15, 1),
      GetField(w, 16, 1), GetField(w, 17, 2), GetField(w, 19, 3), GetField(w, 22, 1), GetField(w, 23, 2),
      GetField(w, 25, 1), GetField(w, 26, 1), GetField(w, 27, 1), GetField(w, 28, 1), GetField(w, 29, 1),
      GetField(w, 30, 2))
  }

  /** Every code fits its field. */
  predicate Reg1CodesFit(k: Reg1Codes) {
    && k.icsa < 2 && k.gain < 4 && k.time < 16 && k.test < 4 && k.integratorMode < 2 && k.scaPointer < 4
    && k.scaSplitting < 2 && k.mode32Channels < 2 && k.readoutMode < 2 && k.fpnReadout < 2 && k.polarity < 2
    && k.vicm < 4 && k.dacThreshold < 8 && k.dacPolarity < 2 && k.triggerVeto < 4 && k.synchroDiscri < 2
    && k.tot < 2 && k.rangeTriggWidth < 2 && k.lsbTriggWidth < 2 && k.msbTriggWidth < 2 && k.external < 4
  }

  lemma Exact(w: nat, f: Field, size: nat)
    requires Reads(w, f) && f.code < size == Pow2(f.width)
    ensures GetField(w, f.offset, f.width) == f.code
  {
    LowBound(f.code, f.width);
  }

  lemma FieldSizes()
    ensures Pow2(1) == 2 && Pow2(2) == 4 && Pow2(3) == 8 && Pow2(4) == 16
  {
  }

  lemma AnalogUnpacks(k: Reg1Codes, w: nat)
    requires Reg1CodesFit(k) && forall f :: f in AnalogFields(k) ==> Reads(w, f)
    ensures GetField(w, 0, 1) == k.icsa && GetField(w, 1, 2) == k.gain && GetField(w, 3, 4) == k.time
    ensures GetField(w, 7, 2) == k.test && GetField(w, 9, 1) == k.integratorMode && GetField(w, 10, 2) == k.scaPointer
  {
    var fs := AnalogFields(k);
    FieldSizes();
    Exact(w, fs[0], 2); Exact(w, fs[1], 4); Exact(w, fs[2], 16);
    Exact(w, fs[3], 4); Exact(w, fs[4], 2); Exact(w, fs[5], 4);
  }

  lemma ReadoutUnpacks(k: Reg1Codes, w: nat)
    requires Reg1CodesFit(k) && forall f :: f in ReadoutFields(k) ==> Reads(w, f)
    ensures GetField(w, 12, 1) == k.scaSplitting && GetField(w, 13, 1) == k.mode32Channels
    ensures GetField(w, 14, 1) == k.readoutMode && GetField(w, 15, 1) == k.fpnReadout
    ensures GetField(w, 16, 1) == k.polarity && GetField(w, 17, 2) == k.vicm
  {
    var fs := ReadoutFields(k);
    FieldSizes();
    Exact(w, fs[0], 2); Exact(w, fs[1], 2); Exact(w, fs[2], 2);
    Exact(w, fs[3], 2); Exact(w, fs[4], 2); Exact(w, fs[5], 4);
  }

  lemma TriggerUnpacks(k: Reg1Codes, w: nat)
    requires Reg1CodesFit(k) && forall f :: f in TriggerFields(k) ==> Reads(w, f)
    ensures GetField(w, 19, 3) == k.dacThreshold && GetField(w, 22, 1) == k.dacPolarity
    ensures GetField(w, 23, 2) == k.triggerVeto && GetField(w, 25, 1) == k.synchroDiscri
    ensures GetField(w, 26, 1) == k.tot && GetField(w, 27, 1) == k.rangeTriggWidth
  {
    var fs := TriggerFields(k);
    FieldSizes();
    Exact(w, fs[0], 8); Exact(w, fs[1], 2); Exact(w, fs[2], 4);
    Exact(w, fs[3], 2); Exact(w, fs[4], 2); Exact(w, fs[5], 2);
  }

  lemma LinkUnpacks(k: Reg1Codes, w: nat)
    requires Reg1CodesFit(k) && forall f :: f in LinkFields(k) ==> Reads(w, f)
    ensures GetField(w, 28, 1) == k.lsbTriggWidth && GetField(w, 29, 1) == k.msbTriggWidth
    ensures GetField(w, 30, 2) == k.external
  {
    var fs := LinkFields(k);
    FieldSizes();
    Exact(w, fs[0], 2); Exact(w, fs[1], 2); Exact(w, fs[2], 4);
  }

  /** The word determines every code. */
  lemma Reg1Unpacks(k: Reg1Codes)
    requires Reg1CodesFit(k)
    ensures UnpackReg1(Pack(Reg1Fields(k))) == k
  {
    var w := Pack(Reg1Fields(k));
    Reg1FieldsRead(k);
    AnalogUnpacks(k, w);
    ReadoutUnpacks(k, w);
    TriggerUnpacks(k, w);
    LinkUnpacks(k, w);
  }

  // ---------- what the word asks of the chip ----------

  function ConfigOf(t: Reg1Names, k: Reg1Codes): Reg1Config {
    Reg1Config(
      k.icsa == 1, if k.gain < 4 then TEST_RANGES[k.gain] else "", NameAt(t.peakingTime, k.time),
      NameAt(t.testModeSelection, k.test), NameAt(t.integrationMode, k.integratorMode),
      NameAt(t.scaPointer, k.scaPointer),
      k.scaSplitting == 1, k.mode32Channels == 1, k.readoutMode == 1, k.fpnReadout == 1, k.polarity == 1,
      NameAt(t.vicm, k.vicm), k.dacThreshold, k.dacPolarity == 1, NameAt(t.triggerVetoOption, k.triggerVeto),
      k.synchroDiscri == 1, k.tot == 1, k.rangeTriggWidth == 1,
      NameAt(t.triggerWidthRange, k.lsbTriggWidth + 2 * k.msbTriggWidth), NameAt(t.externalLink, k.external))
  }

  /** The configuration a word stands for. */
  function DecodeReg1(t: Reg1Names, w: nat): Reg1Config { ConfigOf(t, UnpackReg1(w)) }

  /** What the chip is asked to do: unknown names fall back, the threshold keeps three bits. */
  function Effective(t: Reg1Names, c: Reg1Config): Reg1Config {
    c.(testModeRange := TEST_RANGES[TestRangeCode(c.testModeRange)],
       peakingTime := Known(c.peakingTime, t.peakingTime),
       testModeSelection := Known(c.testModeSelection, t.testModeSelection),
       integrationMode := Known(c.integrationMode, t.integrationMode),
       scaPointer := Known(c.scaPointer, t.scaPointer),
       vicm := Known(c.vicm, t.vicm),
       globalThresholdValue := c.globalThresholdValue % 8,
       triggerVetoOption := Known(c.triggerVetoOption, t.triggerVetoOption),
       triggerWidthRange := Known(c.triggerWidthRange, t.triggerWidthRange),
       externalLink := Known(c.externalLink, t.externalLink))
  }

  /** The configurations whose every option is one the register can express. */
  predicate LegalReg1(t: Reg1Names, c: Reg1Config) {
    && c.testModeRange in TEST_RANGES && c.peakingTime in t.peakingTime.list
    && c.testModeSelection in t.testModeSelection.list && c.integrationMode in t.integrationMode.list
    && c.scaPointer in t.scaPointer.list && c.vicm in t.vicm.list
    && 0 <= c.globalThresholdValue < 8 && c.triggerVetoOption in t.triggerVetoOption.list
    && c.triggerWidthRange in t.triggerWidthRange.list && c.externalLink in t.externalLink.list
  }

  lemma LowThree(n: nat)
    ensures Low(n, 3) == n % 8
  {
  }

  lemma UnsignedLow(v: int)
    ensures Unsigned(v) % 8 == v % 8
  {
  }

  lemma ThresholdBits(v: int)
    ensures Low(Unsigned(v), 3) == v % 8
  {
    LowThree(Unsigned(v));
    UnsignedLow(v);
  }

  lemma Reg1CodesInRange(t: Reg1Names, c: Reg1Config)
    requires Reg1NamesFit(t)
    ensures Reg1CodesFit(Reg1CodesOf(t, c))
  {
  }

  lemma Reg1CodesMean(t: Reg1Names, c: Reg1Config)
    requires Reg1NamesFit(t)
    ensures ConfigOf(t, Reg1CodesOf(t, c)) == Effective(t, c)
  {
    NameOfCode(c.peakingTime, t.peakingTime, 16);
    NameOfCode(c.testModeSelection, t.testModeSelection, 4);
    NameOfCode(c.integrationMode, t.integrationMode, 2);
    NameOfCode(c.scaPointer, t.scaPointer, 4);
    NameOfCode(c.vicm, t.vicm, 4);
    NameOfCode(c.triggerVetoOption, t.triggerVetoOption, 4);
    NameOfCode(c.triggerWidthRange, t.triggerWidthRange, 4);
    NameOfCode(c.externalLink, t.externalLink, 4);
    TestRangesRead(c.testModeRange);
    ThresholdBits(c.globalThresholdValue);
  }

  lemma LegalIsEffective(t: Reg1Names, c: Reg1Config)
    requires Reg1NamesFit(t)
    ensures Effective(t, c) == c <==> LegalReg1(t, c)
  {
    NameOfCode(c.peakingTime, t.peakingTime, 16);
    NameOfCode(c.testModeSelection, t.testModeSelection, 4);
    NameOfCode(c.integrationMode, t.integrationMode, 2);
    NameOfCode(c.scaPointer, t.scaPointer, 4);
    NameOfCode(c.vicm, t.vicm, 4);
    NameOfCode(c.triggerVetoOption, t.triggerVetoOption, 4);
    NameOfCode(c.triggerWidthRange, t.triggerWidthRange, 4);
    NameOfCode(c.externalLink, t.externalLink, 4);
    TestRangesRead(c.testModeRange);
  }

  /** The 32-bit word says exactly what the chip is asked to do, for every configuration,
      and the configuration itself survives exactly when all its options are legal. */
  lemma Reg1RoundTrip(t: Reg1Names, c: Reg1Config)
    requires Reg1NamesFit(t)
    ensures Reg1Word(t, c) < Pow2(32)
    ensures DecodeReg1(t, Reg1Word(t, c)) == Effective(t, c)
    ensures DecodeReg1(t, Reg1Word(t, c)) == c <==> LegalReg1(t, c)
  {
    Reg1CodesInRange(t, c);
    Reg1CodesMean(t, c);
    LegalIsEffective(t, c);
    Reg1Unpacks(Reg1CodesOf(t, c));
    Reg1FieldsRead(Reg1CodesOf(t, c));
  }

  /** Which bits of the word each option decides. */
  lemma Reg1Bits(t: Reg1Names, c: Reg1Config)
    requires Reg1NamesFit(t)
    ensures var w := Reg1Word(t, c);
            && (GetField(w, 0, 1) == 1 <==> c.isIcsax2) && GetField(w, 1, 2) == TestRangeCode(c.testModeRange)
            && GetField(w, 3, 4) == CodeOf(c.peakingTime, t.peakingTime)
            && GetField(w, 7, 2) == CodeOf(c.testModeSelection, t.testModeSelection)
            && GetField(w, 9, 1) == CodeOf(c.integrationMode, t.integrationMode)
            && GetField(w, 10, 2) == CodeOf(c.scaPointer, t.scaPointer)
            && (GetField(w, 12, 1) == 1 <==> c.scaSplitting) && (GetField(w, 13, 1) == 1 <==> c.is32channels)
            && (GetField(w, 14, 1) == 1 <==> c.isAllChannelRead) && (GetField(w, 15, 1) == 1 <==> c.isFPNRead)
            && (GetField(w, 16, 1) == 1 <==> c.isPositivePolarity) && GetField(w, 17, 2) == CodeOf(c.vicm, t.vicm)
    ensures var w := Reg1Word(t, c);
            && GetField(w, 19, 3) == c.globalThresholdValue % 8
            && (GetField(w, 22, 1) == 1 <==> c.isThresholdSignedPositive)
            && GetField(w, 23, 2) == CodeOf(c.triggerVetoOption, t.triggerVetoOption)
            && (GetField(w, 25, 1) == 1 <==> c.isckwriteSynchro) && (GetField(w, 26, 1) == 1 <==> c.isTOTActive)
            && (GetField(w, 27, 1) == 1 <==> c.isTriggerWidth200ns)
            && GetField(w, 28, 1) + 2 * GetField(w, 29, 1) == CodeOf(c.triggerWidthRange, t.triggerWidthRange)
            && GetField(w, 30, 2) == CodeOf(c.externalLink, t.externalLink)
  {
    Reg1CodesInRange(t, c);
    Reg1Unpacks(Reg1CodesOf(t, c));
    ThresholdBits(c.globalThresholdValue);
  }

  lemma Reg1NamesAreFit()
    ensures Reg1NamesFit(REG1_NAMES)
  {
  }

  // ---------- the code of every name ----------

  function Digit(c: char): int { c as int - '0' as int }

  /** The number a name of two to four digits spells. */
  function Spelled(s: string): int {
    if |s| == 2 then 10 * Digit(s[0]) + Digit(s[1])
    else if |s| == 3 then 100 * Digit(s[0]) + 10 * Digit(s[1]) + Digit(s[2])
    else if |s| == 4 then 1000 * Digit(s[0]) + 100 * Digit(s[1]) + 10 * Digit(s[2]) + Digit(s[3])
    else 0
  }

  const PEAKING_TIMES := [70, 117, 232, 280, 334, 383, 502, 541, 568, 632, 721, 760, 831, 870, 976, 1014]

  lemma PeakingTimesSpelled()
    ensures forall k :: 0 <= k < 16 ==> Spelled(REG1_NAMES.peakingTime.list[k]) == PEAKING_TIMES[k]
  {
    var list := REG1_NAMES.peakingTime.list;
    assert Spelled(list[0]) == 70 && Spelled(list[1]) == 117 && Spelled(list[2]) == 232 && Spelled(list[3]) == 280;
    assert Spelled(list[4]) == 334 && Spelled(list[5]) == 383 && Spelled(list[6]) == 502 && Spelled(list[7]) == 541;
    assert Spelled(list[8]) == 568 && Spelled(list[9]) == 632 && Spelled(list[10]) == 721 && Spelled(list[11]) == 760;
    assert Spelled(list[12]) == 831 && Spelled(list[13]) == 870 && Spelled(list[14]) == 976;
    assert Spelled(list[15]) == 1014;
  }

  lemma PeakingTimesIncrease(j: nat, k: nat)
    requires j < k < 16
    ensures PEAKING_TIMES[j] < PEAKING_TIMES[k]
  {
  }

  /** The code of a shaping time is its place in the increasing list of the 16 times, and 8 for any
      other name. */
  lemma PeakingTimeCode(name: string)
    ensures var code := CodeOf(name, REG1_NAMES.peakingTime);
            && (forall k: nat :: k < 16 && REG1_NAMES.peakingTime.list[k] == name ==>
                  code == k && Spelled(name) == PEAKING_TIMES[k])
            && (name !in REG1_NAMES.peakingTime.list ==> code == 8)
  {
    var list, code := REG1_NAMES.peakingTime.list, CodeOf(name, REG1_NAMES.peakingTime);
    PeakingTimesSpelled();
    forall k: nat | k < 16 && list[k] == name ensures code == k {
      assert PEAKING_TIMES[code] == PEAKING_TIMES[k];
      if code < k { PeakingTimesIncrease(code, k); }
      if k < code { PeakingTimesIncrease(k, code); }
    }
  }

  /** The test capacitor by the start of its name. */
  lemma TestRangeCodes(s: string)
    ensures "240f" <= s || "240 f" <= s ==> TestRangeCode(s) == 1
    ensures "1p" <= s || "1 p" <= s ==> TestRangeCode(s) == 2
    ensures "10p" <= s || "10 p" <= s ==> TestRangeCode(s) == 3
    ensures !("240f" <= s || "240 f" <= s || "1p" <= s || "1 p" <= s || "10p" <= s || "10 p" <= s) ==>
            TestRangeCode(s) == 0
  {
    if "120f" <= s { assert s[0] == '1' && s[1] == '2'; }
    if "120 f" <= s { assert s[0] == '1' && s[1] == '2'; }
    if "240f" <= s { assert s[0] == '2'; }
    if "240 f" <= s { assert s[0] == '2'; }
    if "1p" <= s { assert s[0] == '1' && s[1] == 'p'; }
    if "1 p" <= s { assert s[0] == '1' && s[1] == ' '; }
    if "10p" <= s { assert s[0] == '1' && s[1] == '0'; }
    if "10 p" <= s { assert s[0] == '1' && s[1] == '0'; }
  }

  lemma TestCodes()
    ensures var n := REG1_NAMES.testModeSelection;
            && CodeOf("nothing", n) == 0 && CodeOf("calibration", n) == 1
            && CodeOf("test", n) == 2 && CodeOf("functionality", n) == 3
    ensures var n := REG1_NAMES.integrationMode; CodeOf("variable", n) == 0 && CodeOf("fixed_500ns", n) == 1
  {
  }

  lemma PointerCodes()
    ensures var n := REG1_NAMES.scaPointer;
            && CodeOf("column_0", n) == 0 && CodeOf("col_0or256", n) == 1
            && CodeOf("col_0or128or256or384", n) == 2 && CodeOf("anySCAPointer", n) == 3
  {
  }

  lemma VicmCodes()
    ensures var n := REG1_NAMES.vicm;
            CodeOf("1.25V", n) == 0 && CodeOf("1.35V", n) == 1 && CodeOf("1.55V", n) == 2 && CodeOf("1.65V", n) == 3
  {
    assert "1.25V"[2] == '2' && "1.35V"[2] == '3' && "1.55V"[2] == '5' && "1.65V"[2] == '6';
  }

  lemma VetoCodes()
    ensures var n := REG1_NAMES.triggerVetoOption;
            && CodeOf("none", n) == 0 && CodeOf("4us", n) == 1
            && CodeOf("HitRegisterWidth", n) == 2 && CodeOf("undefined", n) == 3
  {
  }

  lemma WidthCodes()
    ensures var n := REG1_NAMES.triggerWidthRange;
            && CodeOf("width0", n) == 0 && CodeOf("width1", n) == 1 && CodeOf("width2", n) == 2
            && CodeOf("width3", n) == 3
  {
    assert "width0"[5] == '0' && "width1"[5] == '1' && "width2"[5] == '2' && "width3"[5] == '3';
  }

  lemma LinkCodes()
    ensures var n := REG1_NAMES.externalLink;
            && CodeOf("none", n) == 0 && CodeOf("SKFilterInput", n) == 1
            && CodeOf("Gain-2Input", n) == 2 && CodeOf("CSAStandby", n) == 3
  {
  }

  lemma UnknownVeto()
    ensures Known("Undefined", REG1_NAMES.triggerVetoOption) == "none"
  {
  }

  /** The configuration files offer the veto option as "Undefined"; the code compares with
      "undefined", so that choice means no veto. */
  lemma CapitalUndefinedIsNone(c: Reg1Config)
    requires c.triggerVetoOption == "Undefined"
    ensures DecodeReg1(REG1_NAMES, Reg1Word(REG1_NAMES, c)).triggerVetoOption == "none"
  {
    Reg1NamesAreFit();
    Reg1RoundTrip(REG1_NAMES, c);
    UnknownVeto();
  }
}
