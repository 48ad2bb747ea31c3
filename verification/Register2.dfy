/** AGET register 2: debug, power and multiplicity options, packed by running additions
    (runcontrol/GetController.cpp). */
module Register2 {
  import opened BitField
  import opened Logarithm
  import opened Options
  import opened Register1

  datatype Reg2Config = Reg2Config(
    debugSelection: string, isReadFromColumn0: bool, isDigitalOutputTest: bool, isResetLevelUndefined: bool,
    isMarkerEnable: bool, isResetLevelVdd: bool, isBoostPower: bool, isOutputscCkSynchro: bool,
    isSynchroEdgeFalling: bool, isSCoutputBufferInTriState: bool, currentBias: string, bufferCurrent: string,
    isPWDonWrite: bool, isPWDonRead: bool, isAlternatePower: bool, is1bitShortResetReadSeq: bool,
    isTriggerOutputDisable: bool, isRisingedgeWriteAutoresetBank: bool, islvdsTriggerOutput: bool,
    inputDynamicRange5pct: Option<bool>, triggerLvdsThreshold: Option<int>, multiplicityLevel: Option<int>)

  datatype Reg2Names = Reg2Names(debugSelection: Names, currentBias: Names, bufferCurrent: Names)

  /** The names the code compares with; "none" is every other debug selection. */
  const REG2_NAMES := Reg2Names(
    Names(["standby", "CSA", "CR", "Gain-2", "PositiveInputDiscri", "NegativeInputDiscri", "trigger", "none"], 7),
    Names(["current0", "current1", "current2", "current3"], 0),
    Names(["1.503mA", "1.914mA", "2.7mA", "4.870mA"], 0))

  predicate Reg2NamesFit(t: Reg2Names) {
    NamesFit(t.debugSelection, 8) && NamesFit(t.currentBias, 4) && NamesFit(t.bufferCurrent, 4)
  }

  function OrElse<T>(v: Option<T>, default: T): T { if v.Some? then v.value else default }

  /** The two bits that hold the base-2 logarithm of a threshold. */
  function LevelCode(v: Option<int>): nat { Low(LogTwoOf(Unsigned(OrElse(v, 1))), 2) }

  /** Bits 0 to 7. */
  function DebugFields(t: Reg2Names, c: Reg2Config): seq<Field> {
    [Field(0, 3, CodeOf(c.debugSelection, t.debugSelection)), Field(3, 1, BoolCode(c.isReadFromColumn0)),
     Field(4, 1, BoolCode(c.isDigitalOutputTest)), Field(5, 1, BoolCode(c.isResetLevelUndefined)),
     Field(6, 1, BoolCode(c.isMarkerEnable)), Field(7, 1, BoolCode(c.isResetLevelVdd))]
  }

  /** Bits 8 to 15. */
  function OutputFields(t: Reg2Names, c: Reg2Config): seq<Field> {
    [Field(8, 1, BoolCode(c.isBoostPower)), Field(9, 1, BoolCode(c.isOutputscCkSynchro)),
     Field(10, 1, BoolCode(c.isSynchroEdgeFalling)), Field(11, 1, BoolCode(c.isSCoutputBufferInTriState)),
     Field(12, 2, CodeOf(c.currentBias, t.currentBias)), Field(14, 2, CodeOf(c.bufferCurrent, t.bufferCurrent))]
  }

  /** Bits 16 to 21. */
  function PowerFields(c: Reg2Config): seq<Field> {
    [Field(16, 1, BoolCode(c.isPWDonWrite)), Field(17, 1, BoolCode(c.isPWDonRead)),
     Field(18, 1, BoolCode(c.isAlternatePower)), Field(19, 1, BoolCode(c.is1bitShortResetReadSeq)),
     Field(20, 1, BoolCode(c.isTriggerOutputDisable)), Field(21, 1, BoolCode(c.isRisingedgeWriteAutoresetBank))]
  }

  /** Bits 24 to 28. */
  function LevelFields(c: Reg2Config): seq<Field> {
    [Field(24, 1, BoolCode(OrElse(c.inputDynamicRange5pct, false))),
     Field(25, 2, LevelCode(c.triggerLvdsThreshold)), Field(27, 2, LevelCode(c.multiplicityLevel))]
  }

  /** The fields that are added up: bits 0 to 22.  Bit 23 has no option. */
  function AddedFields(t: Reg2Names, c: Reg2Config): seq<Field> {
    DebugFields(t, c) + OutputFields(t, c) + PowerFields(c) + [Field(22, 1, BoolCode(c.islvdsTriggerOutput))]
  }

  function Reg2Fields(t: Reg2Names, c: Reg2Config): seq<Field> { AddedFields(t, c) + LevelFields(c) }

  ghost function Reg2Word(t: Reg2Names, c: Reg2Config): nat { Pack(Reg2Fields(t, c)) }

  // ---------- packing by additions ----------

  /** Adds `code << offset` for every field. */
  ghost function SumAll(reg: nat, fs: seq<Field>): nat
    decreases |fs|
  {
    if fs == [] then reg else SumAll(reg + Shl(fs[0].code, fs[0].offset), fs[1..])
  }

  lemma {:induction false} SumAppend(reg: nat, fs: seq<Field>, gs: seq<Field>)
    ensures SumAll(reg, fs + gs) == SumAll(SumAll(reg, fs), gs)
    decreases |fs|
  {
    if fs == [] {
      assert fs + gs == gs;
    } else {
      assert (fs + gs)[1..] == fs[1..] + gs;
      SumAppend(reg + Shl(fs[0].code, fs[0].offset), fs[1..], gs);
    }
  }

  lemma SumFirst(reg: nat, f: Field, rest: seq<Field>, fs: seq<Field>)
    requires fs == [f] + rest
    ensures SumAll(reg, fs) == SumAll(reg + Shl(f.code, f.offset), rest)
  {
  }

  lemma SumThree(reg: nat, a: Field, b: Field, c: Field)
    ensures SumAll(reg, [a, b, c]) == reg + Shl(a.code, a.offset) + Shl(b.code, b.offset) + Shl(c.code, c.offset)
  {
    SumFirst(reg, a, [b, c], [a, b, c]);
    SumFirst(reg + Shl(a.code, a.offset), b, [c], [b, c]);
    SumFirst(reg + Shl(a.code, a.offset) + Shl(b.code, b.offset), c, [], [c]);
  }

  lemma SumSix(reg: nat, a: Field, b: Field, c: Field, d: Field, e: Field, f: Field)
    ensures SumAll(reg, [a, b, c, d, e, f])
         == reg + Shl(a.code, a.offset) + Shl(b.code, b.offset) + Shl(c.code, c.offset)
            + Shl(d.code, d.offset) + Shl(e.code, e.offset) + Shl(f.code, f.offset)
  {
    SumThree(reg, a, b, c);
    SumThree(SumAll(reg, [a, b, c]), d, e, f);
    SumAppend(reg, [a, b, c], [d, e, f]);
    assert [a, b, c] + [d, e, f] == [a, b, c, d, e, f];
  }

  /** The first free bit is at or below the first field, the fields ascend, and every code fits. */
  ghost predicate Room(reg: nat, fs: seq<Field>) {
    && Ascending(fs)
    && (forall f :: f in fs ==> f.code < Pow2(f.width))
    && (fs != [] ==> reg < Pow2(fs[0].offset))
  }

  /** After one addition there is room for the fields that follow. */
  lemma RoomAfter(reg: nat, fs: seq<Field>)
    requires Room(reg, fs) && fs != []
    ensures reg + Shl(fs[0].code, fs[0].offset) == Set(reg, fs[0])
    ensures Room(Set(reg, fs[0]), fs[1..])
  {
    var f, rest := fs[0], fs[1..];
    assert f in fs;
    AddIsSetField(reg, f.offset, f.width, f.code);
    Pow2Monotone(f.offset, f.offset + f.width);
    SetFieldBound(reg, f.offset, f.width, f.code, f.offset + f.width);
    if rest != [] { Pow2Monotone(f.offset + f.width, rest[0].offset); }
    forall i | 0 < i < |rest| ensures rest[i - 1].offset + rest[i - 1].width <= rest[i].offset {
      assert rest[i - 1] == fs[i] && rest[i] == fs[i + 1];
    }
  }

  /** Nothing carries: adding is the same as setting the fields. */
  lemma {:induction false} AdditionsSetFields(reg: nat, fs: seq<Field>)
    requires Room(reg, fs)
    ensures SumAll(reg, fs) == WriteAll(reg, fs)
    decreases |fs|
  {
    if fs != [] {
      RoomAfter(reg, fs);
      AdditionsSetFields(Set(reg, fs[0]), fs[1..]);
    }
  }

  method AddDebug(t: Reg2Names, c: Reg2Config) returns (datareg: nat)
    ensures datareg == SumAll(0, DebugFields(t, c))
  {
    ghost var fs := DebugFields(t, c);
    SumSix(0, fs[0], fs[1], fs[2], fs[3], fs[4], fs[5]);
    datareg := 0;
    datareg := datareg + Shl(CodeOf(c.debugSelection, t.debugSelection), 0);
    datareg := datareg + Shl(BoolCode(c.isReadFromColumn0), 3);
    datareg := datareg + Shl(BoolCode(c.isDigitalOutputTest), 4);
    datareg := datareg + Shl(BoolCode(c.isResetLevelUndefined), 5);
    datareg := datareg + Shl(BoolCode(c.isMarkerEnable), 6);
    datareg := datareg + Shl(BoolCode(c.isResetLevelVdd), 7);
  }

  method AddOutput(t: Reg2Names, c: Reg2Config, reg: nat) returns (datareg: nat)
    ensures datareg == SumAll(reg, OutputFields(t, c))
  {
    ghost var fs := OutputFields(t, c);
    SumSix(reg, fs[0], fs[1], fs[2], fs[3], fs[4], fs[5]);
    datareg := reg + Shl(BoolCode(c.isBoostPower), 8);
    datareg := datareg + Shl(BoolCode(c.isOutputscCkSynchro), 9);
    datareg := datareg + Shl(BoolCode(c.isSynchroEdgeFalling), 10);
    datareg := datareg + Shl(BoolCode(c.isSCoutputBufferInTriState), 11);
    datareg := datareg + Shl(CodeOf(c.currentBias, t.currentBias), 12);
    datareg := datareg + Shl(CodeOf(c.bufferCurrent, t.bufferCurrent), 14);
  }

  method AddPower(c: Reg2Config, reg: nat) returns (datareg: nat)
    ensures datareg == SumAll(reg, PowerFields(c))
  {
    ghost var fs := PowerFields(c);
    SumSix(reg, fs[0], fs[1], fs[2], fs[3], fs[4], fs[5]);
    datareg := reg + Shl(BoolCode(c.isPWDonWrite), 16);
    datareg := datareg + Shl(BoolCode(c.isPWDonRead), 17);
    datareg := datareg + Shl(BoolCode(c.isAlternatePower), 18);
    datareg := datareg + Shl(BoolCode(c.is1bitShortResetReadSeq), 19);
    datareg := datareg + Shl(BoolCode(c.isTriggerOutputDisable), 20);
    datareg := datareg + Shl(BoolCode(c.isRisingedgeWriteAutoresetBank), 21);
  }

  /** The three fields written with the field helper. */
  method SetLevels(c: Reg2Config, reg: nat, ghost log: seq<Field>) returns (datareg: nat)
    requires reg == Pack(log)
    ensures datareg == Pack(log + LevelFields(c))
  {
    ghost var fs := LevelFields(c);
    PackThree(log, fs[0], fs[1], fs[2]);
    var useInputDynamicRange5pct := false;
    if c.inputDynamicRange5pct.Some? {
      useInputDynamicRange5pct := c.inputDynamicRange5pct.value;
    }
    datareg := SetField(reg, 24, 1, BoolCode(useInputDynamicRange5pct));
    var lvdsLevel, _ := LogTwo(Unsigned(OrElse(c.triggerLvdsThreshold, 1)));
    SetFieldLow(datareg, 25, 2, lvdsLevel);
    datareg := SetField(datareg, 25, 2, lvdsLevel);
    var unitMult, _ := LogTwo(Unsigned(OrElse(c.multiplicityLevel, 1)));
    SetFieldLow(datareg, 27, 2, unitMult);
    datareg := SetField(datareg, 27, 2, unitMult);
  }

  lemma DebugFit(t: Reg2Names, c: Reg2Config, f: Field)
    requires Reg2NamesFit(t) && f in DebugFields(t, c)
    ensures f.code < Pow2(f.width)
  {
  }

  lemma OutputFit(t: Reg2Names, c: Reg2Config, f: Field)
    requires Reg2NamesFit(t) && f in OutputFields(t, c)
    ensures f.code < Pow2(f.width)
  {
  }

  lemma PowerFit(c: Reg2Config, f: Field)
    requires f in PowerFields(c) || f == Field(22, 1, BoolCode(c.islvdsTriggerOutput))
    ensures f.code < Pow2(f.width)
  {
  }

  lemma AddedFieldsAscend(t: Reg2Names, c: Reg2Config)
    ensures Ascending(AddedFields(t, c)) && |AddedFields(t, c)| == 19 && AddedFields(t, c)[0].offset == 0
  {
  }

  /** The 19 additions leave the word that setting the 19 fields would. */
  lemma AdditionsPack(t: Reg2Names, c: Reg2Config)
    requires Reg2NamesFit(t)
    ensures SumAll(0, AddedFields(t, c)) == Pack(AddedFields(t, c))
  {
    var fs := AddedFields(t, c);
    AddedFieldsAscend(t, c);
    forall f | f in fs ensures f.code < Pow2(f.width) {
      if f in DebugFields(t, c) {
        DebugFit(t, c, f);
      } else if f in OutputFields(t, c) {
        OutputFit(t, c, f);
      } else {
        PowerFit(c, f);
      }
    }
    AdditionsSetFields(0, fs);
    PackAppend([], fs);
    assert [] + fs == fs;
  }

  lemma AddedInOrder(t: Reg2Names, c: Reg2Config)
    ensures SumAll(0, AddedFields(t, c))
         == SumAll(SumAll(SumAll(0, DebugFields(t, c)), OutputFields(t, c)), PowerFields(c))
            + Shl(BoolCode(c.islvdsTriggerOutput), 22)
  {
    AddedFour(DebugFields(t, c), OutputFields(t, c), PowerFields(c), Field(22, 1, BoolCode(c.islvdsTriggerOutput)));
  }

  lemma AddedFour(d: seq<Field>, o: seq<Field>, p: seq<Field>, f: Field)
    ensures SumAll(0, d + o + p + [f]) == SumAll(SumAll(SumAll(0, d), o), p) + Shl(f.code, f.offset)
  {
    SumAppend(0, d, o);
    SumAppend(0, d + o, p);
    SumAppend(0, d + o + p, [f]);
    SumFirst(SumAll(0, d + o + p), f, [], [f]);
  }

  method RetrieveReg2(active: bool, t: Reg2Names, c: Reg2Config) returns (datareg: nat)
    requires Reg2NamesFit(t)
    ensures datareg == if active then Reg2Word(t, c) else 0
  {
    datareg := 0;
    if active {
      AddedInOrder(t, c);
      AdditionsPack(t, c);
      datareg := AddDebug(t, c);
      datareg := AddOutput(t, c, datareg);
      datareg := AddPower(c, datareg);
      datareg := datareg + Shl(BoolCode(c.islvdsTriggerOutput), 22);
      datareg := SetLevels(c, datareg, AddedFields(t, c));
    }
  }

  // ---------- reading register 2 back ----------

  /** Every field of the packed word reads back. */
  lemma Reg2FieldsRead(t: Reg2Names, c: Reg2Config)
    ensures forall f :: f in DebugFields(t, c) || f in OutputFields(t, c) || f in PowerFields(c)
                        || f == Field(22, 1, BoolCode(c.islvdsTriggerOutput)) || f in LevelFields(c)
                        ==> Reads(Reg2Word(t, c), f)
  {
    var fs := Reg2Fields(t, c);
    Reg2Ascend(t, c);
    AscendingDisjoint(fs);
    forall f | f in fs ensures Reads(Pack(fs), f) {
      var i :| 0 <= i < |fs| && fs[i] == f;
      PackReadsBack(fs, i);
    }
  }

  /** Bit 23, which no option uses, and the bits above 28 stay clear. */
  lemma Reg2Clear(t: Reg2Names, c: Reg2Config)
    ensures !Bit(Reg2Word(t, c), 23) && Reg2Word(t, c) < Pow2(29)
  {
    var fs := Reg2Fields(t, c);
    Reg2Ascend(t, c);
    forall f | f in fs ensures f.offset + f.width <= 29 && !(f.offset <= 23 < f.offset + f.width) {
      var i :| 0 <= i < |fs| && fs[i] == f;
      if i < 18 { AscendingOrder(fs, i, 18); }
      if 19 < i { AscendingOrder(fs, 19, i); }
      if i < 21 { AscendingOrder(fs, i, 21); }
    }
    PackBound(fs, 29);
    PackClearElsewhere(fs, 23);
  }

  lemma Reg2Ascend(t: Reg2Names, c: Reg2Config)
    ensures var fs := Reg2Fields(t, c);
            |fs| == 22 && Ascending(fs) && fs[18].offset + fs[18].width == 23 && fs[19].offset == 24
            && fs[21].offset + fs[21].width == 29
  {
  }

  predicate Flag(w: nat, offset: nat) { GetField(w, offset, 1) == 1 }

  /** The configuration a word stands for. */
  function DecodeReg2(t: Reg2Names, w: nat): Reg2Config {
    Reg2Config(
      NameAt(t.debugSelection, GetField(w, 0, 3)), Flag(w, 3), Flag(w, 4), Flag(w, 5), Flag(w, 6), Flag(w, 7),
      Flag(w, 8),
      Flag(w, 9), Flag(w, 10), Flag(w, 11), NameAt(t.currentBias, GetField(w, 12, 2)),
      NameAt(t.bufferCurrent, GetField(w, 14, 2)), Flag(w, 16), Flag(w, 17), Flag(w, 18), Flag(w, 19), Flag(w, 20),
      Flag(w, 21), Flag(w, 22), Some(Flag(w, 24)), Some(Pow2(GetField(w, 25, 2))), Some(Pow2(GetField(w, 27, 2))))
  }

  /** What the chip is asked to do: unknown names fall back, and of a threshold only the
      power of two below it remains, its exponent taken modulo four. */
  function Effective(t: Reg2Names, c: Reg2Config): Reg2Config {
    c.(debugSelection := Known(c.debugSelection, t.debugSelection),
       currentBias := Known(c.currentBias, t.currentBias),
       bufferCurrent := Known(c.bufferCurrent, t.bufferCurrent),
       inputDynamicRange5pct := Some(OrElse(c.inputDynamicRange5pct, false)),
       triggerLvdsThreshold := Some(Level(OrElse(c.triggerLvdsThreshold, 1))),
       multiplicityLevel := Some(Level(OrElse(c.multiplicityLevel, 1))))
  }

  /** 0 comes out as two: the halving search has no exponent for it, and what it returns instead rests
      on shifts that C++ leaves undefined, taken to give 0. */
  function Level(v: int): nat {
    var n := Unsigned(v);
    if n == 0 then 2 else Pow2(Log2(n) % 4)
  }

  /** The configurations whose every option is present and one the register can express. */
  predicate LegalReg2(t: Reg2Names, c: Reg2Config) {
    && c.debugSelection in t.debugSelection.list && c.currentBias in t.currentBias.list
    && c.bufferCurrent in t.bufferCurrent.list && c.inputDynamicRange5pct.Some?
    && LegalLevel(c.triggerLvdsThreshold) && LegalLevel(c.multiplicityLevel)
  }

  predicate LegalLevel(v: Option<int>) { v.Some? && (v.value == 1 || v.value == 2 || v.value == 4 || v.value == 8) }

  lemma LevelReads(v: Option<int>)
    ensures LevelCode(v) < Pow2(2) && Pow2(LevelCode(v)) == Level(OrElse(v, 1))
  {
    var n := LogTwoOf(Unsigned(OrElse(v, 1)));
    LowBound(n, 2);
    LowTwo(n);
  }

  lemma LowTwo(n: nat)
    ensures Low(n, 2) == n % 4
  {
  }

  lemma PowersBelow16(e: nat)
    ensures e % 4 == 0 || e % 4 == 1 || e % 4 == 2 || e % 4 == 3
    ensures Pow2(0) == 1 && Pow2(1) == 2 && Pow2(2) == 4 && Pow2(3) == 8
    ensures Log2(1) == 0 && Log2(2) == 1 && Log2(4) == 2 && Log2(8) == 3
  {
  }

  /** A threshold survives exactly when it is 1, 2, 4 or 8. */
  lemma LevelExact(v: int)
    ensures Level(v) == v <==> LegalLevel(Some(v))
  {
    var n := Unsigned(v);
    var e := Log2(n) % 4;
    PowersBelow16(Log2(n));
    if LegalLevel(Some(v)) { assert n == v; }
    if n != 0 { assert Level(v) == Pow2(e); }
    assert Level(v) in {1, 2, 4, 8};
  }

  lemma FlagReads(w: nat, offset: nat, flag: bool)
    requires Reads(w, Field(offset, 1, BoolCode(flag)))
    ensures Flag(w, offset) == flag
  {
  }

  lemma NameReads(w: nat, offset: nat, width: nat, name: string, names: Names)
    requires NamesFit(names, Pow2(width)) && Reads(w, Field(offset, width, CodeOf(name, names)))
    ensures NameAt(names, GetField(w, offset, width)) == Known(name, names)
  {
    NameOfCode(name, names, Pow2(width));
    LowBound(CodeOf(name, names), width);
  }

  lemma DebugReads(t: Reg2Names, c: Reg2Config, w: nat)
    requires Reg2NamesFit(t) && forall f :: f in DebugFields(t, c) ==> Reads(w, f)
    ensures NameAt(t.debugSelection, GetField(w, 0, 3)) == Known(c.debugSelection, t.debugSelection)
    ensures Flag(w, 3) == c.isReadFromColumn0 && Flag(w, 4) == c.isDigitalOutputTest
            && Flag(w, 5) == c.isResetLevelUndefined
    ensures Flag(w, 6) == c.isMarkerEnable && Flag(w, 7) == c.isResetLevelVdd
  {
    var fs := DebugFields(t, c);
    FieldSizes();
    assert fs[0] in fs && fs[1] in fs && fs[2] in fs && fs[3] in fs && fs[4] in fs && fs[5] in fs;
    NameReads(w, 0, 3, c.debugSelection, t.debugSelection);
    FlagReads(w, 3, c.isReadFromColumn0);
    FlagReads(w, 4, c.isDigitalOutputTest);
    FlagReads(w, 5, c.isResetLevelUndefined);
    FlagReads(w, 6, c.isMarkerEnable);
    FlagReads(w, 7, c.isResetLevelVdd);
  }

  lemma OutputReads(t: Reg2Names, c: Reg2Config, w: nat)
    requires Reg2NamesFit(t) && forall f :: f in OutputFields(t, c) ==> Reads(w, f)
    ensures Flag(w, 8) == c.isBoostPower && Flag(w, 9) == c.isOutputscCkSynchro
    ensures Flag(w, 10) == c.isSynchroEdgeFalling && Flag(w, 11) == c.isSCoutputBufferInTriState
    ensures NameAt(t.currentBias, GetField(w, 12, 2)) == Known(c.currentBias, t.currentBias)
    ensures NameAt(t.bufferCurrent, GetField(w, 14, 2)) == Known(c.bufferCurrent, t.bufferCurrent)
  {
    var fs := OutputFields(t, c);
    FieldSizes();
    assert fs[0] in fs && fs[1] in fs && fs[2] in fs && fs[3] in fs && fs[4] in fs && fs[5] in fs;
    FlagReads(w, 8, c.isBoostPower);
    FlagReads(w, 9, c.isOutputscCkSynchro);
    FlagReads(w, 10, c.isSynchroEdgeFalling);
    FlagReads(w, 11, c.isSCoutputBufferInTriState);
    NameReads(w, 12, 2, c.currentBias, t.currentBias);
    NameReads(w, 14, 2, c.bufferCurrent, t.bufferCurrent);
  }

  lemma PowerReads(c: Reg2Config, w: nat)
    requires forall f :: f in PowerFields(c) ==> Reads(w, f)
    ensures Flag(w, 16) == c.isPWDonWrite && Flag(w, 17) == c.isPWDonRead && Flag(w, 18) == c.isAlternatePower
    ensures Flag(w, 19) == c.is1bitShortResetReadSeq && Flag(w, 20) == c.isTriggerOutputDisable
    ensures Flag(w, 21) == c.isRisingedgeWriteAutoresetBank
  {
    var fs := PowerFields(c);
    assert fs[0] in fs && fs[1] in fs && fs[2] in fs && fs[3] in fs && fs[4] in fs && fs[5] in fs;
    FlagReads(w, 16, c.isPWDonWrite);
    FlagReads(w, 17, c.isPWDonRead);
    FlagReads(w, 18, c.isAlternatePower);
    FlagReads(w, 19, c.is1bitShortResetReadSeq);
    FlagReads(w, 20, c.isTriggerOutputDisable);
    FlagReads(w, 21, c.isRisingedgeWriteAutoresetBank);
  }

  lemma LevelsRead(c: Reg2Config, w: nat)
    requires forall f :: f in LevelFields(c) ==> Reads(w, f)
    ensures Flag(w, 24) == OrElse(c.inputDynamicRange5pct, false)
    ensures Pow2(GetField(w, 25, 2)) == Level(OrElse(c.triggerLvdsThreshold, 1))
    ensures Pow2(GetField(w, 27, 2)) == Level(OrElse(c.multiplicityLevel, 1))
  {
    var fs := LevelFields(c);
    assert fs[0] in fs && fs[1] in fs && fs[2] in fs;
    FlagReads(w, 24, OrElse(c.inputDynamicRange5pct, false));
    LevelReads(c.triggerLvdsThreshold);
    LowBound(LevelCode(c.triggerLvdsThreshold), 2);
    LevelReads(c.multiplicityLevel);
    LowBound(LevelCode(c.multiplicityLevel), 2);
  }

  lemma LowHalfReads(t: Reg2Names, c: Reg2Config, w: nat)
    requires Reg2NamesFit(t) && w == Reg2Word(t, c)
    ensures NameAt(t.debugSelection, GetField(w, 0, 3)) == Known(c.debugSelection, t.debugSelection)
    ensures Flag(w, 3) == c.isReadFromColumn0 && Flag(w, 4) == c.isDigitalOutputTest
            && Flag(w, 5) == c.isResetLevelUndefined
    ensures Flag(w, 6) == c.isMarkerEnable && Flag(w, 7) == c.isResetLevelVdd
    ensures Flag(w, 8) == c.isBoostPower && Flag(w, 9) == c.isOutputscCkSynchro
    ensures Flag(w, 10) == c.isSynchroEdgeFalling && Flag(w, 11) == c.isSCoutputBufferInTriState
    ensures NameAt(t.currentBias, GetField(w, 12, 2)) == Known(c.currentBias, t.currentBias)
    ensures NameAt(t.bufferCurrent, GetField(w, 14, 2)) == Known(c.bufferCurrent, t.bufferCurrent)
  {
    Reg2FieldsRead(t, c);
    DebugReads(t, c, w);
    OutputReads(t, c, w);
  }

  lemma HighHalfReads(t: Reg2Names, c: Reg2Config, w: nat)
    requires w == Reg2Word(t, c)
    ensures Flag(w, 16) == c.isPWDonWrite && Flag(w, 17) == c.isPWDonRead && Flag(w, 18) == c.isAlternatePower
    ensures Flag(w, 19) == c.is1bitShortResetReadSeq && Flag(w, 20) == c.isTriggerOutputDisable
    ensures Flag(w, 21) == c.isRisingedgeWriteAutoresetBank && Flag(w, 22) == c.islvdsTriggerOutput
    ensures Flag(w, 24) == OrElse(c.inputDynamicRange5pct, false)
    ensures Pow2(GetField(w, 25, 2)) == Level(OrElse(c.triggerLvdsThreshold, 1))
    ensures Pow2(GetField(w, 27, 2)) == Level(OrElse(c.multiplicityLevel, 1))
  {
    Reg2FieldsRead(t, c);
    PowerReads(c, w);
    FlagReads(w, 22, c.islvdsTriggerOutput);
    LevelsRead(c, w);
  }

  /** Where the options given by name lie. */
  lemma NamedFields(t: Reg2Names, c: Reg2Config)
    requires Reg2NamesFit(t)
    ensures var w := Reg2Word(t, c);
            && GetField(w, 0, 3) == CodeOf(c.debugSelection, t.debugSelection)
            && GetField(w, 12, 2) == CodeOf(c.currentBias, t.currentBias)
            && GetField(w, 14, 2) == CodeOf(c.bufferCurrent, t.bufferCurrent)
  {
    var w, d, o := Reg2Word(t, c), DebugFields(t, c), OutputFields(t, c);
    Reg2FieldsRead(t, c);
    FieldSizes();
    assert d[0] in d && o[4] in o && o[5] in o;
    Exact(w, d[0], 8);
    Exact(w, o[4], 4);
    Exact(w, o[5], 4);
  }

  lemma Reg2Decodes(t: Reg2Names, c: Reg2Config, w: nat)
    requires Reg2NamesFit(t) && w == Reg2Word(t, c)
    ensures DecodeReg2(t, w) == Effective(t, c)
  {
    LowHalfReads(t, c, w);
    HighHalfReads(t, c, w);
  }

  lemma LegalIsEffective(t: Reg2Names, c: Reg2Config)
    requires Reg2NamesFit(t)
    ensures Effective(t, c) == c <==> LegalReg2(t, c)
  {
    NameOfCode(c.debugSelection, t.debugSelection, 8);
    NameOfCode(c.currentBias, t.currentBias, 4);
    NameOfCode(c.bufferCurrent, t.bufferCurrent, 4);
    LevelExact(OrElse(c.triggerLvdsThreshold, 1));
    LevelExact(OrElse(c.multiplicityLevel, 1));
  }

  /** The word says exactly what the chip is asked to do, for every configuration, and the
      configuration itself survives exactly when all its options are legal. */
  lemma Reg2RoundTrip(t: Reg2Names, c: Reg2Config)
    requires Reg2NamesFit(t)
    ensures DecodeReg2(t, Reg2Word(t, c)) == Effective(t, c)
    ensures DecodeReg2(t, Reg2Word(t, c)) == c <==> LegalReg2(t, c)
  {
    Reg2Decodes(t, c, Reg2Word(t, c));
    LegalIsEffective(t, c);
  }

  /** The codes of the debug selections; "none", like any unknown name, is 7. */
  lemma DebugCodes()
    ensures var n := REG2_NAMES.debugSelection;
            CodeOf("standby", n) == 0 && CodeOf("CSA", n) == 1 && CodeOf("CR", n) == 2 && CodeOf("Gain-2", n) == 3
    ensures var n := REG2_NAMES.debugSelection;
            && CodeOf("PositiveInputDiscri", n) == 4 && CodeOf("NegativeInputDiscri", n) == 5
            && CodeOf("trigger", n) == 6 && CodeOf("none", n) == 7
  {
    DebugCode(0); DebugCode(1); DebugCode(2); DebugCode(3);
    DebugCode(4); DebugCode(5); DebugCode(6); DebugCode(7);
  }

  /** The debug selections differ in this number: their length, and their first letter where that is
      shared. */
  function DebugKey(s: string): int {
    if |s| == 7 || |s| == 19 then 100 * |s| + s[0] as int else |s|
  }

  const DEBUG_KEYS := [815, 3, 2, 6, 1980, 1978, 816, 4]

  lemma DebugKeys()
    ensures forall k :: 0 <= k < 8 ==> DebugKey(REG2_NAMES.debugSelection.list[k]) == DEBUG_KEYS[k]
  {
    var l := REG2_NAMES.debugSelection.list;
    assert DebugKey(l[0]) == 815 && DebugKey(l[1]) == 3 && DebugKey(l[2]) == 2 && DebugKey(l[3]) == 6;
    assert DebugKey(l[4]) == 1980 && DebugKey(l[5]) == 1978 && DebugKey(l[6]) == 816 && DebugKey(l[7]) == 4;
  }

  lemma DebugCode(k: nat)
    requires k < 8
    ensures CodeOf(REG2_NAMES.debugSelection.list[k], REG2_NAMES.debugSelection) == k
  {
    var list := REG2_NAMES.debugSelection.list;
    var code := CodeOf(list[k], REG2_NAMES.debugSelection);
    assert list[k] in list;
    DebugKeys();
    assert DEBUG_KEYS[code] == DEBUG_KEYS[k];
  }

  lemma CurrentCodes()
    ensures var n := REG2_NAMES.currentBias;
            && CodeOf("current0", n) == 0 && CodeOf("current1", n) == 1 && CodeOf("current2", n) == 2
            && CodeOf("current3", n) == 3
    ensures var n := REG2_NAMES.bufferCurrent;
            && CodeOf("1.503mA", n) == 0 && CodeOf("1.914mA", n) == 1 && CodeOf("2.7mA", n) == 2
            && CodeOf("4.870mA", n) == 3
  {
    assert "current0"[7] == '0' && "current1"[7] == '1' && "current2"[7] == '2' && "current3"[7] == '3';
    assert "1.503mA"[2] == '5' && "1.914mA"[2] == '9' && "4.870mA"[2] == '8';
  }

  lemma Reg2NamesAreFit()
    ensures Reg2NamesFit(REG2_NAMES)
  {
  }
}
