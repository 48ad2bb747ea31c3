/** Decoding of compressed and uncompressed data frames into per-channel traces, and the
    hit list made from them (analyzing/AnalyzeFrame.cpp). */
module AnalyzeFrame {
  import opened Euclid
  import opened Pulse

  const COMPRESSED_FRAME := 1
  const UNCOMPRESSED_FRAME := 2
  const AGETS_PER_ASAD := 4
  const CHANNELS := 272
  const BUCKETS := 512

  /** One item of a frame: its size in bytes and its value. */
  datatype Item = Item(size: nat, bits: nat)

  datatype Frame = Frame(ftype: nat, cobo: nat, asad: nat, items: seq<Item>)

  // ---------- the bit fields of the two formats ----------

  /** Bits 30-31, 23-29, 14-22 and 0-11 of a compressed item. */
  function Aget(w: nat): nat { w / 0x4000_0000 % 4 }
  function Chan(w: nat): nat { w / 0x80_0000 % 128 }
  function BucketOf(w: nat): nat { w / 0x4000 % 512 }
  function AdcValue(w: nat): nat { w % 4096 }

  function AbsChan(w: nat): nat {
    Aget(w) * CHANNELS_PER_AGET + Chan(w)
  }

  /** Bits 14-15 and 0-11 of an uncompressed item. */
  function Aget16(w: nat): nat { w / 0x4000 % 4 }
  function Value16(w: nat): nat { w % 4096 }

  /** The compressed word with the given fields. */
  function Word(aget: nat, chan: nat, bucket: nat, value: nat): nat {
    aget * 0x4000_0000 + chan * 0x80_0000 + bucket * 0x4000 + value
  }

  lemma DivMod(hi: nat, lo: nat, d: nat)
    requires lo < d
    ensures (hi * d + lo) / d == hi && (hi * d + lo) % d == lo
  {
    Remainder(hi * d + lo, hi, lo, d);
  }

  /** Where a compressed word carries its four fields; bits 12 and 13 are not used. */
  lemma WordFields(w: nat, aget: nat, chan: nat, bucket: nat, spare: nat, value: nat)
    requires aget < 4 && chan < 128 && bucket < 512 && spare < 4 && value < 4096
    requires w == aget * 0x4000_0000 + chan * 0x80_0000 + bucket * 0x4000 + spare * 0x1000 + value
    ensures w < 0x1_0000_0000
    ensures Aget(w) == aget && Chan(w) == chan && BucketOf(w) == bucket && AdcValue(w) == value
  {
    var low := spare * 0x1000 + value;
    DivMod(aget, chan * 0x80_0000 + bucket * 0x4000 + low, 0x4000_0000);
    DivMod(aget * 128 + chan, bucket * 0x4000 + low, 0x80_0000);
    DivMod((aget * 128 + chan) * 512 + bucket, low, 0x4000);
    DivMod(aget, chan, 128);
    DivMod(aget * 128 + chan, bucket, 512);
    DivMod(((aget * 128 + chan) * 512 + bucket) * 4 + spare, value, 4096);
  }

  /** Where an uncompressed word carries its two fields. */
  lemma ShortFields(w: nat, aget: nat, spare: nat, value: nat)
    requires aget < 4 && spare < 4 && value < 4096
    requires w == aget * 0x4000 + spare * 0x1000 + value
    ensures w < 0x1_0000 && Aget16(w) == aget && Value16(w) == value
  {
    DivMod(aget, spare * 0x1000 + value, 0x4000);
    DivMod(aget * 4 + spare, value, 4096);
  }

  /** The channel label of a hit is the one its words carry exactly when the 7-bit channel field
      names one of the 68 channels. */
  lemma LabelMatchesWord(w: nat)
    ensures AbsChan(w) / CHANNELS_PER_AGET == Aget(w) && AbsChan(w) % CHANNELS_PER_AGET == Chan(w)
            <==> Chan(w) < CHANNELS_PER_AGET
  {
  }

  // ---------- specification: the traces of a frame ----------

  /** What a compressed stream stores in channel ch, in stream order. */
  function CompressedTrace(items: seq<Item>, ch: nat): Trace {
    if items == [] then []
    else
      var rest, w := CompressedTrace(items[..|items| - 1], ch), items[|items| - 1].bits;
      if AbsChan(w) == ch then rest + [Sample(BucketOf(w), AdcValue(w))] else rest
  }

  /** The values of AGET g in an uncompressed stream, in stream order. */
  function AgetValues(items: seq<Item>, g: nat): seq<nat> {
    if items == [] then []
    else
      var rest, w := AgetValues(items[..|items| - 1], g), items[|items| - 1].bits;
      if Aget16(w) == g then rest + [Value16(w)] else rest
  }

  /** How many of n values dealt round the 68 channels land in channel c. */
  function Share(n: nat, c: nat): nat
    requires c < CHANNELS_PER_AGET
  {
    (n + (CHANNELS_PER_AGET - 1 - c)) / CHANNELS_PER_AGET
  }

  lemma ShareIndex(n: nat, c: nat, j: nat)
    requires c < CHANNELS_PER_AGET
    ensures j < Share(n, c) <==> CHANNELS_PER_AGET * j + c < n
  {
  }

  /** Channel c of one AGET's values: value k goes to channel k % 68, bin k / 68. */
  function Deal(vals: seq<nat>, c: nat): (t: Trace)
    requires c < CHANNELS_PER_AGET
    ensures |t| == Share(|vals|, c)
    ensures forall j: nat :: j < |t| ==>
              CHANNELS_PER_AGET * j + c < |vals| && t[j] == Sample(j, vals[CHANNELS_PER_AGET * j + c])
  {
    seq(Share(|vals|, c), j requires 0 <= j < Share(|vals|, c) =>
      ShareIndex(|vals|, c, j);
      Sample(j, vals[CHANNELS_PER_AGET * j + c]))
  }

  function UncompressedTrace(items: seq<Item>, ch: nat): Trace {
    Deal(AgetValues(items, ch / CHANNELS_PER_AGET), ch % CHANNELS_PER_AGET)
  }

  function CompressedTraces(items: seq<Item>): seq<Trace> {
    seq(CHANNELS, ch requires 0 <= ch < CHANNELS => CompressedTrace(items, ch))
  }

  function UncompressedTraces(items: seq<Item>): seq<Trace> {
    seq(CHANNELS, ch requires 0 <= ch < CHANNELS => UncompressedTrace(items, ch))
  }

  /** One hit for each non-empty trace among the first n channels. */
  function HitList(cobo: nat, asad: nat, traces: seq<Trace>, n: nat): seq<Hit>
    requires n <= |traces|
  {
    if n == 0 then []
    else
      var rest := HitList(cobo, asad, traces, n - 1);
      if traces[n - 1] != [] then rest + [HitOf(cobo, asad, n - 1, traces[n - 1])] else rest
  }

  predicate AllWords(items: seq<Item>) {
    forall i :: 0 <= i < |items| ==> items[i].size == 4
  }

  /** Every item the compressed decoder reads addresses one of the 272 vectors. */
  predicate InRange(items: seq<Item>) {
    forall i :: 0 <= i < |items| && AllWords(items[..i + 1]) ==> AbsChan(items[i].bits) < CHANNELS
  }

  /** The traces of a frame; a frame of any other type has none. */
  function TracesOf(f: Frame): (traces: seq<Trace>)
    ensures |traces| == CHANNELS
  {
    if f.ftype == COMPRESSED_FRAME then CompressedTraces(f.items)
    else if f.ftype == UNCOMPRESSED_FRAME then UncompressedTraces(f.items)
    else seq(CHANNELS, _ => [])
  }

  /** The hits of a frame, unless the decoder throws. */
  datatype Outcome = Hits(hits: seq<Hit>) | Thrown

  function HitsOf(f: Frame): Outcome {
    if f.ftype == COMPRESSED_FRAME then
      if AllWords(f.items) then Hits(HitList(f.cobo, f.asad, CompressedTraces(f.items), CHANNELS)) else Thrown
    else if f.ftype == UNCOMPRESSED_FRAME then
      Hits(HitList(f.cobo, f.asad, UncompressedTraces(f.items), CHANNELS))
    else Hits([])
  }

  // ---------- the decoders ----------

  class CreateHits {
    var results: seq<Hit>

    constructor ()
      ensures results == []
    {
      results := [];
    }

    /** Replaces the results by the hits of the frame; false when the frame is not right and the
        decoder throws. */
    method ProcessFrame(f: Frame) returns (ok: bool)
      requires f.ftype == COMPRESSED_FRAME ==> InRange(f.items)
      modifies this
      ensures HitsOf(f) == if ok then Hits(results) else Thrown
      ensures !ok ==> results == []
    {
      results := [];
      ok := true;
      if f.ftype == COMPRESSED_FRAME {
        ok := ProcessCompressedFrame(f.items, f.cobo, f.asad);
      } else if f.ftype == UNCOMPRESSED_FRAME {
        ProcessUncompressedFrame(f.items, f.cobo, f.asad);
      }
    }

    method ProcessCompressedFrame(items: seq<Item>, cobo: nat, asad: nat) returns (ok: bool)
      requires InRange(items)
      modifies this
      ensures ok == AllWords(items)
      ensures results == old(results) + if ok then HitList(cobo, asad, CompressedTraces(items), CHANNELS) else []
    {
      var allSamples := new Trace[CHANNELS](_ => []);
      var i := 0;
      while i < |items|
        invariant 0 <= i <= |items|
        invariant AllWords(items[..i])
        invariant results == old(results)
        invariant forall ch :: 0 <= ch < CHANNELS ==> allSamples[ch] == CompressedTrace(items[..i], ch)
      {
        if items[i].size != 4 {
          return false;
        }
        assert AllWords(items[..i + 1]);
        assert items[..i + 1][..i] == items[..i];
        var w := items[i].bits;
        var absChan := Aget(w) * CHANNELS_PER_AGET + Chan(w);
        allSamples[absChan] := allSamples[absChan] + [Sample(BucketOf(w), AdcValue(w))];
        i := i + 1;
      }
      assert items[..i] == items;
      AddHits(cobo, asad, allSamples, CompressedTraces(items));
      return true;
    }

    method ProcessUncompressedFrame(items: seq<Item>, cobo: nat, asad: nat)
      modifies this
      ensures results == old(results) + HitList(cobo, asad, UncompressedTraces(items), CHANNELS)
    {
      var allSamples := new Trace[CHANNELS](_ => []);
      var agetChan := new nat[AGETS_PER_ASAD](_ => 0);
      var itemIndex, samples := 0, |items|;
      while samples > 0
        invariant 0 <= itemIndex <= |items| && itemIndex + samples == |items|
        invariant results == old(results)
        invariant forall g :: 0 <= g < AGETS_PER_ASAD ==>
                    agetChan[g] == |AgetValues(items[..itemIndex], g)| % CHANNELS_PER_AGET
        invariant forall ch :: 0 <= ch < CHANNELS ==> allSamples[ch] == UncompressedTrace(items[..itemIndex], ch)
      {
        var w := items[itemIndex].bits;
        var aget, value := Aget16(w), Value16(w);
        var chan := agetChan[aget];
        agetChan[aget] := (agetChan[aget] + 1) % CHANNELS_PER_AGET;
        var asadchan := aget * CHANNELS_PER_AGET + chan;
        var bin := |allSamples[asadchan]|;
        StepTraces(items, itemIndex, asadchan);
        NextTurn(|AgetValues(items[..itemIndex], aget)|);
        allSamples[asadchan] := allSamples[asadchan] + [Sample(bin, value)];
        itemIndex, samples := itemIndex + 1, samples - 1;
      }
      assert items[..itemIndex] == items;
      AddHits(cobo, asad, allSamples, UncompressedTraces(items));
    }

    /** The loop over the 272 vectors that ends both decoders. */
    method AddHits(cobo: nat, asad: nat, allSamples: array<Trace>, ghost traces: seq<Trace>)
      requires allSamples.Length == CHANNELS && allSamples[..] == traces
      modifies this
      ensures results == old(results) + HitList(cobo, asad, traces, CHANNELS)
    {
      var i := 0;
      while i < CHANNELS
        invariant 0 <= i <= CHANNELS
        invariant results == old(results) + HitList(cobo, asad, traces, i)
      {
        if allSamples[i] != [] {
          AddHitFromCompressedData(cobo, asad, i, allSamples[i]);
        }
        i := i + 1;
      }
    }

    method AddHitFromCompressedData(cobo: nat, asad: nat, asadchan: nat, chsamples: Trace)
      requires |chsamples| > 0
      modifies this
      ensures results == old(results) + [HitOf(cobo, asad, asadchan, chsamples)]
    {
      var aget, chan := asadchan / CHANNELS_PER_AGET, asadchan % CHANNELS_PER_AGET;
      var nSamples := |chsamples|;
      var offset := 0.0;
      if nSamples == 1 {
        offset := chsamples[0].value as real;
      } else if nSamples == 2 {
        var left, right := chsamples[0].value as real, chsamples[1].value as real;
        offset := Min(left, right);
      } else {
        var left, right := chsamples[1].value as real, chsamples[nSamples - 2].value as real;
        offset := Min(left, right);
      }
      var sum, wsum := 0.0, 0.0;
      var maxval, maxpos := 0.0, 0;
      var i := 1;
      while i < nSamples - 1
        invariant 1 <= i && (i <= nSamples - 1 || i == 1)
        invariant results == old(results)
        invariant sum == Sum(chsamples, offset, i) && wsum == Moment(chsamples, offset, i)
        invariant maxval == PeakHeight(chsamples, offset, i) && maxpos == PeakIndex(chsamples, offset, i)
      {
        var bin := chsamples[i].bucket as real;
        var ht := chsamples[i].value as real - offset;
        sum := sum + ht;
        wsum := wsum + bin * ht;
        WeightIs(chsamples, offset, i, bin, ht);
        if ht > maxval {
          maxval := ht;
          maxpos := i;
        }
        i := i + 1;
      }
      var centroid := Divide(wsum, sum);
      var peak := InterpolatePeak(chsamples, maxpos, offset);
      results := results + [Hit(cobo, asad, aget, chan, centroid, peak, sum)];
    }
  }

  // ---------- the uncompressed deal ----------

  /** One more value extends exactly the channel whose turn it is. */
  lemma DealSnoc(vals: seq<nat>, v: nat, c: nat)
    requires c < CHANNELS_PER_AGET
    ensures Deal(vals + [v], c)
         == if c == |vals| % CHANNELS_PER_AGET then Deal(vals, c) + [Sample(|Deal(vals, c)|, v)] else Deal(vals, c)
  {
    ShareNext(|vals|, c);
    var before, after := Deal(vals, c), Deal(vals + [v], c);
    assert forall j: nat :: j < |before| ==> after[j] == before[j];
    if c == |vals| % CHANNELS_PER_AGET { assert after[|before|] == Sample(|before|, v); }
  }

  /** Whose share grows, and at which value. */
  lemma ShareNext(n: nat, c: nat)
    requires c < CHANNELS_PER_AGET
    ensures Share(n + 1, c) == Share(n, c) + if c == n % CHANNELS_PER_AGET then 1 else 0
    ensures c == n % CHANNELS_PER_AGET ==> CHANNELS_PER_AGET * Share(n, c) + c == n
  {
  }

  lemma NextTurn(n: nat)
    ensures (n % CHANNELS_PER_AGET + 1) % CHANNELS_PER_AGET == (n + 1) % CHANNELS_PER_AGET
  {
  }

  lemma StepTraces(items: seq<Item>, i: nat, asadchan: nat)
    requires i < |items|
    requires var g := Aget16(items[i].bits);
             asadchan == g * CHANNELS_PER_AGET + |AgetValues(items[..i], g)| % CHANNELS_PER_AGET
    ensures forall g :: 0 <= g < AGETS_PER_ASAD ==>
              |AgetValues(items[..i + 1], g)|
                == |AgetValues(items[..i], g)| + if g == Aget16(items[i].bits) then 1 else 0
    ensures forall ch :: 0 <= ch < CHANNELS ==>
              var t := UncompressedTrace(items[..i], ch);
              UncompressedTrace(items[..i + 1], ch)
                == if ch == asadchan then t + [Sample(|t|, Value16(items[i].bits))] else t
  {
    assert items[..i + 1][..i] == items[..i];
    forall ch | 0 <= ch < CHANNELS
      ensures var t := UncompressedTrace(items[..i], ch);
              UncompressedTrace(items[..i + 1], ch)
                == if ch == asadchan then t + [Sample(|t|, Value16(items[i].bits))] else t
    {
      var g, c := ch / CHANNELS_PER_AGET, ch % CHANNELS_PER_AGET;
      DealSnoc(AgetValues(items[..i], g), Value16(items[i].bits), c);
    }
  }

  // ---------- what the uncompressed decoder recovers ----------

  /** Buckets of every trace count up from 0, samples are 12-bit, and the channels of one AGET
      differ by at most one sample. */
  lemma UncompressedShape(items: seq<Item>, ch: nat, ch': nat)
    requires ch < CHANNELS && ch' < CHANNELS && ch / CHANNELS_PER_AGET == ch' / CHANNELS_PER_AGET
    ensures var t := UncompressedTrace(items, ch);
            forall j :: 0 <= j < |t| ==> t[j].bucket == j && t[j].value < 4096
    ensures UnitSpaced(UncompressedTrace(items, ch))
    ensures |UncompressedTrace(items, ch)| <= |UncompressedTrace(items, ch')| + 1
  {
    ValuesAre12Bit(items, ch / CHANNELS_PER_AGET);
  }

  lemma {:induction false} ValuesAre12Bit(items: seq<Item>, g: nat)
    ensures forall k :: 0 <= k < |AgetValues(items, g)| ==> AgetValues(items, g)[k] < 4096
  {
    if items != [] { ValuesAre12Bit(items[..|items| - 1], g); }
  }

  /** If some interior sample of a trace of an uncompressed frame is above the baseline, the peak
      is at least the highest of them and less than 512 counts above it.  In any trace of three
      samples or more it is that close to some interior sample exactly then or when the first
      sample is no spike. */
  lemma UncompressedPeaks(items: seq<Item>, ch: nat)
    requires ch < CHANNELS && UncompressedTrace(items, ch) != []
    ensures var t := UncompressedTrace(items, ch);
            var m := PeakIndex(t, Offset(t), |t| - 1);
            SomePositive(t, Offset(t)) ==>
              && 1 <= m < |t| - 1
              && (forall i: nat :: Interior(t, i) ==> Height(t, Offset(t), i) <= Height(t, Offset(t), m))
              && Height(t, Offset(t), m) <= Peak(t, Offset(t)) < Height(t, Offset(t), m) + 512.0
    ensures var t := UncompressedTrace(items, ch);
            |t| >= 3 ==>
              ((exists i: nat :: Interior(t, i) && Peak(t, Offset(t)) < Height(t, Offset(t), i) + 512.0)
               <==> SomePositive(t, Offset(t)) || t[0].value < t[1].value + 512)
  {
    var t := UncompressedTrace(items, ch);
    UncompressedShape(items, ch, ch);
    if SomePositive(t, Offset(t)) { OvershootBounded(t, Offset(t)); }
    if |t| >= 3 { OvershootExactly(t); }
  }

  function TotalLength(traces: seq<Trace>): nat {
    if traces == [] then 0 else TotalLength(traces[..|traces| - 1]) + |traces[|traces| - 1]|
  }

  lemma {:induction false} TotalLengthUpdate(traces: seq<Trace>, ch: nat, t: Trace)
    requires ch < |traces|
    ensures TotalLength(traces[ch := t]) == TotalLength(traces) - |traces[ch]| + |t|
  {
    var n := |traces| - 1;
    if ch == n {
      assert traces[ch := t][..n] == traces[..n];
    } else {
      assert traces[ch := t][..n] == traces[..n][ch := t];
      TotalLengthUpdate(traces[..n], ch, t);
    }
  }

  lemma {:induction false} TotalLengthEmpty(traces: seq<Trace>)
    requires forall i :: 0 <= i < |traces| ==> traces[i] == []
    ensures TotalLength(traces) == 0
  {
    if traces != [] { TotalLengthEmpty(traces[..|traces| - 1]); }
  }

  /** No item is lost or duplicated by the uncompressed decoder. */
  lemma {:induction false} UncompressedConserves(items: seq<Item>)
    ensures TotalLength(UncompressedTraces(items)) == |items|
  {
    if items == [] {
      TotalLengthEmpty(UncompressedTraces(items));
    } else {
      var i := |items| - 1;
      var before, w := items[..i], items[i].bits;
      UncompressedConserves(before);
      var g := Aget16(w);
      var ch := g * CHANNELS_PER_AGET + |AgetValues(before, g)| % CHANNELS_PER_AGET;
      StepTraces(items, i, ch);
      assert items[..i + 1] == items;
      var t := UncompressedTrace(before, ch);
      assert UncompressedTraces(items) == UncompressedTraces(before)[ch := t + [Sample(|t|, Value16(w))]];
      TotalLengthUpdate(UncompressedTraces(before), ch, t + [Sample(|t|, Value16(w))]);
    }
  }

  /** Nor by the compressed one, as long as its items stay in range. */
  lemma {:induction false} CompressedConserves(items: seq<Item>)
    requires forall i :: 0 <= i < |items| ==> AbsChan(items[i].bits) < CHANNELS
    ensures TotalLength(CompressedTraces(items)) == |items|
  {
    if items == [] {
      TotalLengthEmpty(CompressedTraces(items));
    } else {
      var i := |items| - 1;
      var before, w := items[..i], items[i].bits;
      CompressedConserves(before);
      var ch := AbsChan(w);
      var t := CompressedTrace(before, ch) + [Sample(BucketOf(w), AdcValue(w))];
      assert CompressedTraces(items) == CompressedTraces(before)[ch := t];
      TotalLengthUpdate(CompressedTraces(before), ch, t);
    }
  }

  /** The hits depend on each AGET's own values only, not on how the AGETs interleave. */
  lemma InterleavingIrrelevant(cobo: nat, asad: nat, items: seq<Item>, items': seq<Item>)
    requires forall g :: 0 <= g < AGETS_PER_ASAD ==> AgetValues(items, g) == AgetValues(items', g)
    ensures HitsOf(Frame(UNCOMPRESSED_FRAME, cobo, asad, items))
         == HitsOf(Frame(UNCOMPRESSED_FRAME, cobo, asad, items'))
  {
    assert UncompressedTraces(items) == UncompressedTraces(items');
  }

  // ---------- every item reaches its place ----------

  /** What an uncompressed item carries. */
  datatype Conversion = Conversion(aget: nat, spare: nat, value: nat)

  ghost predicate Carries(items: seq<Item>, fields: seq<Conversion>) {
    && |items| == |fields|
    && forall i :: 0 <= i < |fields| ==>
         && fields[i].aget < 4 && fields[i].spare < 4 && fields[i].value < 4096
         && items[i].bits == fields[i].aget * 0x4000 + fields[i].spare * 0x1000 + fields[i].value
  }

  /** How many of the conversions are of AGET g. */
  function CountOf(fields: seq<Conversion>, g: nat): nat {
    if fields == [] then 0
    else CountOf(fields[..|fields| - 1], g) + if fields[|fields| - 1].aget == g then 1 else 0
  }

  lemma {:induction false} ValuesCounted(items: seq<Item>, fields: seq<Conversion>, g: nat)
    requires Carries(items, fields)
    ensures |AgetValues(items, g)| == CountOf(fields, g)
  {
    if items != [] {
      var n := |items| - 1;
      ValuesCounted(items[..n], fields[..n], g);
      ShortFields(items[n].bits, fields[n].aget, fields[n].spare, fields[n].value);
    }
  }

  lemma {:induction false} ValuesPrefix(items: seq<Item>, n: nat, g: nat)
    requires n <= |items|
    ensures AgetValues(items[..n], g) <= AgetValues(items, g)
    decreases |items|
  {
    var m := |items| - 1;
    if n <= m {
      ValuesPrefix(items[..m], n, g);
      assert items[..m][..n] == items[..n];
    } else {
      assert items[..n] == items;
    }
  }

  /** The k-th conversion of an AGET is value k of that AGET. */
  lemma ValueOf(items: seq<Item>, fields: seq<Conversion>, i: nat)
    requires Carries(items, fields) && i < |items|
    ensures var vals, k := AgetValues(items, fields[i].aget), CountOf(fields[..i], fields[i].aget);
            k < |vals| && vals[k] == fields[i].value
  {
    var g := fields[i].aget;
    ValuesCounted(items[..i], fields[..i], g);
    ShortFields(items[i].bits, g, fields[i].spare, fields[i].value);
    assert items[..i + 1][..i] == items[..i];
    ValuesPrefix(items, i + 1, g);
  }

  /** The k-th conversion of AGET g is found in channel k % 68 of that AGET, at bucket k / 68. */
  lemma UncompressedItem(cobo: nat, asad: nat, items: seq<Item>, fields: seq<Conversion>, i: nat)
    requires Carries(items, fields) && i < |items|
    ensures var g := fields[i].aget;
            var k := CountOf(fields[..i], g);
            var t := TracesOf(Frame(2, cobo, asad, items))[68 * g + k % 68];
            k / 68 < |t| && t[k / 68] == Sample(k / 68, fields[i].value)
  {
    var k := CountOf(fields[..i], fields[i].aget);
    ValueOf(items, fields, i);
    DealtValue(AgetValues(items, fields[i].aget), k);
    TraceOfChannel(cobo, asad, items, fields[i].aget, k % 68);
  }

  lemma DealtValue(vals: seq<nat>, k: nat)
    requires k < |vals|
    ensures k / 68 < |Deal(vals, k % 68)| && Deal(vals, k % 68)[k / 68] == Sample(k / 68, vals[k])
  {
    ShareIndex(|vals|, k % 68, k / 68);
  }

  lemma TraceOfChannel(cobo: nat, asad: nat, items: seq<Item>, g: nat, c: nat)
    requires g < 4 && c < 68
    ensures TracesOf(Frame(2, cobo, asad, items))[68 * g + c] == Deal(AgetValues(items, g), c)
  {
    var ch := ChannelNumber(g, c);
    assert UncompressedTraces(items)[ch] == UncompressedTrace(items, ch);
  }

  lemma ChannelNumber(g: nat, c: nat) returns (ch: nat)
    requires g < 4 && c < 68
    ensures ch == 68 * g + c && ch < 272 && ch / 68 == g && ch % 68 == c
  {
    ch := 68 * g + c;
    DivMod(g, c, 68);
  }

  /** What a compressed item carries. */
  datatype Reading = Reading(aget: nat, chan: nat, bucket: nat, spare: nat, value: nat)

  ghost predicate CarriesWords(items: seq<Item>, fields: seq<Reading>) {
    && |items| == |fields|
    && forall i :: 0 <= i < |fields| ==>
         && fields[i].aget < 4 && fields[i].chan < 128 && fields[i].bucket < 512
         && fields[i].spare < 4 && fields[i].value < 4096
         && items[i].bits == fields[i].aget * 0x4000_0000 + fields[i].chan * 0x80_0000 + fields[i].bucket * 0x4000
                             + fields[i].spare * 0x1000 + fields[i].value
  }

  /** How many of the readings are for vector ch. */
  function ReadingsOf(fields: seq<Reading>, ch: nat): nat {
    if fields == [] then 0
    else
      var last := fields[|fields| - 1];
      ReadingsOf(fields[..|fields| - 1], ch) + if 68 * last.aget + last.chan == ch then 1 else 0
  }

  lemma {:induction false} TraceCounted(items: seq<Item>, fields: seq<Reading>, ch: nat)
    requires CarriesWords(items, fields)
    ensures |CompressedTrace(items, ch)| == ReadingsOf(fields, ch)
  {
    if items != [] {
      var n := |items| - 1;
      var f := fields[n];
      TraceCounted(items[..n], fields[..n], ch);
      WordFields(items[n].bits, f.aget, f.chan, f.bucket, f.spare, f.value);
    }
  }

  lemma {:induction false} TracePrefix(items: seq<Item>, n: nat, ch: nat)
    requires n <= |items|
    ensures CompressedTrace(items[..n], ch) <= CompressedTrace(items, ch)
    decreases |items|
  {
    var m := |items| - 1;
    if n <= m {
      TracePrefix(items[..m], n, ch);
      assert items[..m][..n] == items[..n];
    } else {
      assert items[..n] == items;
    }
  }

  lemma SampleOf(items: seq<Item>, fields: seq<Reading>, i: nat, ch: nat)
    requires CarriesWords(items, fields) && i < |items| && ch == 68 * fields[i].aget + fields[i].chan
    ensures var t, k := CompressedTrace(items, ch), ReadingsOf(fields[..i], ch);
            k < |t| && t[k] == Sample(fields[i].bucket, fields[i].value)
  {
    var f := fields[i];
    TraceCounted(items[..i], fields[..i], ch);
    WordFields(items[i].bits, f.aget, f.chan, f.bucket, f.spare, f.value);
    assert items[..i + 1][..i] == items[..i];
    TracePrefix(items, i + 1, ch);
  }

  /** The k-th item of a channel is its sample number k, with the item's own bucket and value. */
  lemma CompressedItem(cobo: nat, asad: nat, items: seq<Item>, fields: seq<Reading>, i: nat)
    requires CarriesWords(items, fields) && i < |items| && 68 * fields[i].aget + fields[i].chan < 272
    ensures var ch := 68 * fields[i].aget + fields[i].chan;
            var k := ReadingsOf(fields[..i], ch);
            var t := TracesOf(Frame(1, cobo, asad, items))[ch];
            k < |t| && t[k] == Sample(fields[i].bucket, fields[i].value)
  {
    var ch := 68 * fields[i].aget + fields[i].chan;
    SampleOf(items, fields, i, ch);
    assert CompressedTraces(items)[ch] == CompressedTrace(items, ch);
  }

  /** Type 1 is decoded unless an item is not four bytes long, type 2 always, and any other has no hits. */
  lemma FrameTypes(f: Frame)
    ensures f.ftype == 1 ==> (HitsOf(f).Thrown? <==> exists i :: 0 <= i < |f.items| && f.items[i].size != 4)
    ensures f.ftype == 2 ==> HitsOf(f).Hits?
    ensures f.ftype != 1 && f.ftype != 2 ==> HitsOf(f) == Hits([])
  {
  }

  // ---------- the two decoders agree ----------

  /** The compressed words for an uncompressed stream: the k-th item of AGET g becomes
      (g, k % 68, k / 68, value). */
  function Rewrite(items: seq<Item>): (words: seq<Item>)
    ensures |words| == |items|
  {
    if items == [] then []
    else
      var before, w := items[..|items| - 1], items[|items| - 1].bits;
      var k := |AgetValues(before, Aget16(w))|;
      Rewrite(before) + [Item(4, Word(Aget16(w), k % CHANNELS_PER_AGET, k / CHANNELS_PER_AGET, Value16(w)))]
  }

  predicate FitsCompressed(items: seq<Item>) {
    forall g :: 0 <= g < AGETS_PER_ASAD ==> |AgetValues(items, g)| <= CHANNELS_PER_AGET * BUCKETS
  }

  lemma {:induction false} ValuesGrow(items: seq<Item>, n: nat, g: nat)
    requires n <= |items|
    ensures |AgetValues(items[..n], g)| <= |AgetValues(items, g)|
    decreases |items|
  {
    var m := |items| - 1;
    if n <= m {
      ValuesGrow(items[..m], n, g);
      assert items[..m][..n] == items[..n];
    } else {
      assert items[..n] == items;
    }
  }

  lemma FitsPrefix(items: seq<Item>, n: nat)
    requires FitsCompressed(items) && n <= |items|
    ensures FitsCompressed(items[..n])
  {
    forall g | 0 <= g < AGETS_PER_ASAD ensures |AgetValues(items[..n], g)| <= CHANNELS_PER_AGET * BUCKETS {
      ValuesGrow(items, n, g);
    }
  }

  /** The fields of the last rewritten word. */
  lemma LastWord(items: seq<Item>)
    requires FitsCompressed(items) && items != []
    ensures var before, w := items[..|items| - 1], items[|items| - 1].bits;
            var k := |AgetValues(before, Aget16(w))|;
            var last := Rewrite(items)[|items| - 1];
            && |Rewrite(items)| == |items| && Rewrite(items)[..|items| - 1] == Rewrite(before)
            && last.size == 4
            && Aget(last.bits) == Aget16(w) && Chan(last.bits) == k % CHANNELS_PER_AGET
            && BucketOf(last.bits) == k / CHANNELS_PER_AGET && AdcValue(last.bits) == Value16(w)
  {
    var before, w := items[..|items| - 1], items[|items| - 1].bits;
    var k := |AgetValues(before, Aget16(w))|;
    assert |AgetValues(items, Aget16(w))| == k + 1;
    WordFields(Word(Aget16(w), k % CHANNELS_PER_AGET, k / CHANNELS_PER_AGET, Value16(w)),
               Aget16(w), k % CHANNELS_PER_AGET, k / CHANNELS_PER_AGET, 0, Value16(w));
  }

  lemma {:induction false} RewriteInRange(items: seq<Item>)
    requires FitsCompressed(items)
    ensures AllWords(Rewrite(items))
    ensures forall i :: 0 <= i < |Rewrite(items)| ==> AbsChan(Rewrite(items)[i].bits) < CHANNELS
  {
    if items != [] {
      var i := |items| - 1;
      FitsPrefix(items, i);
      RewriteInRange(items[..i]);
      LastWord(items);
    }
  }

  lemma {:induction false} RewriteTrace(items: seq<Item>, ch: nat)
    requires FitsCompressed(items) && ch < CHANNELS
    ensures CompressedTrace(Rewrite(items), ch) == UncompressedTrace(items, ch)
  {
    if items != [] {
      var i := |items| - 1;
      var before, w := items[..i], items[i].bits;
      FitsPrefix(items, i);
      RewriteTrace(before, ch);
      LastWord(items);
      assert items[..i + 1] == items;
      StepTraces(items, i, AbsChan(Rewrite(items)[i].bits));
      if ch == AbsChan(Rewrite(items)[i].bits) {
        assert |UncompressedTrace(before, ch)| == |AgetValues(before, Aget16(w))| / CHANNELS_PER_AGET;
      }
    }
  }

  lemma RewriteTraces(items: seq<Item>)
    requires FitsCompressed(items)
    ensures AllWords(Rewrite(items)) && InRange(Rewrite(items))
    ensures CompressedTraces(Rewrite(items)) == UncompressedTraces(items)
  {
    RewriteInRange(items);
    forall ch | 0 <= ch < CHANNELS ensures CompressedTraces(Rewrite(items))[ch] == UncompressedTraces(items)[ch] {
      RewriteTrace(items, ch);
    }
  }

  /** Rewriting an uncompressed frame word by word and decoding it as a compressed one gives
      the same hits. */
  lemma DecodersAgree(cobo: nat, asad: nat, items: seq<Item>)
    requires FitsCompressed(items)
    ensures InRange(Rewrite(items))
    ensures HitsOf(Frame(UNCOMPRESSED_FRAME, cobo, asad, items))
         == HitsOf(Frame(COMPRESSED_FRAME, cobo, asad, Rewrite(items)))
  {
    RewriteTraces(items);
  }

  lemma {:induction false} CompressedBuckets(items: seq<Item>, ch: nat)
    ensures forall j :: 0 <= j < |CompressedTrace(items, ch)| ==> CompressedTrace(items, ch)[j].bucket < BUCKETS
  {
    if items != [] { CompressedBuckets(items[..|items| - 1], ch); }
  }

  lemma CompressedTracesAreShort(items: seq<Item>, words: seq<Item>, g: nat)
    requires CompressedTraces(words) == UncompressedTraces(items) && g < AGETS_PER_ASAD
    ensures |AgetValues(items, g)| <= CHANNELS_PER_AGET * BUCKETS
  {
    var ch := g * CHANNELS_PER_AGET;
    var t := UncompressedTrace(items, ch);
    assert t == UncompressedTraces(items)[ch] == CompressedTraces(words)[ch];
    CompressedBuckets(words, ch);
    if t != [] {
      assert t[|t| - 1].bucket == |t| - 1;
    }
    assert |t| <= BUCKETS;
  }

  /** Some compressed frame has the traces of an uncompressed one exactly when no AGET of the
      latter has more than 68 * 512 items: bucket 512 does not fit the 9-bit field. */
  lemma CompressibleExactly(items: seq<Item>)
    ensures FitsCompressed(items)
            <==> exists words ::
                   AllWords(words) && InRange(words) && CompressedTraces(words) == UncompressedTraces(items)
  {
    if FitsCompressed(items) {
      RewriteTraces(items);
    }
    forall words, g | CompressedTraces(words) == UncompressedTraces(items) && 0 <= g < AGETS_PER_ASAD
      ensures |AgetValues(items, g)| <= CHANNELS_PER_AGET * BUCKETS
    {
      CompressedTracesAreShort(items, words, g);
    }
  }

  // ---------- the hit list ----------

  function Address(h: Hit): nat {
    h.aget * CHANNELS_PER_AGET + h.chan
  }

  /** Each hit is the hit of the non-empty trace of its own channel. */
  ghost predicate OwnTrace(h: Hit, cobo: nat, asad: nat, traces: seq<Trace>, n: nat)
    requires n <= |traces|
  {
    && h.chan < CHANNELS_PER_AGET && Address(h) < n
    && traces[Address(h)] != []
    && h == HitOf(cobo, asad, Address(h), traces[Address(h)])
  }

  lemma HitOfAddress(cobo: nat, asad: nat, ch: nat, t: Trace)
    requires t != []
    ensures Address(HitOf(cobo, asad, ch, t)) == ch && HitOf(cobo, asad, ch, t).chan < CHANNELS_PER_AGET
  {
  }

  lemma {:induction false} HitListOwn(cobo: nat, asad: nat, traces: seq<Trace>, n: nat, i: nat)
    requires n <= |traces| && i < |HitList(cobo, asad, traces, n)|
    ensures OwnTrace(HitList(cobo, asad, traces, n)[i], cobo, asad, traces, n)
  {
    if i < |HitList(cobo, asad, traces, n - 1)| {
      HitListOwn(cobo, asad, traces, n - 1, i);
    } else {
      HitOfAddress(cobo, asad, n - 1, traces[n - 1]);
    }
  }

  lemma {:induction false} HitListOrdered(cobo: nat, asad: nat, traces: seq<Trace>, n: nat, i: nat, j: nat)
    requires n <= |traces| && i < j < |HitList(cobo, asad, traces, n)|
    ensures Address(HitList(cobo, asad, traces, n)[i]) < Address(HitList(cobo, asad, traces, n)[j])
  {
    if j < |HitList(cobo, asad, traces, n - 1)| {
      HitListOrdered(cobo, asad, traces, n - 1, i, j);
    } else {
      HitListOwn(cobo, asad, traces, n - 1, i);
      HitOfAddress(cobo, asad, n - 1, traces[n - 1]);
    }
  }

  lemma {:induction false} HitListComplete(cobo: nat, asad: nat, traces: seq<Trace>, n: nat, ch: nat)
    requires ch < n <= |traces| && traces[ch] != []
    ensures HitOf(cobo, asad, ch, traces[ch]) in HitList(cobo, asad, traces, n)
  {
    if ch < n - 1 {
      HitListComplete(cobo, asad, traces, n - 1, ch);
    } else {
      assert HitList(cobo, asad, traces, n)[|HitList(cobo, asad, traces, n - 1)|] == HitOf(cobo, asad, ch, traces[ch]);
    }
  }

  /** The hits are in strictly increasing channel order, each is the hit of the trace of its
      own channel, and every non-empty trace has one. */
  lemma {:induction false} HitListExact(cobo: nat, asad: nat, traces: seq<Trace>, n: nat)
    requires n <= |traces|
    ensures var hits := HitList(cobo, asad, traces, n);
            && (forall i :: 0 <= i < |hits| ==> OwnTrace(hits[i], cobo, asad, traces, n))
            && (forall i, j :: 0 <= i < j < |hits| ==> Address(hits[i]) < Address(hits[j]))
            && (forall ch :: 0 <= ch < n && traces[ch] != [] ==> HitOf(cobo, asad, ch, traces[ch]) in hits)
  {
    var hits := HitList(cobo, asad, traces, n);
    forall i | 0 <= i < |hits| ensures OwnTrace(hits[i], cobo, asad, traces, n) {
      HitListOwn(cobo, asad, traces, n, i);
    }
    forall i, j | 0 <= i < j < |hits| ensures Address(hits[i]) < Address(hits[j]) {
      HitListOrdered(cobo, asad, traces, n, i, j);
    }
    forall ch | 0 <= ch < n && traces[ch] != [] ensures HitOf(cobo, asad, ch, traces[ch]) in hits {
      HitListComplete(cobo, asad, traces, n, ch);
    }
  }
}
