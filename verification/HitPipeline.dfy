/** From a decoded frame to the histogrammer's parameter tables: the hits of an event are
    copied byte for byte into a ring item body (analyzing/processor.cpp) and unpacked from it
    again (spectclhits/CGetHitUnpacker.cpp).

    Both programs copy structures as they lie in memory, so how a count or a hit is laid out in
    bytes is a parameter that only has to be readable again; module LittleEndian shows that the
    layout of the usual target is. */
module HitPipeline {
  import opened AnalyzeFrame
  import opened Options
  import opened Pulse
  import opened Words

  datatype HitBlock = HitBlock(cobo: Word32, asad: Word32, aget: Word32, chan: Word32,
                               time: Word64, peak: Word64, integral: Word64)

  function Low32(n: nat): Word32 { n % 0x1_0000_0000 }

  /** The four bytes of a count and the forty of a hit. */
  type Count = bs: seq<Byte> | |bs| == 4 witness [0, 0, 0, 0]
  type Chunk = bs: seq<Byte> | |bs| == 40 witness seq(40, i => 0)

  /** How numbers lie in memory: the doubles standing for the values of a hit, the bytes of a
      32-bit count, the bytes of a hit structure, and how the last two are read. */
  datatype Layout = Layout(ofQuotient: Quotient -> Word64, ofReal: real -> Word64,
                           count: Word32 -> Count, uncount: Count -> Word32,
                           hit: HitBlock -> Chunk, unhit: Chunk -> HitBlock)

  /** What is written can be read. */
  ghost predicate Readable(d: Layout) {
    && (forall n :: d.uncount(d.count(n)) == n)
    && (forall h :: d.unhit(d.hit(h)) == h)
  }

  /** A hit as the structure in memory. */
  function Block(h: Hit, d: Layout): HitBlock {
    HitBlock(Low32(h.cobo), Low32(h.asad), Low32(h.aget), Low32(h.chan),
             d.ofQuotient(h.time), d.ofReal(h.peak), d.ofReal(h.integral))
  }

  function Concatenate(chunks: seq<Chunk>): (bs: seq<Byte>)
    ensures |bs| == 40 * |chunks|
  {
    if chunks == [] then [] else Concatenate(chunks[..|chunks| - 1]) + chunks[|chunks| - 1]
  }

  function Encoded(hits: seq<HitBlock>, d: Layout): (chunks: seq<Chunk>)
    ensures |chunks| == |hits| && forall i {:trigger chunks[i]} :: 0 <= i < |hits| ==> chunks[i] == d.hit(hits[i])
  {
    if hits == [] then [] else Encoded(hits[..|hits| - 1], d) + [d.hit(hits[|hits| - 1])]
  }

  /** A 32-bit count, then the blocks as they lie in memory. */
  function BodyOf(chunks: seq<Chunk>, d: Layout): seq<Byte> {
    d.count(Low32(|chunks|)) + Concatenate(chunks)
  }

  /** The body of an event with these hits. */
  function Body(hits: seq<HitBlock>, d: Layout): seq<Byte> {
    BodyOf(Encoded(hits, d), d)
  }

  predicate WellSized(body: seq<Byte>, d: Layout) {
    |body| >= 4 && |body| >= 4 + 40 * d.uncount(body[..4])
  }

  /** The bytes a hit pointer advanced i times sees. */
  function ChunkIn(body: seq<Byte>, i: nat): Chunk
    requires |body| >= 4 + 40 * (i + 1)
  {
    body[4 + 40 * i..4 + 40 * (i + 1)]
  }

  /** The hits an unpacker reads from a body. */
  function HitsIn(body: seq<Byte>, d: Layout): (hits: seq<HitBlock>)
    requires WellSized(body, d)
    ensures |hits| == d.uncount(body[..4])
    ensures forall i {:trigger hits[i]} :: 0 <= i < |hits| ==> hits[i] == d.unhit(ChunkIn(body, i))
  {
    seq(d.uncount(body[..4]), i requires 0 <= i < d.uncount(body[..4]) => d.unhit(ChunkIn(body, i)))
  }

  lemma {:induction false} ChunkAt(chunks: seq<Chunk>, i: nat)
    requires i < |chunks|
    ensures 40 * (i + 1) <= |Concatenate(chunks)|
    ensures Concatenate(chunks)[40 * i..40 * (i + 1)] == chunks[i]
    decreases |chunks|
  {
    var n := |chunks| - 1;
    if i < n {
      ChunkAt(chunks[..n], i);
      assert Concatenate(chunks)[40 * i..40 * (i + 1)] == Concatenate(chunks[..n])[40 * i..40 * (i + 1)];
    }
  }

  lemma CountOf(chunks: seq<Chunk>, d: Layout)
    requires |chunks| < 0x1_0000_0000 && Readable(d)
    ensures WellSized(BodyOf(chunks, d), d) && d.uncount(BodyOf(chunks, d)[..4]) == |chunks|
  {
  }

  lemma ChunksOfBody(chunks: seq<Chunk>, d: Layout, i: nat)
    requires i < |chunks|
    ensures |BodyOf(chunks, d)| >= 4 + 40 * (i + 1) && ChunkIn(BodyOf(chunks, d), i) == chunks[i]
  {
    ChunkAt(chunks, i);
    assert ChunkIn(BodyOf(chunks, d), i) == Concatenate(chunks)[40 * i..40 * (i + 1)];
  }

  /** Where everything lies in a body: the count in the first four bytes, hit i in the 40 bytes from 4 + 40 i on. */
  lemma BodyLayout(hits: seq<HitBlock>, d: Layout, i: nat)
    requires i < |hits| < 0x1_0000_0000
    ensures |Body(hits, d)| == 4 + 40 * |hits| && Body(hits, d)[..4] == d.count(|hits|)
    ensures Body(hits, d)[4 + 40 * i..4 + 40 * (i + 1)] == d.hit(hits[i])
  {
    ChunksOfBody(Encoded(hits, d), d, i);
  }

  /** Reading back a body gives the hits written into it. */
  lemma BodyRoundTrip(hits: seq<HitBlock>, d: Layout)
    requires |hits| < 0x1_0000_0000 && Readable(d)
    ensures WellSized(Body(hits, d), d) && HitsIn(Body(hits, d), d) == hits
  {
    var chunks := Encoded(hits, d);
    CountOf(chunks, d);
    forall i | 0 <= i < |hits| ensures HitsIn(BodyOf(chunks, d), d)[i] == hits[i] {
      ChunksOfBody(chunks, d, i);
    }
  }

  // ---------- the event processor ----------

  datatype Header = Header(timestamp: nat, sourceId: Word32, barrier: nat)

  datatype EventItem = EventItem(header: Header, body: seq<Byte>)

  function BlocksOf(hits: seq<Hit>, d: Layout): (blocks: seq<HitBlock>)
    ensures |blocks| == |hits| && forall i {:trigger blocks[i]} :: 0 <= i < |hits| ==> blocks[i] == Block(hits[i], d)
  {
    seq(|hits|, i requires 0 <= i < |hits| => Block(hits[i], d))
  }

  /** `memcpy(dest + at, src, |src|)` */
  method CopyBytes(dest: array<Byte>, at: nat, src: seq<Byte>)
    requires at + |src| <= dest.Length
    modifies dest
    ensures dest[..] == old(dest[..at]) + src + old(dest[at + |src|..])
  {
    var i := 0;
    while i < |src|
      invariant 0 <= i <= |src|
      invariant dest[..at] == old(dest[..at])
      invariant dest[at..at + i] == src[..i]
      invariant dest[at + |src|..] == old(dest[at + |src|..])
    {
      dest[at + i] := src[i];
      i := i + 1;
    }
    assert dest[..] == dest[..at] + dest[at..at + |src|] + dest[at + |src|..];
  }

  /** The loop that appends the hits, as they lie in memory, after what the buffer holds. */
  method CopyHits(body: array<Byte>, start: nat, chunks: seq<Chunk>) returns (p: nat)
    requires start + 40 * |chunks| <= body.Length
    modifies body
    ensures p == start + 40 * |chunks|
    ensures body[..p] == old(body[..start]) + Concatenate(chunks)
  {
    p := start;
    var i := 0;
    while i < |chunks|
      invariant 0 <= i <= |chunks| && p == start + 40 * i
      invariant body[..p] == old(body[..start]) + Concatenate(chunks[..i])
    {
      CopyBytes(body, p, chunks[i]);
      ConcatenateSnoc(chunks, i);
      p := p + 40;
      i := i + 1;
    }
    assert chunks[..i] == chunks;
  }

  lemma ConcatenateSnoc(chunks: seq<Chunk>, i: nat)
    requires i < |chunks|
    ensures Concatenate(chunks[..i + 1]) == Concatenate(chunks[..i]) + chunks[i]
  {
    assert chunks[..i + 1][..i] == chunks[..i];
  }

  /** The body of a hit item: the count and the blocks, which fit the size the code asks for. */
  method FillBody(hits: seq<Hit>, d: Layout) returns (bytes: seq<Byte>)
    ensures bytes == Body(BlocksOf(hits, d), d)
    ensures |bytes| <= 40 * |hits| + 100
  {
    var requiredSize := |hits| * 40 + 100;
    var body := new Byte[requiredSize];
    var nhits := Low32(|hits|);
    var count := d.count(nhits);
    CopyBytes(body, 0, count);
    assert body[..4] == count;
    var p := CopyHits(body, 4, Encoded(BlocksOf(hits, d), d));
    bytes := body[..p];
  }

  function ItemFor(header: Header, hits: seq<Hit>, d: Layout): EventItem
    requires hits != []
  {
    EventItem(Header(header.timestamp, Low32(header.sourceId + hits[0].asad), header.barrier),
              Body(BlocksOf(hits, d), d))
  }

  /** What one event adds to the sink: nothing when decoding throws or finds no hit. */
  function Emitted(header: Header, outcome: Outcome, d: Layout): seq<EventItem> {
    if outcome.Thrown? || outcome.hits == [] then [] else [ItemFor(header, outcome.hits, d)]
  }

  class RingItemProcessor {
    var sink: seq<EventItem>

    /** False when analysing the frame throws. */
    method ProcessEvent(header: Header, frame: Frame, d: Layout) returns (ok: bool)
      requires frame.ftype == COMPRESSED_FRAME ==> InRange(frame.items)
      modifies this
      ensures ok == HitsOf(frame).Hits?
      ensures sink == old(sink) + Emitted(header, HitsOf(frame), d)
    {
      var hitMaker := new CreateHits();
      ok := hitMaker.ProcessFrame(frame);
      if ok {
        PutHits(header, hitMaker.results, d);
      }
    }

    /** The ring item of a hit list goes to the sink; an event without hits is dropped. */
    method PutHits(header: Header, hits: seq<Hit>, d: Layout)
      modifies this
      ensures sink == old(sink) + if hits == [] then [] else [ItemFor(header, hits, d)]
    {
      if |hits| == 0 {
        return;
      }
      var hitItem := MakeItem(header, hits, d);
      sink := sink + [hitItem];
    }
  }

  method MakeItem(header: Header, hits: seq<Hit>, d: Layout) returns (hitItem: EventItem)
    requires hits != []
    ensures hitItem == ItemFor(header, hits, d)
  {
    var asad := hits[0].asad;
    var body := FillBody(hits, d);
    hitItem := EventItem(Header(header.timestamp, Low32(header.sourceId + asad), header.barrier), body);
  }

  // ---------- the unpacker ----------

  predicate Addresses(h: HitBlock, asad: nat, aget: nat, chan: nat) {
    h.asad == asad && h.aget == aget && h.chan == chan
  }

  predicate InTable(h: HitBlock) {
    h.asad < 4 && h.aget < AGETS_PER_ASAD && h.chan < CHANNELS_PER_AGET
  }

  /** The last of the hits for one table cell. */
  function LastFor(hits: seq<HitBlock>, asad: nat, aget: nat, chan: nat): Option<HitBlock> {
    if hits == [] then None
    else if Addresses(hits[|hits| - 1], asad, aget, chan) then Some(hits[|hits| - 1])
    else LastFor(hits[..|hits| - 1], asad, aget, chan)
  }

  /** The hits before the first one of a CoBo other than 0. */
  function Accepted(hits: seq<HitBlock>): (n: nat)
    ensures n <= |hits|
    ensures forall i :: 0 <= i < n ==> hits[i].cobo == 0
    ensures n < |hits| ==> hits[n].cobo != 0
  {
    if hits == [] then 0
    else
      var n := Accepted(hits[..|hits| - 1]);
      if n < |hits| - 1 || hits[n].cobo != 0 then n else n + 1
  }

  /** What the three tables hold for one channel. */
  datatype TableCell = TableCell(time: Word64, height: Word64, integral: Word64)

  class Parameters {
    const time: array3<Word64>
    const height: array3<Word64>
    const integral: array3<Word64>

    ghost predicate Valid() {
      && time.Length0 == height.Length0 == integral.Length0 == 4
      && time.Length1 == height.Length1 == integral.Length1 == AGETS_PER_ASAD
      && time.Length2 == height.Length2 == integral.Length2 == CHANNELS_PER_AGET
      && time != height && time != integral && height != integral
    }

    ghost function At(a: nat, g: nat, c: nat): TableCell
      requires Valid() && a < 4 && g < 4 && c < 68
      reads time, height, integral
    {
      TableCell(time[a, g, c], height[a, g, c], integral[a, g, c])
    }

    constructor ()
      ensures Valid() && fresh(time) && fresh(height) && fresh(integral)
    {
      time := new Word64[4, AGETS_PER_ASAD, CHANNELS_PER_AGET]((a, g, c) => 0);
      height := new Word64[4, AGETS_PER_ASAD, CHANNELS_PER_AGET]((a, g, c) => 0);
      integral := new Word64[4, AGETS_PER_ASAD, CHANNELS_PER_AGET]((a, g, c) => 0);
    }

    /** Every table cell takes the values of the last accepted hit for it, or keeps its own. */
    method Unpack(body: seq<Byte>, d: Layout) returns (ok: bool)
      requires Valid() && WellSized(body, d)
      requires forall i :: 0 <= i < Accepted(HitsIn(body, d)) ==> InTable(HitsIn(body, d)[i])
      modifies time, height, integral
      ensures ok == (Accepted(HitsIn(body, d)) == |HitsIn(body, d)|)
      ensures forall a, g, c :: 0 <= a < 4 && 0 <= g < AGETS_PER_ASAD && 0 <= c < CHANNELS_PER_AGET ==>
                match LastFor(HitsIn(body, d)[..Accepted(HitsIn(body, d))], a, g, c)
                case Some(h) => time[a, g, c] == h.time && height[a, g, c] == h.peak && integral[a, g, c] == h.integral
                case None => time[a, g, c] == old(time[a, g, c]) && height[a, g, c] == old(height[a, g, c])
                             && integral[a, g, c] == old(integral[a, g, c])
    {
      var items := d.uncount(body[..4]);
      ghost var hits := HitsIn(body, d);
      var i := 0;
      while i < items
        invariant 0 <= i <= items && i <= Accepted(hits)
        invariant forall a, g, c :: 0 <= a < 4 && 0 <= g < AGETS_PER_ASAD && 0 <= c < CHANNELS_PER_AGET ==>
                    match LastFor(hits[..i], a, g, c)
                    case Some(h) => time[a, g, c] == h.time && height[a, g, c] == h.peak
                                    && integral[a, g, c] == h.integral
                    case None => time[a, g, c] == old(time[a, g, c]) && height[a, g, c] == old(height[a, g, c])
                                 && integral[a, g, c] == old(integral[a, g, c])
      {
        var h := d.unhit(ChunkIn(body, i));
        assert h == hits[i];
        if h.cobo != 0 {
          assert Accepted(hits) == i;
          return false;
        }
        assert hits[..i + 1][..i] == hits[..i];
        assert InTable(h);
        time[h.asad, h.aget, h.chan] := h.time;
        height[h.asad, h.aget, h.chan] := h.peak;
        integral[h.asad, h.aget, h.chan] := h.integral;
        i := i + 1;
      }
      assert hits[..i] == hits;
      return true;
    }
  }

  // ---------- hits survive the pipeline ----------

  lemma {:induction false} LastForNone(hits: seq<HitBlock>, asad: nat, aget: nat, chan: nat)
    requires forall i :: 0 <= i < |hits| ==> !Addresses(hits[i], asad, aget, chan)
    ensures LastFor(hits, asad, aget, chan) == None
  {
    if hits != [] {
      assert !Addresses(hits[|hits| - 1], asad, aget, chan);
      LastForNone(hits[..|hits| - 1], asad, aget, chan);
    }
  }

  /** A hit is the last for a cell exactly when it has its address and none after it has. */
  lemma {:induction false} LastForIs(hits: seq<HitBlock>, asad: nat, aget: nat, chan: nat, k: nat)
    requires k < |hits| && Addresses(hits[k], asad, aget, chan)
    requires forall i :: k < i < |hits| ==> !Addresses(hits[i], asad, aget, chan)
    ensures LastFor(hits, asad, aget, chan) == Some(hits[k])
  {
    var n := |hits| - 1;
    if k < n {
      assert !Addresses(hits[n], asad, aget, chan);
      LastForIs(hits[..n], asad, aget, chan, k);
    }
  }

  lemma {:induction false} HitListLength(cobo: nat, asad: nat, traces: seq<Trace>, n: nat)
    requires n <= |traces|
    ensures |HitList(cobo, asad, traces, n)| <= n
  {
    if n > 0 { HitListLength(cobo, asad, traces, n - 1); }
  }

  predicate Addressable(h: Hit) {
    h.cobo < 256 && h.asad < 256 && h.aget < AGETS_PER_ASAD && h.chan < CHANNELS_PER_AGET
  }

  /** Which hit a table address means, for an addressable hit. */
  lemma AddressesBlock(h: Hit, d: Layout, a: nat, g: nat, c: nat)
    requires Addressable(h) && g < AGETS_PER_ASAD && c < CHANNELS_PER_AGET
    ensures Addresses(Block(h, d), a, g, c) <==> h.asad == a && Address(h) == g * CHANNELS_PER_AGET + c
  {
  }

  /** Hits in strictly increasing channel order of one board go to different table cells. */
  lemma CellOfHits(hits: seq<Hit>, d: Layout, asad: nat, a: nat, g: nat, c: nat)
    requires g < AGETS_PER_ASAD && c < CHANNELS_PER_AGET
    requires forall i :: 0 <= i < |hits| ==> Addressable(hits[i]) && hits[i].asad == asad
    requires forall i, j :: 0 <= i < j < |hits| ==> Address(hits[i]) < Address(hits[j])
    ensures (a == asad && exists i :: 0 <= i < |hits| && Address(hits[i]) == g * CHANNELS_PER_AGET + c)
            <==> LastFor(BlocksOf(hits, d), a, g, c).Some?
    ensures forall i :: 0 <= i < |hits| && a == asad && Address(hits[i]) == g * CHANNELS_PER_AGET + c ==>
              LastFor(BlocksOf(hits, d), a, g, c) == Some(Block(hits[i], d))
  {
    var blocks, ch := BlocksOf(hits, d), g * CHANNELS_PER_AGET + c;
    forall i | 0 <= i < |blocks|
      ensures Addresses(blocks[i], a, g, c) <==> asad == a && Address(hits[i]) == ch
    {
      AddressesBlock(hits[i], d, a, g, c);
    }
    if k :| 0 <= k < |hits| && a == asad && Address(hits[k]) == ch {
      forall i | 0 <= i < |hits| && i != k ensures Address(hits[i]) != ch {
        assert i < k || k < i;
      }
      LastForIs(blocks, a, g, c, k);
    } else {
      LastForNone(blocks, a, g, c);
    }
  }

  lemma BlocksInTable(hits: seq<Hit>, d: Layout)
    requires forall i :: 0 <= i < |hits| ==> Addressable(hits[i]) && hits[i].cobo == 0 && hits[i].asad < 4
    ensures Accepted(BlocksOf(hits, d)) == |hits|
    ensures forall i :: 0 <= i < |hits| ==> InTable(BlocksOf(hits, d)[i])
  {
  }

  lemma OwnTracesAddressable(asad: nat, traces: seq<Trace>)
    requires asad < 256 && |traces| == CHANNELS
    ensures var hits := HitList(0, asad, traces, CHANNELS);
            forall i :: 0 <= i < |hits| ==> Addressable(hits[i]) && hits[i].asad == asad && hits[i].cobo == 0
  {
    HitListExact(0, asad, traces, CHANNELS);
    var hits := HitList(0, asad, traces, CHANNELS);
    forall i | 0 <= i < |hits| ensures Addressable(hits[i]) && hits[i].asad == asad && hits[i].cobo == 0 {
      assert OwnTrace(hits[i], 0, asad, traces, CHANNELS);
    }
  }

  /** An event of CoBo 0 after the trip through its body: it unpacks without error and inside the
      tables, and the last hit for the cell of (a, g, c) is the hit of that channel's own trace
      exactly when the board is a and the trace is non-empty, so no other cell is written. */
  lemma HitsSurvive(asad: nat, traces: seq<Trace>, d: Layout, a: nat, g: nat, c: nat)
    requires Readable(d) && asad < 4 && |traces| == CHANNELS && g < AGETS_PER_ASAD && c < CHANNELS_PER_AGET
    ensures WellSized(Body(BlocksOf(HitList(0, asad, traces, CHANNELS), d), d), d)
    ensures var read := HitsIn(Body(BlocksOf(HitList(0, asad, traces, CHANNELS), d), d), d);
            var ch := g * CHANNELS_PER_AGET + c;
            && Accepted(read) == |read|
            && (forall i :: 0 <= i < |read| ==> InTable(read[i]))
            && LastFor(read, a, g, c)
               == if a == asad && traces[ch] != [] then Some(Block(HitOf(0, asad, ch, traces[ch]), d)) else None
  {
    var hits := HitList(0, asad, traces, CHANNELS);
    OwnTracesAddressable(asad, traces);
    HitListLength(0, asad, traces, CHANNELS);
    BodyRoundTrip(BlocksOf(hits, d), d);
    BlocksInTable(hits, d);
    CellOfTrace(asad, traces, d, a, g, c);
  }

  lemma CellOfTrace(asad: nat, traces: seq<Trace>, d: Layout, a: nat, g: nat, c: nat)
    requires asad < 4 && |traces| == CHANNELS && g < AGETS_PER_ASAD && c < CHANNELS_PER_AGET
    ensures var ch := g * CHANNELS_PER_AGET + c;
            LastFor(BlocksOf(HitList(0, asad, traces, CHANNELS), d), a, g, c)
              == if a == asad && traces[ch] != [] then Some(Block(HitOf(0, asad, ch, traces[ch]), d)) else None
  {
    var hits := HitList(0, asad, traces, CHANNELS);
    OwnTracesAddressable(asad, traces);
    HitListExact(0, asad, traces, CHANNELS);
    CellOfHits(hits, d, asad, a, g, c);
    var ch := g * CHANNELS_PER_AGET + c;
    if traces[ch] != [] {
      var h := HitOf(0, asad, ch, traces[ch]);
      assert h in hits;
      HitOfAddress(0, asad, ch, traces[ch]);
      var i :| 0 <= i < |hits| && hits[i] == h;
    } else {
      forall i | 0 <= i < |hits| ensures Address(hits[i]) != ch {
        assert OwnTrace(hits[i], 0, asad, traces, CHANNELS);
      }
    }
  }

  lemma {:induction false} NoHits(cobo: nat, asad: nat, traces: seq<Trace>, n: nat)
    requires n <= |traces|
    ensures HitList(cobo, asad, traces, n) == [] <==> forall ch :: 0 <= ch < n ==> traces[ch] == []
  {
    if n > 0 { NoHits(cobo, asad, traces, n - 1); }
  }

  lemma HitsOfFrame(frame: Frame)
    ensures HitsOf(frame).Hits? ==>
            HitsOf(frame).hits == HitList(frame.cobo, frame.asad, TracesOf(frame), CHANNELS)
  {
    if frame.ftype != COMPRESSED_FRAME && frame.ftype != UNCOMPRESSED_FRAME {
      NoHits(frame.cobo, frame.asad, TracesOf(frame), CHANNELS);
    }
  }

  /** What a trace has to leave in the tables. */
  function CellOf(t: Trace, d: Layout): Option<TableCell> {
    if t == [] then None
    else Some(TableCell(d.ofQuotient(Centroid(t)), d.ofReal(Peak(t, Offset(t))), d.ofReal(Integral(t))))
  }

  function CellsOf(traces: seq<Trace>, d: Layout): (cells: seq<Option<TableCell>>)
    ensures |cells| == |traces|
  {
    if traces == [] then [] else CellsOf(traces[..|traces| - 1], d) + [CellOf(traces[|traces| - 1], d)]
  }

  /** An empty trace leaves nothing; any other leaves its centroid, the height of its peak and its
      integral, each as the table's own kind of number. */
  lemma {:induction false} CellsAre(traces: seq<Trace>, d: Layout, ch: nat)
    requires ch < |traces|
    ensures traces[ch] == [] ==> CellsOf(traces, d)[ch] == None
    ensures traces[ch] != [] ==>
            && CellsOf(traces, d)[ch].Some?
            && CellsOf(traces, d)[ch].value.time == d.ofQuotient(Centroid(traces[ch]))
            && CellsOf(traces, d)[ch].value.height == d.ofReal(Peak(traces[ch], Offset(traces[ch])))
            && CellsOf(traces, d)[ch].value.integral == d.ofReal(Integral(traces[ch]))
    decreases |traces|
  {
    if ch < |traces| - 1 { CellsAre(traces[..|traces| - 1], d, ch); }
  }

  /** The hit a body has for one cell of the tables: that channel's, if the board is its own. */
  ghost predicate CellFrom(body: seq<Byte>, d: Layout, asad: nat, cells: seq<Option<TableCell>>, a: nat, g: nat, c: nat)
    requires WellSized(body, d) && |cells| == 272 && g < 4 && c < 68
  {
    match LastFor(HitsIn(body, d), a, g, c)
    case Some(h) => a == asad && cells[68 * g + c] == Some(TableCell(h.time, h.peak, h.integral))
    case None => a != asad || cells[68 * g + c] == None
  }

  /** The body unpacks without error and inside the tables, with the right hit for every cell. */
  ghost predicate BodyFrom(body: seq<Byte>, d: Layout, asad: nat, cells: seq<Option<TableCell>>) {
    && |cells| == 272 && WellSized(body, d) && Accepted(HitsIn(body, d)) == |HitsIn(body, d)|
    && (forall i :: 0 <= i < |HitsIn(body, d)| ==> InTable(HitsIn(body, d)[i]))
    && (forall a: nat, g: nat, c: nat :: g < 4 && c < 68 ==> CellFrom(body, d, asad, cells, a, g, c))
  }

  lemma ValuesInBlock(asad: nat, ch: nat, t: Trace, d: Layout, cell: Option<TableCell>)
    requires t != [] && cell.Some? && cell.value.time == d.ofQuotient(Centroid(t))
    requires cell.value.height == d.ofReal(Peak(t, Offset(t))) && cell.value.integral == d.ofReal(Integral(t))
    ensures var b := Block(HitOf(0, asad, ch, t), d);
            cell == Some(TableCell(b.time, b.peak, b.integral))
  {
  }

  lemma CellSurvives(asad: nat, traces: seq<Trace>, d: Layout, a: nat, g: nat, c: nat)
    requires Readable(d) && asad < 4 && |traces| == CHANNELS && g < 4 && c < 68
    ensures var body := Body(BlocksOf(HitList(0, asad, traces, CHANNELS), d), d);
            WellSized(body, d) && CellFrom(body, d, asad, CellsOf(traces, d), a, g, c)
  {
    HitsSurvive(asad, traces, d, a, g, c);
    CellOfBlock(asad, traces, d, g * CHANNELS_PER_AGET + c);
  }

  /** The block of a channel's hit holds what its trace has to leave in the tables. */
  lemma CellOfBlock(asad: nat, traces: seq<Trace>, d: Layout, ch: nat)
    requires ch < |traces|
    ensures traces[ch] == [] ==> CellsOf(traces, d)[ch] == None
    ensures traces[ch] != [] ==>
            var b := Block(HitOf(0, asad, ch, traces[ch]), d);
            CellsOf(traces, d)[ch] == Some(TableCell(b.time, b.peak, b.integral))
  {
    CellsAre(traces, d, ch);
    if traces[ch] != [] { ValuesInBlock(asad, ch, traces[ch], d, CellsOf(traces, d)[ch]); }
  }

  lemma BodySurvives(asad: nat, traces: seq<Trace>, d: Layout)
    requires Readable(d) && asad < 4 && |traces| == CHANNELS
    ensures BodyFrom(Body(BlocksOf(HitList(0, asad, traces, CHANNELS), d), d), d, asad, CellsOf(traces, d))
  {
    var body := Body(BlocksOf(HitList(0, asad, traces, CHANNELS), d), d);
    HitsSurvive(asad, traces, d, 0, 0, 0);
    forall a: nat, g: nat, c: nat | g < 4 && c < 68 ensures CellFrom(body, d, asad, CellsOf(traces, d), a, g, c) {
      CellSurvives(asad, traces, d, a, g, c);
    }
  }

  /** An item's header: time stamp and barrier as they came, the source id plus the board. */
  ghost predicate HeaderFrom(item: EventItem, header: Header, asad: nat) {
    && item.header.timestamp == header.timestamp && item.header.barrier == header.barrier
    && item.header.sourceId == (header.sourceId + asad) % 0x1_0000_0000
  }

  /** The first hit carries the event's CoBo and board. */
  lemma FirstHit(cobo: nat, asad: nat, traces: seq<Trace>)
    requires |traces| == CHANNELS && HitList(cobo, asad, traces, CHANNELS) != []
    ensures HitList(cobo, asad, traces, CHANNELS)[0].cobo == cobo
    ensures HitList(cobo, asad, traces, CHANNELS)[0].asad == asad
  {
    HitListOwn(cobo, asad, traces, CHANNELS, 0);
  }

  /** A hit of another CoBo is not accepted. */
  lemma ForeignCobo(hits: seq<Hit>, d: Layout)
    requires Readable(d) && 0 < |hits| < 0x1_0000_0000 && 0 < hits[0].cobo < 0x1_0000_0000
    ensures var body := Body(BlocksOf(hits, d), d);
            WellSized(body, d) && Accepted(HitsIn(body, d)) == 0 && |HitsIn(body, d)| > 0
  {
    BodyRoundTrip(BlocksOf(hits, d), d);
    assert BlocksOf(hits, d)[0].cobo == hits[0].cobo;
  }

  /** Decoding throws, or the frame has no sample. */
  ghost predicate Silent(frame: Frame) {
    HitsOf(frame).Thrown? || forall ch :: 0 <= ch < 272 ==> TracesOf(frame)[ch] == []
  }

  /** What an event emits, in terms of the frame's traces. */
  lemma EmittedFrom(header: Header, frame: Frame, d: Layout)
    ensures Silent(frame) ==> Emitted(header, HitsOf(frame), d) == []
    ensures !Silent(frame) ==>
            var hits := HitList(frame.cobo, frame.asad, TracesOf(frame), CHANNELS);
            hits != [] && Emitted(header, HitsOf(frame), d) == [ItemFor(header, hits, d)]
  {
    HitsOfFrame(frame);
    NoHits(frame.cobo, frame.asad, TracesOf(frame), CHANNELS);
  }

  /** What the item of a non-empty hit list holds. */
  lemma ItemSurvives(header: Header, cobo: nat, asad: nat, traces: seq<Trace>, d: Layout)
    requires Readable(d) && asad < 4 && |traces| == CHANNELS && HitList(cobo, asad, traces, CHANNELS) != []
    ensures var item := ItemFor(header, HitList(cobo, asad, traces, CHANNELS), d);
            && HeaderFrom(item, header, asad)
            && (cobo == 0 ==> BodyFrom(item.body, d, asad, CellsOf(traces, d)))
            && (0 < cobo < 0x1_0000_0000 ==> WellSized(item.body, d) && Foreign(item.body, d))
  {
    FirstHit(cobo, asad, traces);
    if cobo == 0 {
      BodySurvives(asad, traces, d);
    } else if cobo < 0x1_0000_0000 {
      HitListLength(cobo, asad, traces, CHANNELS);
      ForeignCobo(HitList(cobo, asad, traces, CHANNELS), d);
    }
    HeaderOf(header, HitList(cobo, asad, traces, CHANNELS), d);
  }

  lemma HeaderOf(header: Header, hits: seq<Hit>, d: Layout)
    requires hits != []
    ensures HeaderFrom(ItemFor(header, hits, d), header, hits[0].asad)
    ensures ItemFor(header, hits, d).body == Body(BlocksOf(hits, d), d)
  {
  }

  /** The very first hit is refused. */
  ghost predicate Foreign(body: seq<Byte>, d: Layout)
    requires WellSized(body, d)
  {
    Accepted(HitsIn(body, d)) == 0 && |HitsIn(body, d)| > 0
  }

  /** From frame to item: an event emits nothing exactly when decoding throws or the frame has no
      sample; otherwise it emits one item, which for CoBo 0 has for every cell of its board the
      values of that channel's own trace if it is not empty, and nothing for any other cell. */
  lemma EventSurvives(header: Header, frame: Frame, d: Layout)
    requires Readable(d) && frame.asad < 4
    ensures var items := Emitted(header, HitsOf(frame), d);
            && (items == [] <==> Silent(frame))
            && (items != [] ==>
                  && |items| == 1 && HeaderFrom(items[0], header, frame.asad)
                  && (frame.cobo == 0 ==> BodyFrom(items[0].body, d, frame.asad, CellsOf(TracesOf(frame), d)))
                  && (0 < frame.cobo < 0x1_0000_0000 ==> WellSized(items[0].body, d) && Foreign(items[0].body, d)))
  {
    EmittedFrom(header, frame, d);
    if !Silent(frame) { ItemSurvives(header, frame.cobo, frame.asad, TracesOf(frame), d); }
  }

  // ---------- from frame to tables ----------

  /** Unpacking the body of an event of CoBo 0. */
  method UnpackOwn(p: Parameters, body: seq<Byte>, d: Layout, ghost asad: nat, ghost cells: seq<Option<TableCell>>)
    returns (ok: bool)
    requires p.Valid() && BodyFrom(body, d, asad, cells)
    modifies p.time, p.height, p.integral
    ensures ok
    ensures forall a: nat, g: nat, c: nat :: a < 4 && g < 4 && c < 68 ==>
              p.At(a, g, c)
                == if a == asad && cells[68 * g + c].Some? then cells[68 * g + c].value else old(p.At(a, g, c))
  {
    ok := p.Unpack(body, d);
    ghost var hits := HitsIn(body, d);
    assert hits[..|hits|] == hits;
    forall a: nat, g: nat, c: nat | a < 4 && g < 4 && c < 68
      ensures p.At(a, g, c)
           == if a == asad && cells[68 * g + c].Some? then cells[68 * g + c].value else old(p.At(a, g, c))
    {
      assert CellFrom(body, d, asad, cells, a, g, c);
    }
  }

  /** Unpacking an event of another CoBo: nothing changes. */
  method UnpackForeign(p: Parameters, body: seq<Byte>, d: Layout) returns (ok: bool)
    requires p.Valid() && WellSized(body, d) && Foreign(body, d)
    modifies p.time, p.height, p.integral
    ensures !ok
    ensures forall a: nat, g: nat, c: nat :: a < 4 && g < 4 && c < 68 ==> p.At(a, g, c) == old(p.At(a, g, c))
  {
    ok := p.Unpack(body, d);
    ghost var hits := HitsIn(body, d);
    assert hits[..0] == [];
    forall a: nat, g: nat, c: nat | a < 4 && g < 4 && c < 68 ensures p.At(a, g, c) == old(p.At(a, g, c)) {
      assert LastFor(hits[..Accepted(hits)], a, g, c) == None;
    }
  }

  lemma NoCells(traces: seq<Trace>, d: Layout)
    requires forall ch :: 0 <= ch < |traces| ==> traces[ch] == []
    ensures forall ch :: 0 <= ch < |traces| ==> CellsOf(traces, d)[ch] == None
  {
    forall ch | 0 <= ch < |traces| ensures CellsOf(traces, d)[ch] == None { CellsAre(traces, d, ch); }
  }

  lemma SilentCells(frame: Frame, d: Layout)
    requires Silent(frame) && HitsOf(frame).Hits?
    ensures forall ch :: 0 <= ch < 272 ==> CellsOf(TracesOf(frame), d)[ch] == None
  {
    NoCells(TracesOf(frame), d);
  }

  /** One event through both programs: the event processor puts its item into the sink, and the
      unpacker reads the item from there.  Of CoBo 0, every channel of the board with a non-empty
      trace has its cells in the tables afterwards; no other cell changes. */
  method Deliver(processor: RingItemProcessor, p: Parameters, header: Header, frame: Frame, d: Layout)
    returns (ok: bool, unpacked: bool, ghost cells: seq<Option<TableCell>>)
    requires Readable(d) && p.Valid() && frame.cobo < 0x1_0000_0000 && frame.asad < 4
    requires frame.ftype == COMPRESSED_FRAME ==> InRange(frame.items)
    modifies processor, p.time, p.height, p.integral
    ensures ok == HitsOf(frame).Hits? && cells == CellsOf(TracesOf(frame), d)
    ensures Silent(frame) ==> processor.sink == old(processor.sink) && unpacked
    ensures !Silent(frame) ==>
            && |processor.sink| == |old(processor.sink)| + 1 && old(processor.sink) <= processor.sink
            && HeaderFrom(processor.sink[|old(processor.sink)|], header, frame.asad)
            && unpacked == (frame.cobo == 0)
    ensures forall a: nat, g: nat, c: nat :: a < 4 && g < 4 && c < 68 ==>
              p.At(a, g, c)
                == if ok && frame.cobo == 0 && a == frame.asad && cells[68 * g + c].Some?
                   then cells[68 * g + c].value else old(p.At(a, g, c))
  {
    var before := |processor.sink|;
    cells := CellsOf(TracesOf(frame), d);
    ok := processor.ProcessEvent(header, frame, d);
    EventSurvives(header, frame, d);
    unpacked := true;
    if |processor.sink| > before {
      var body := processor.sink[before].body;
      if frame.cobo == 0 {
        unpacked := UnpackOwn(p, body, d, frame.asad, cells);
      } else {
        unpacked := UnpackForeign(p, body, d);
      }
    } else if ok {
      SilentCells(frame, d);
    }
  }
}
