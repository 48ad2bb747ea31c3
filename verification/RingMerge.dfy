/** The ring merger's forwarding loop (ringmerge/ringMergeMain.cpp): cycle over the input rings
    for ever and move one item, if there is one, to the output ring.  Producers append to any
    ring at any time. */
module RingMerge {
  import opened Euclid

  /** An item in the output ring, with the input ring it came from. */
  datatype Forwarded<T> = Forwarded(ring: nat, item: T)

  /** The rings, the output, and the ring the loop looks at next. */
  datatype State<T> = State(rings: seq<seq<T>>, output: seq<Forwarded<T>>, cursor: nat)

  /** One step of the system: a producer adds an item to a ring, or the loop visits one. */
  datatype Event<T> = Produce(ring: nat, item: T) | Visit

  function Step<T>(s: State<T>, e: Event<T>): (s': State<T>)
    requires s.cursor < |s.rings|
    ensures |s'.rings| == |s.rings| && s'.cursor < |s'.rings|
  {
    match e
    case Produce(j, x) =>
      if j < |s.rings| then s.(rings := s.rings[j := s.rings[j] + [x]]) else s
    case Visit =>
      var i := s.cursor;
      var next := if i + 1 == |s.rings| then 0 else i + 1;
      if s.rings[i] != [] then
        State(s.rings[i := s.rings[i][1..]], s.output + [Forwarded(i, s.rings[i][0])], next)
      else s.(cursor := next)
  }

  function Run<T>(s: State<T>, events: seq<Event<T>>): (s': State<T>)
    requires s.cursor < |s.rings|
    ensures |s'.rings| == |s.rings| && s'.cursor < |s'.rings|
  {
    if events == [] then s else Step(Run(s, events[..|events| - 1]), events[|events| - 1])
  }

  // ---------- what goes into and comes out of one ring ----------

  /** The items forwarded from ring j, in order. */
  function From<T>(output: seq<Forwarded<T>>, j: nat): seq<T> {
    if output == [] then []
    else
      var rest, last := From(output[..|output| - 1], j), output[|output| - 1];
      if last.ring == j then rest + [last.item] else rest
  }

  /** The items producers add to ring j, in order. */
  function Produced<T>(events: seq<Event<T>>, j: nat): seq<T> {
    if events == [] then []
    else
      var rest, last := Produced(events[..|events| - 1], j), events[|events| - 1];
      if last.Produce? && last.ring == j then rest + [last.item] else rest
  }

  function Visits<T>(events: seq<Event<T>>): nat {
    if events == [] then 0
    else Visits(events[..|events| - 1]) + if events[|events| - 1].Visit? then 1 else 0
  }

  lemma FromSnoc<T>(output: seq<Forwarded<T>>, x: Forwarded<T>, j: nat)
    ensures From(output + [x], j) == From(output, j) + if x.ring == j then [x.item] else []
  {
  }

  // ---------- lossless and in order ----------

  lemma StepConserves<T>(s: State<T>, e: Event<T>, j: nat)
    requires s.cursor < |s.rings| && j < |s.rings|
    ensures From(Step(s, e).output, j) + Step(s, e).rings[j]
         == From(s.output, j) + s.rings[j] + if e.Produce? && e.ring == j then [e.item] else []
  {
    var i := s.cursor;
    if e.Visit? && s.rings[i] != [] {
      FromSnoc(s.output, Forwarded(i, s.rings[i][0]), j);
    }
  }

  /** In every reachable state, what was forwarded from ring j followed by what waits in it is
      everything that was in the ring or was produced into it, in order: nothing is lost,
      duplicated, invented or reordered, whatever the interleaving. */
  lemma {:induction false} MergeLossless<T>(s: State<T>, events: seq<Event<T>>, j: nat)
    requires s.cursor < |s.rings| && j < |s.rings|
    ensures From(Run(s, events).output, j) + Run(s, events).rings[j]
         == From(s.output, j) + s.rings[j] + Produced(events, j)
  {
    if events != [] {
      var n := |events| - 1;
      MergeLossless(s, events[..n], j);
      StepConserves(Run(s, events[..n]), events[n], j);
    }
  }

  /** Every forwarded item comes from one of the rings. */
  lemma {:induction false} OutputFromRings<T>(s: State<T>, events: seq<Event<T>>)
    requires s.cursor < |s.rings|
    requires forall k :: 0 <= k < |s.output| ==> s.output[k].ring < |s.rings|
    ensures forall k :: 0 <= k < |Run(s, events).output| ==> Run(s, events).output[k].ring < |s.rings|
    ensures s.output <= Run(s, events).output
  {
    if events != [] { OutputFromRings(s, events[..|events| - 1]); }
  }

  // ---------- fairness ----------

  /** Cursor steps from c until ring j is visited, among n rings. */
  function Distance(c: nat, j: nat, n: nat): nat
    requires c < n && j < n
  {
    if c <= j then j - c else j + n - c
  }

  /** How many of the first v cursor steps from c visit ring j. */
  function VisitsTo(c: nat, j: nat, n: nat, v: nat): nat
    requires c < n && j < n
  {
    var dist := Distance(c, j, n);
    if v <= dist then 0 else (v - dist - 1) / n + 1
  }

  function CursorAfter(c: nat, n: nat, v: nat): nat
    requires c < n
  {
    (c + v) % n
  }

  lemma NextCursor(c: nat, n: nat, v: nat)
    requires c < n
    ensures var at := CursorAfter(c, n, v);
            CursorAfter(c, n, v + 1) == if at + 1 == n then 0 else at + 1
  {
    var q, at := (c + v) / n, (c + v) % n;
    assert c + v == q * n + at;
    if at + 1 == n {
      assert c + v + 1 == (q + 1) * n;
      Remainder(c + v + 1, q + 1, 0, n);
    } else {
      Remainder(c + v + 1, q, at + 1, n);
    }
  }

  /** A step of the cursor adds a visit to ring j exactly when the cursor is at j. */
  lemma VisitsToStep(c: nat, j: nat, n: nat, v: nat)
    requires c < n && j < n
    ensures VisitsTo(c, j, n, v + 1) == VisitsTo(c, j, n, v) + if CursorAfter(c, n, v) == j then 1 else 0
  {
    var dist := Distance(c, j, n);
    if v < dist {
      CursorBefore(c, j, n, v);
    } else {
      CursorFrom(c, j, n, v);
      QuotientStep(v - dist, n);
    }
  }

  lemma CursorBefore(c: nat, j: nat, n: nat, v: nat)
    requires c < n && j < n && v < Distance(c, j, n)
    ensures CursorAfter(c, n, v) != j
  {
  }

  lemma CursorFrom(c: nat, j: nat, n: nat, v: nat)
    requires c < n && j < n && v >= Distance(c, j, n)
    ensures CursorAfter(c, n, v) == j <==> (v - Distance(c, j, n)) % n == 0
  {
    var p, r := Turns(v - Distance(c, j, n), n);
    if c <= j {
      AtStart(c + v, p, j, r, n);
    } else {
      OneTurn(p, n);
      AtStart(c + v, p + n, j, r, n);
    }
  }

  /** n goes into p without remainder. */
  ghost predicate Whole(p: nat, n: nat) {
    exists q: nat :: p == q * n
  }

  /** k steps are some whole turns and r steps more. */
  lemma Turns(k: nat, n: nat) returns (p: nat, r: nat)
    requires n > 0
    ensures Whole(p, n) && k == p + r && r < n && r == k % n
  {
    Divided(k, n);
    p, r := k / n * n, k % n;
  }

  lemma OneTurn(p: nat, n: nat)
    requires Whole(p, n)
    ensures Whole(p + n, n)
  {
    var q: nat :| p == q * n;
    Successor(q, n);
    assert p + n == (q + 1) * n;
  }

  /** The cursor, r steps after ring j, is at j again exactly when r is 0. */
  lemma AtStart(w: nat, p: nat, j: nat, r: nat, n: nat)
    requires Whole(p, n) && w == p + j + r && j < n && r < n
    ensures w % n == j <==> r == 0
  {
    if j + r < n {
      AfterTurns(w, p, j + r, n);
    } else {
      OneTurn(p, n);
      AfterTurns(w, p + n, j + r - n, n);
    }
  }

  lemma AfterTurns(w: nat, p: nat, r: nat, n: nat)
    requires Whole(p, n) && w == p + r && r < n
    ensures w % n == r
  {
    var q: nat :| p == q * n;
    Remainder(w, q, r, n);
  }

  /** Item d of ring j goes out exactly with the visit number Distance + d * n + 1. */
  lemma VisitsToReach(c: nat, j: nat, n: nat, v: nat, d: nat)
    requires c < n && j < n
    ensures VisitsTo(c, j, n, v) >= d + 1 <==> v >= Distance(c, j, n) + d * n + 1
  {
    var dist := Distance(c, j, n);
    if v > dist {
      var k := v - dist - 1;
      var q, r := k / n, k % n;
      assert k == q * n + r;
      ProductOrder(q, d, n);
    } else {
      ProductOrder(d, 0, n);
    }
  }

  function Lesser(a: nat, b: nat): nat {
    if a <= b then a else b
  }

  /** The loop takes one item from ring j at each visit until at least the items that waited
      there at the start have gone, whatever is produced meanwhile. */
  lemma {:induction false} ForwardedCount<T>(s: State<T>, events: seq<Event<T>>, j: nat)
    requires s.cursor < |s.rings| && j < |s.rings|
    ensures var r := Run(s, events);
            var v := VisitsTo(s.cursor, j, |s.rings|, Visits(events));
            && r.cursor == CursorAfter(s.cursor, |s.rings|, Visits(events))
            && |From(s.output, j)| + Lesser(v, |s.rings[j]|) <= |From(r.output, j)| <= |From(s.output, j)| + v
  {
    var n := |s.rings|;
    if events == [] {
      Remainder(s.cursor, 0, s.cursor, n);
    } else {
      var k := |events| - 1;
      var before := Run(s, events[..k]);
      var v := Visits(events[..k]);
      ForwardedCount(s, events[..k], j);
      if events[k].Visit? {
        NextCursor(s.cursor, n, v);
        VisitsToStep(s.cursor, j, n, v);
        if before.rings[before.cursor] != [] {
          FromSnoc(before.output, Forwarded(before.cursor, before.rings[before.cursor][0]), j);
        } else if before.cursor == j {
          // an empty ring: everything that waited has gone
          MergeLossless(s, events[..k], j);
        }
      }
    }
  }

  lemma ItemPosition<T>(a: seq<T>, b: seq<T>, c: seq<T>, f: seq<T>, w: seq<T>, d: nat)
    requires f + w == a + b + c && d < |b| && |f| > |a| + d
    ensures f[|a| + d] == b[d]
  {
    assert (f + w)[|a| + d] == f[|a| + d];
    assert (a + b + c)[|a| + d] == b[d];
  }

  /** Fairness, exactly: the item at depth d of ring j has been forwarded after v cursor steps
      if and only if v reaches the distance to j plus d full turns plus one, whatever the
      producers do; it then is item number |forwarded before| + d of that ring. */
  lemma MergeFair<T>(s: State<T>, events: seq<Event<T>>, j: nat, d: nat)
    requires s.cursor < |s.rings| && j < |s.rings| && d < |s.rings[j]|
    ensures var before, after := From(s.output, j), From(Run(s, events).output, j);
            && (|after| > |before| + d <==> Visits(events) >= Distance(s.cursor, j, |s.rings|) + d * |s.rings| + 1)
            && (|after| > |before| + d ==> after[|before| + d] == s.rings[j][d])
  {
    var n := |s.rings|;
    var before, r := From(s.output, j), Run(s, events);
    ForwardedCount(s, events, j);
    VisitsToReach(s.cursor, j, n, Visits(events), d);
    if |From(r.output, j)| > |before| + d {
      MergeLossless(s, events, j);
      ItemPosition(before, s.rings[j], Produced(events, j), From(r.output, j), r.rings[j], d);
    }
  }

  /** Hence within (d + 1) * N cursor steps. */
  lemma MergeBound<T>(s: State<T>, events: seq<Event<T>>, j: nat, d: nat)
    requires s.cursor < |s.rings| && j < |s.rings| && d < |s.rings[j]|
    requires Visits(events) >= (d + 1) * |s.rings|
    ensures |From(Run(s, events).output, j)| > |From(s.output, j)| + d
    ensures From(Run(s, events).output, j)[|From(s.output, j)| + d] == s.rings[j][d]
  {
    assert (d + 1) * |s.rings| == d * |s.rings| + |s.rings|;
    MergeFair(s, events, j, d);
  }

  // ---------- the loop ----------

  /** What arrives are items produced, not visits. */
  predicate Arrivals<T>(arrivals: seq<seq<Event<T>>>) {
    forall a, k :: 0 <= a < |arrivals| && 0 <= k < |arrivals[a]| ==> arrivals[a][k].Produce?
  }

  /** The events of a pass over the rings: before each visit, the producers add what `arrivals` says. */
  function Schedule<T>(arrivals: seq<seq<Event<T>>>): seq<Event<T>> {
    if arrivals == [] then []
    else Schedule(arrivals[..|arrivals| - 1]) + arrivals[|arrivals| - 1] + [Visit]
  }

  function ScheduleAll<T>(rounds: seq<seq<seq<Event<T>>>>): seq<Event<T>> {
    if rounds == [] then [] else ScheduleAll(rounds[..|rounds| - 1]) + Schedule(rounds[|rounds| - 1])
  }

  lemma {:induction false} RunAppend<T>(s: State<T>, a: seq<Event<T>>, b: seq<Event<T>>)
    requires s.cursor < |s.rings|
    ensures Run(s, a + b) == Run(Run(s, a), b)
    decreases |b|
  {
    if b == [] {
      assert a + b == a;
    } else {
      var n := |b| - 1;
      RunAppend(s, a, b[..n]);
      assert (a + b)[..|a + b| - 1] == a + b[..n];
    }
  }

  lemma {:induction false} VisitsAppend<T>(a: seq<Event<T>>, b: seq<Event<T>>)
    ensures Visits(a + b) == Visits(a) + Visits(b)
    decreases |b|
  {
    if b == [] {
      assert a + b == a;
    } else {
      assert (a + b)[..|a + b| - 1] == a + b[..|b| - 1];
      VisitsAppend(a, b[..|b| - 1]);
    }
  }

  lemma {:induction false} NoVisits<T>(events: seq<Event<T>>)
    requires forall k :: 0 <= k < |events| ==> events[k].Produce?
    ensures Visits(events) == 0
  {
    if events != [] { NoVisits(events[..|events| - 1]); }
  }

  lemma {:induction false} VisitsOfRound<T>(round: seq<seq<Event<T>>>)
    requires Arrivals(round)
    ensures Visits(Schedule(round)) == |round|
  {
    if round != [] {
      var n := |round| - 1;
      VisitsOfRound(round[..n]);
      NoVisits(round[n]);
      VisitsAppend(Schedule(round[..n]), round[n]);
      VisitsAppend(Schedule(round[..n]) + round[n], [Visit]);
      assert Visits<T>([Visit]) == 1;
    }
  }

  lemma {:induction false} VisitsOfRounds<T>(rounds: seq<seq<seq<Event<T>>>>, n: nat)
    requires forall p :: 0 <= p < |rounds| ==> |rounds[p]| == n && Arrivals(rounds[p])
    ensures Visits(ScheduleAll(rounds)) == |rounds| * n
  {
    if rounds != [] {
      var m := |rounds| - 1;
      VisitsOfRounds(rounds[..m], n);
      VisitsOfRound(rounds[m]);
      VisitsAppend(ScheduleAll(rounds[..m]), Schedule(rounds[m]));
      Successor(m, n);
    }
  }

  /** After d + 1 rounds of the outer loop the item at depth d of any ring is in the output. */
  lemma RoundsSuffice<T>(s: State<T>, rounds: seq<seq<seq<Event<T>>>>, j: nat, d: nat)
    requires s.cursor < |s.rings| && j < |s.rings| && d < |s.rings[j]| && |rounds| > d
    requires forall p :: 0 <= p < |rounds| ==> |rounds[p]| == |s.rings| && Arrivals(rounds[p])
    ensures var after := From(Run(s, ScheduleAll(rounds)).output, j);
            |after| > |From(s.output, j)| + d && after[|From(s.output, j)| + d] == s.rings[j][d]
  {
    VisitsOfRounds(rounds, |s.rings|);
    ProductOrder(|rounds|, d + 1, |s.rings|);
    MergeBound(s, ScheduleAll(rounds), j, d);
  }

  class Merger<T> {
    var inputRings: seq<seq<T>>
    var outputRing: seq<Forwarded<T>>

    constructor (rings: seq<seq<T>>)
      ensures inputRings == rings && outputRing == []
    {
      inputRings, outputRing := rings, [];
    }

    function At(cursor: nat): State<T>
      reads this
    {
      State(inputRings, outputRing, cursor)
    }

    /** What producers do between two looks of the loop. */
    method Arrive(events: seq<Event<T>>, ghost cursor: nat)
      requires cursor < |inputRings| && forall k :: 0 <= k < |events| ==> events[k].Produce?
      modifies this
      ensures |inputRings| == old(|inputRings|)
      ensures At(cursor) == Run(old(At(cursor)), events)
    {
      var k := 0;
      while k < |events|
        invariant 0 <= k <= |events| && |inputRings| == old(|inputRings|)
        invariant At(cursor) == Run(old(At(cursor)), events[..k])
      {
        assert events[..k + 1][..k] == events[..k];
        var j := events[k].ring;
        if j < |inputRings| {
          inputRings := inputRings[j := inputRings[j] + [events[k].item]];
        }
        k := k + 1;
      }
      assert events[..k] == events;
    }

    /** The look at ring i: its first item, if there is one, goes to the output. */
    method Look(i: nat)
      requires i < |inputRings|
      modifies this
      ensures |inputRings| == old(|inputRings|)
      ensures At(if i + 1 == |inputRings| then 0 else i + 1) == Step(old(At(i)), Visit)
    {
      if inputRings[i] != [] {
        var item := inputRings[i][0];
        inputRings := inputRings[i := inputRings[i][1..]];
        outputRing := outputRing + [Forwarded(i, item)];
      }
    }

    /** One round of the inner loop: round[i] arrives before the look at ring i. */
    method Cycle(round: seq<seq<Event<T>>>)
      requires |inputRings| > 0 && |round| == |inputRings| && Arrivals(round)
      modifies this
      ensures |inputRings| == old(|inputRings|)
      ensures At(0) == Run(old(At(0)), Schedule(round))
    {
      ghost var start, n := At(0), |inputRings|;
      var i := 0;
      while i < |inputRings|
        invariant 0 <= i <= |inputRings| == n
        invariant At(if i == n then 0 else i) == Run(start, Schedule(round[..i]))
      {
        OneMoreVisit(start, round, i);
        Arrive(round[i], i);
        Look(i);
        i := i + 1;
      }
      assert round[..i] == round;
    }

    /** As many rounds of the endless outer loop as the environment has arrivals for. */
    method Forward(rounds: seq<seq<seq<Event<T>>>>)
      requires |inputRings| > 0
      requires forall p :: 0 <= p < |rounds| ==> |rounds[p]| == |inputRings| && Arrivals(rounds[p])
      modifies this
      ensures At(0) == Run(old(At(0)), ScheduleAll(rounds))
    {
      ghost var start := At(0);
      var p := 0;
      while p < |rounds|
        invariant 0 <= p <= |rounds| && |inputRings| == old(|inputRings|)
        invariant At(0) == Run(start, ScheduleAll(rounds[..p]))
      {
        assert rounds[..p + 1][..p] == rounds[..p];
        RunAppend(start, ScheduleAll(rounds[..p]), Schedule(rounds[p]));
        Cycle(rounds[p]);
        p := p + 1;
      }
      assert rounds[..p] == rounds;
    }
  }

  lemma OneMoreVisit<T>(s: State<T>, arrivals: seq<seq<Event<T>>>, step: nat)
    requires s.cursor < |s.rings| && step < |arrivals|
    ensures Run(s, Schedule(arrivals[..step + 1]))
         == Step(Run(Run(s, Schedule(arrivals[..step])), arrivals[step]), Visit)
  {
    var before, now := Schedule(arrivals[..step]), arrivals[step];
    assert arrivals[..step + 1][..step] == arrivals[..step];
    RunAppend(s, before, now);
    assert (before + now + [Visit])[..|before + now|] == before + now;
  }
}
