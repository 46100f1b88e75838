/**
 Moving samples from the lock-free rings into the traces. The first batch fixes the session
 origin; times are stored relative to it.
 */
module WaveformDrain {
  import opened BoundedFifo
  import R = SpscDynamicRing
  import opened Sequences

  datatype Sample = Sample(time: real, value: real)

  /** The renderer's time axis, shared by all counters. */
  datatype Axis = Axis(hasAny: bool, origin: real, earliest: real, latest: real)

  datatype Trace = Trace(timestamps: seq<real>, values: seq<real>)

  function EarliestOf(batch: seq<Sample>): (r: real)
    requires batch != []
    ensures (exists i :: 0 <= i < |batch| && batch[i].time == r) && forall i :: 0 <= i < |batch| ==> r <= batch[i].time
  {
    if |batch| == 1 then batch[0].time
    else
      var n := |batch| - 1;
      var m := EarliestOf(batch[..n]);
      if batch[n].time < m then batch[n].time else m
  }

  /** The first data fixes the origin, unless it was set before. */
  function WithOrigin(a: Axis, batch: seq<Sample>): Axis
    requires batch != []
  {
    if !a.hasAny && a.origin <= 0.0 then a.(origin := EarliestOf(batch)) else a
  }

  function SeenAt(a: Axis, rel: real): Axis {
    a.(hasAny := true,
       latest := if rel > a.latest then rel else a.latest,
       earliest := if !a.hasAny || rel < a.earliest then rel else a.earliest)
  }

  function Seen(a: Axis, batch: seq<Sample>): (r: Axis)
    ensures r.origin == a.origin && (r.hasAny <==> a.hasAny || batch != [])
  {
    if batch == [] then a
    else
      var n := |batch| - 1;
      SeenAt(Seen(a, batch[..n]), batch[n].time - a.origin)
  }

  function Relative(batch: seq<Sample>, origin: real): (r: seq<real>)
    ensures |r| == |batch|
  {
    seq(|batch|, i requires 0 <= i < |batch| => batch[i].time - origin)
  }

  function Values(batch: seq<Sample>): (r: seq<real>)
    ensures |r| == |batch|
  {
    seq(|batch|, i requires 0 <= i < |batch| => batch[i].value)
  }

  function Extended(t: Trace, batch: seq<Sample>, origin: real): Trace {
    Trace(t.timestamps + Relative(batch, origin), t.values + Values(batch))
  }

  /** All traces of a session. */
  datatype Session = Session(axis: Axis, traces: map<nat, Trace>)

  /** One popped batch; an empty one ends the drain and changes nothing, and batches of
      unknown counters are not popped at all. */
  function Ingest(s: Session, key: nat, batch: seq<Sample>): Session {
    if batch == [] || key !in s.traces then s
    else
      var a := Seen(WithOrigin(s.axis, batch), batch);
      Session(a, s.traces[key := Extended(s.traces[key], batch, a.origin)])
  }

  datatype Arrival = Arrival(key: nat, batch: seq<Sample>)

  function IngestAll(s: Session, arrivals: seq<Arrival>): Session {
    if arrivals == [] then s
    else
      var n := |arrivals| - 1;
      Ingest(IngestAll(s, arrivals[..n]), arrivals[n].key, arrivals[n].batch)
  }

  // ----- No sample is lost, changed or reordered ------------------------------------------------

  /** The stored trace with the origin added back. */
  function Absolute(t: Trace, origin: real): seq<Sample>
    requires |t.timestamps| == |t.values|
  {
    seq(|t.values|, i requires 0 <= i < |t.values| => Sample(t.timestamps[i] + origin, t.values[i]))
  }

  /** The batches that arrived for one counter. */
  function For(arrivals: seq<Arrival>, key: nat): seq<seq<Sample>> {
    if arrivals == [] then []
    else
      var n := |arrivals| - 1;
      For(arrivals[..n], key) + if arrivals[n].key == key then [arrivals[n].batch] else []
  }

  /** A session where no counter has samples yet. */
  ghost predicate Blank(s: Session) {
    !s.axis.hasAny && forall k :: k in s.traces ==> s.traces[k] == Trace([], [])
  }

  /** Each trace, made absolute, is what arrived for it; before any data all are empty. */
  ghost predicate Faithful(s: Session, arrivals: seq<Arrival>) {
    && (forall k :: k in s.traces ==> |s.traces[k].timestamps| == |s.traces[k].values|)
    && (forall k :: k in s.traces ==> Absolute(s.traces[k], s.axis.origin) == Flatten(For(arrivals, k)))
    && (!s.axis.hasAny ==> forall k :: k in s.traces ==> s.traces[k] == Trace([], []))
  }

  lemma AbsoluteExtended(t: Trace, batch: seq<Sample>, origin: real)
    requires |t.timestamps| == |t.values|
    ensures Absolute(Extended(t, batch, origin), origin) == Absolute(t, origin) + batch
  {
    var e := Extended(t, batch, origin);
    forall i | 0 <= i < |batch| ensures Absolute(e, origin)[|t.values| + i] == batch[i] {
      assert e.timestamps[|t.values| + i] == batch[i].time - origin;
    }
  }

  lemma NewOriginIsHarmless(a: Axis, batch: seq<Sample>, t: Trace)
    requires batch != [] && |t.timestamps| == |t.values| && (!a.hasAny ==> t == Trace([], []))
    ensures Absolute(t, WithOrigin(a, batch).origin) == Absolute(t, a.origin)
  {
    if !a.hasAny { assert Absolute(t, WithOrigin(a, batch).origin) == [] == Absolute(t, a.origin); }
  }

  lemma ForMore(arrivals: seq<Arrival>, a: Arrival, key: nat)
    ensures a.key == key ==> Flatten(For(arrivals + [a], key)) == Flatten(For(arrivals, key)) + a.batch
    ensures a.key != key || a.batch == [] ==> Flatten(For(arrivals + [a], key)) == Flatten(For(arrivals, key))
  {
    assert (arrivals + [a])[..|arrivals|] == arrivals;
    if a.key == key {
      FlattenAdd(For(arrivals, key), a.batch);
      assert Flatten(For(arrivals, key)) + [] == Flatten(For(arrivals, key));
    } else {
      assert For(arrivals + [a], key) == For(arrivals, key) + [] == For(arrivals, key);
    }
  }

  lemma TraceIsFaithful(s: Session, arrivals: seq<Arrival>, a: Arrival, k: nat)
    requires Faithful(s, arrivals) && k in s.traces
    ensures var r := Ingest(s, a.key, a.batch);
      && |r.traces[k].timestamps| == |r.traces[k].values|
      && Absolute(r.traces[k], r.axis.origin) == Flatten(For(arrivals + [a], k))
  {
    ForMore(arrivals, a, k);
    var r := Ingest(s, a.key, a.batch);
    if a.batch == [] || a.key !in s.traces {
      assert r == s;
    } else {
      NewOriginIsHarmless(s.axis, a.batch, s.traces[k]);
      assert r.axis.origin == WithOrigin(s.axis, a.batch).origin;
      if k == a.key {
        AbsoluteExtended(s.traces[k], a.batch, r.axis.origin);
      } else {
        assert r.traces[k] == s.traces[k];
      }
    }
  }

  lemma IngestIsFaithful(s: Session, arrivals: seq<Arrival>, a: Arrival)
    requires Faithful(s, arrivals)
    ensures Faithful(Ingest(s, a.key, a.batch), arrivals + [a])
  {
    forall k | k in s.traces
      ensures |Ingest(s, a.key, a.batch).traces[k].timestamps| == |Ingest(s, a.key, a.batch).traces[k].values|
      ensures Absolute(Ingest(s, a.key, a.batch).traces[k], Ingest(s, a.key, a.batch).axis.origin)
        == Flatten(For(arrivals + [a], k))
    {
      TraceIsFaithful(s, arrivals, a, k);
    }
  }

  lemma {:induction false} StartsFaithful(s: Session)
    requires Blank(s)
    ensures Faithful(s, [])
  {
  }

  /** Whatever batches the samples arrive in, and however the counters take turns: every
      trace holds, the origin added back, exactly what was popped for it, in order. */
  lemma {:induction false} DrainKeepsEverySample(s: Session, arrivals: seq<Arrival>)
    requires Blank(s)
    ensures Faithful(IngestAll(s, arrivals), arrivals) && IngestAll(s, arrivals).traces.Keys == s.traces.Keys
    decreases |arrivals|
  {
    if arrivals == [] {
      StartsFaithful(s);
    } else {
      var n := |arrivals| - 1;
      DrainKeepsEverySample(s, arrivals[..n]);
      IngestIsFaithful(IngestAll(s, arrivals[..n]), arrivals[..n], arrivals[n]);
      assert arrivals == arrivals[..n] + [arrivals[n]];
    }
  }

  /** From ring to trace: in every interleaving of the consumer thread and the render thread
      on one ring, the trace is a prefix of the accepted samples. */
  lemma TraceIsPrefixOfAccepted(s: Session, key: nat, bits: nat, zero: Sample, steps: seq<R.Step<Sample>>,
                                arrivals: seq<Arrival>)
    requires Blank(s) && key in s.traces
    requires R.Run(R.Fresh(bits, zero), steps).Some?
    requires For(arrivals, key) == R.Run(R.Fresh(bits, zero), steps).value.batches
    ensures var ring, end := R.Run(R.Fresh(bits, zero), steps).value, IngestAll(s, arrivals);
      && key in end.traces && |end.traces[key].timestamps| == |end.traces[key].values|
      && Absolute(end.traces[key], end.axis.origin) <= ring.accepted
      && ring.attempted == |ring.accepted| + ring.dropped + (if ring.producer.Idle? then 0 else 1)
  {
    R.EveryInterleavingIsSafe(bits, zero, steps);
    DrainKeepsEverySample(s, arrivals);
    assert key in IngestAll(s, arrivals).traces.Keys;
  }

  /** The axis limits enclose every sample of every trace. */
  ghost predicate Encloses(s: Session) {
    && (forall k, i ::
      k in s.traces && 0 <= i < |s.traces[k].timestamps|
      ==> s.axis.earliest <= s.traces[k].timestamps[i] <= s.axis.latest)
    && (forall k :: k in s.traces && s.traces[k].timestamps != [] ==> s.axis.hasAny)
  }

  lemma {:induction false} SeenEncloses(a: Axis, batch: seq<Sample>)
    ensures var r := Seen(a, batch);
      && (a.hasAny ==> r.earliest <= a.earliest) && a.latest <= r.latest
      && forall i :: 0 <= i < |batch| ==> r.earliest <= batch[i].time - a.origin <= r.latest
  {
    if batch != [] { SeenEncloses(a, batch[..|batch| - 1]); }
  }

  lemma IngestEncloses(s: Session, key: nat, batch: seq<Sample>)
    requires Encloses(s)
    ensures Encloses(Ingest(s, key, batch))
  {
    if batch != [] && key in s.traces {
      var a := WithOrigin(s.axis, batch);
      var r := Ingest(s, key, batch);
      SeenEncloses(a, batch);
      forall k, i | k in r.traces && 0 <= i < |r.traces[k].timestamps|
        ensures r.axis.earliest <= r.traces[k].timestamps[i] <= r.axis.latest
      {
        var before := s.traces[k].timestamps;
        if i < |before| { assert r.traces[k].timestamps[i] == before[i]; }
        else { assert r.traces[k].timestamps[i] == batch[i - |before|].time - a.origin; }
      }
    }
  }

  lemma {:induction false} LimitsEncloseAll(s: Session, arrivals: seq<Arrival>)
    requires Blank(s)
    ensures Encloses(IngestAll(s, arrivals))
    decreases |arrivals|
  {
    if arrivals != [] {
      var n := |arrivals| - 1;
      LimitsEncloseAll(s, arrivals[..n]);
      IngestEncloses(IngestAll(s, arrivals[..n]), arrivals[n].key, arrivals[n].batch);
    }
  }

  // ----- Limits are reached, and where the origin comes from -------------------------------------

  /** Some stored sample has this relative time. */
  ghost predicate HasTime(s: Session, t: real) {
    exists k, i :: k in s.traces && 0 <= i < |s.traces[k].timestamps| && s.traces[k].timestamps[i] == t
  }

  ghost predicate InBatch(batch: seq<Sample>, origin: real, t: real) {
    exists i :: 0 <= i < |batch| && batch[i].time - origin == t
  }

  lemma {:induction false} SeenAttains(a: Axis, batch: seq<Sample>)
    requires batch != []
    ensures var r := Seen(a, batch);
      && ((a.hasAny && r.earliest == a.earliest) || InBatch(batch, a.origin, r.earliest))
      && (r.latest == a.latest || InBatch(batch, a.origin, r.latest))
  {
    var n := |batch| - 1;
    var before := Seen(a, batch[..n]);
    assert InBatch(batch, a.origin, batch[n].time - a.origin);
    if n > 0 {
      SeenAttains(a, batch[..n]);
      forall t | InBatch(batch[..n], a.origin, t) ensures InBatch(batch, a.origin, t) {
        var i :| 0 <= i < n && batch[..n][i].time - a.origin == t;
        assert batch[i].time - a.origin == t;
      }
    }
  }

  lemma IngestHasTimes(s: Session, key: nat, batch: seq<Sample>, t: real)
    requires batch != [] && key in s.traces
    ensures HasTime(s, t) ==> HasTime(Ingest(s, key, batch), t)
    ensures InBatch(batch, WithOrigin(s.axis, batch).origin, t) ==> HasTime(Ingest(s, key, batch), t)
  {
    var r, origin := Ingest(s, key, batch), WithOrigin(s.axis, batch).origin;
    var before := |s.traces[key].timestamps|;
    if HasTime(s, t) {
      var k, i :| k in s.traces && 0 <= i < |s.traces[k].timestamps| && s.traces[k].timestamps[i] == t;
      assert r.traces[k].timestamps[i] == t;
    }
    if InBatch(batch, origin, t) {
      var i :| 0 <= i < |batch| && batch[i].time - origin == t;
      assert r.traces[key].timestamps[before + i] == t;
    }
  }

  /** The limits are no wider than the samples: the earliest is the time of one, and the latest
      too unless it is still what it was at the start. */
  lemma {:induction false} LimitsAreReached(s: Session, arrivals: seq<Arrival>)
    requires Blank(s)
    ensures var r := IngestAll(s, arrivals);
      && (r.axis.hasAny ==> HasTime(r, r.axis.earliest))
      && (r.axis.latest == s.axis.latest || HasTime(r, r.axis.latest))
    decreases |arrivals|
  {
    if arrivals != [] {
      var n := |arrivals| - 1;
      var before, a := IngestAll(s, arrivals[..n]), arrivals[n];
      LimitsAreReached(s, arrivals[..n]);
      if a.batch != [] && a.key in before.traces {
        var r := Ingest(before, a.key, a.batch);
        hide HasTime, InBatch, IngestAll;
        SeenAttains(WithOrigin(before.axis, a.batch), a.batch);
        IngestHasTimes(before, a.key, a.batch, r.axis.earliest);
        IngestHasTimes(before, a.key, a.batch, r.axis.latest);
        ReachedStep(s, arrivals, r);
      }
    }
  }

  lemma ReachedStep(s: Session, arrivals: seq<Arrival>, r: Session)
    requires arrivals != []
    requires r == Ingest(IngestAll(s, arrivals[..|arrivals| - 1]), arrivals[|arrivals| - 1].key,
                         arrivals[|arrivals| - 1].batch)
    ensures IngestAll(s, arrivals) == r
  {
  }

  /** The arrival brings samples of a known counter. */
  predicate Counts(s: Session, a: Arrival) { a.batch != [] && a.key in s.traces }

  lemma {:induction false} NothingCounts(s: Session, arrivals: seq<Arrival>)
    requires forall i :: 0 <= i < |arrivals| ==> !Counts(s, arrivals[i])
    ensures IngestAll(s, arrivals) == s
    decreases |arrivals|
  {
    if arrivals != [] {
      var n := |arrivals| - 1;
      NothingCounts(s, arrivals[..n]);
      assert !Counts(s, arrivals[n]);
    }
  }

  /** The session origin is the earliest time of the first batch, unless a positive one was set
      before, and nothing that arrives later moves it. */
  lemma {:induction false} OriginIsFirst(s: Session, arrivals: seq<Arrival>, n: nat)
    requires Blank(s) && n < |arrivals| && Counts(s, arrivals[n])
    requires forall i :: 0 <= i < n ==> !Counts(s, arrivals[i])
    ensures var r, batch := IngestAll(s, arrivals), arrivals[n].batch;
      && r.axis.hasAny
      && (s.axis.origin > 0.0 ==> r.axis.origin == s.axis.origin)
      && (s.axis.origin <= 0.0 ==>
           && (exists i :: 0 <= i < |batch| && batch[i].time == r.axis.origin)
           && forall i :: 0 <= i < |batch| ==> r.axis.origin <= batch[i].time)
    decreases |arrivals|
  {
    var last := |arrivals| - 1;
    if n == last {
      NothingCounts(s, arrivals[..last]);
    } else {
      OriginIsFirst(s, arrivals[..last], n);
    }
  }

  // ----- The drain loop ----------------------------------------------------------------------------

  const RENDER_DRAIN_BATCH: nat := 4096

  /** The arrivals that popping these batches for one counter stands for. */
  function AllFor(key: nat, batches: seq<seq<Sample>>): (r: seq<Arrival>)
    ensures |r| == |batches|
  {
    seq(|batches|, i requires 0 <= i < |batches| => Arrival(key, batches[i]))
  }

  lemma OneBatchMore(s: Session, key: nat, batches: seq<seq<Sample>>, batch: seq<Sample>)
    ensures IngestAll(s, AllFor(key, batches + [batch])) == Ingest(IngestAll(s, AllFor(key, batches)), key, batch)
  {
    assert AllFor(key, batches + [batch])[..|batches|] == AllFor(key, batches);
  }

  lemma ExtendedByOne(t: Trace, batch: seq<Sample>, x: Sample, origin: real)
    ensures Extended(t, batch + [x], origin)
         == Trace(Extended(t, batch, origin).timestamps + [x.time - origin],
                  Extended(t, batch, origin).values + [x.value])
  {
    assert Relative(batch + [x], origin) == Relative(batch, origin) + [x.time - origin];
    assert Values(batch + [x]) == Values(batch) + [x.value];
  }

  lemma SeenOneMore(a: Axis, batch: seq<Sample>, x: Sample)
    ensures Seen(a, batch + [x]) == SeenAt(Seen(a, batch), x.time - a.origin)
  {
    assert (batch + [x])[..|batch|] == batch;
  }

  class Renderer {
    var hasAny: bool
    var origin: real
    var earliest: real
    var latest: real
    var counters: map<nat, Trace>
    const drainBuf: array<Sample>

    constructor ()
      ensures Blank(View()) && counters == map[] && drainBuf.Length == RENDER_DRAIN_BATCH && fresh(drainBuf)
    {
      hasAny, origin, earliest, latest, counters := false, 0.0, 0.0, 0.0, map[];
      drainBuf := new Sample[RENDER_DRAIN_BATCH](_ => Sample(0.0, 0.0));
    }

    ghost function View(): Session
      reads this
    {
      Session(Axis(hasAny, origin, earliest, latest), counters)
    }

    /** Lock the origin to the earliest sample of the very first batch. */
    method SetOrigin(n: nat)
      requires 0 < n <= drainBuf.Length
      modifies this`origin
      ensures View().axis == WithOrigin(old(View().axis), drainBuf[..n])
    {
      if hasAny { return; }
      var early := drainBuf[0].time;
      assert drainBuf[..1] == [drainBuf[0]];
      for i := 1 to n
        invariant early == EarliestOf(drainBuf[..i])
      {
        assert drainBuf[..i + 1][..i] == drainBuf[..i];
        if drainBuf[i].time < early { early := drainBuf[i].time; }
      }
      if origin <= 0.0 { origin := early; }
    }

    /** Append one sample and widen the limits. */
    method Append(key: nat, x: Sample)
      requires key in counters
      modifies this`hasAny, this`earliest, this`latest, this`counters
      ensures View().axis == SeenAt(old(View().axis), x.time - origin)
      ensures var t := old(counters)[key];
        counters == old(counters)[key := Trace(t.timestamps + [x.time - origin], t.values + [x.value])]
    {
      var rel := x.time - origin;
      var cd := counters[key];
      counters := counters[key := Trace(cd.timestamps + [rel], cd.values + [x.value])];
      if rel > latest { latest := rel; }
      if !hasAny || rel < earliest { earliest := rel; }
      hasAny := true;
    }

    method AppendAll(key: nat, n: nat)
      requires n <= drainBuf.Length && key in counters
      modifies this`hasAny, this`earliest, this`latest, this`counters
      ensures View().axis == Seen(old(View().axis), drainBuf[..n])
      ensures counters == old(counters)[key := Extended(old(counters)[key], drainBuf[..n], origin)]
    {
      ghost var was := counters[key];
      assert Extended(was, [], origin) == was;
      for i := 0 to n
        invariant View().axis == Seen(old(View().axis), drainBuf[..i])
        invariant counters == old(counters)[key := Extended(was, drainBuf[..i], origin)]
      {
        SeenOneMore(old(View().axis), drainBuf[..i], drainBuf[i]);
        ExtendedByOne(was, drainBuf[..i], drainBuf[i], origin);
        assert drainBuf[..i + 1] == drainBuf[..i] + [drainBuf[i]];
        Append(key, drainBuf[i]);
      }
    }

    /** One popped batch, in the scratch buffer. */
    method IngestBatch(key: nat, n: nat)
      requires 0 < n <= drainBuf.Length && key in counters
      modifies this
      ensures View() == Ingest(old(View()), key, drainBuf[..n]) && key in counters
    {
      SetOrigin(n);
      AppendAll(key, n);
    }

    /** Pop batches until the ring is empty; everything it held ends up in the counter's trace. */
    method DrainRingBuffer(key: nat, ring: R.SpscDynamicRing?<Sample>) returns (ghost batches: seq<seq<Sample>>)
      requires drainBuf.Length > 0 && (ring != null ==> ring.Valid() && ring.data != drainBuf)
      modifies this, drainBuf, if ring != null then {ring} else {}
      ensures ring == null || key !in old(counters) ==> batches == []
      ensures ring != null ==> ring.Valid()
      ensures ring != null ==> ring.Contents() == if key in old(counters) then [] else old(ring.Contents())
      ensures ring != null && key in old(counters) ==> Flatten(batches) == old(ring.Contents())
      ensures View() == IngestAll(old(View()), AllFor(key, batches))
    {
      hide Ingest, IngestAll, AllFor, Flatten;
      batches := [];
      NothingPopped(View(), key);
      if ring == null || key !in counters { return; }
      var n: nat := 1;
      while n != 0
        invariant ring.Valid() && key in counters && (n == 0 ==> ring.Contents() == [])
        invariant old(ring.Contents()) == Flatten(batches) + ring.Contents()
        invariant View() == IngestAll(old(View()), AllFor(key, batches))
        decreases |ring.Contents()|, n
      {
        n := PopAndIngest(key, ring, old(ring.Contents()), old(View()), batches);
        if n != 0 { batches := batches + [drainBuf[..n]]; }
      }
    }

    /** One turn of the drain loop. */
    method PopAndIngest(key: nat, ring: R.SpscDynamicRing<Sample>, ghost all: seq<Sample>, ghost start: Session,
                        ghost batches: seq<seq<Sample>>)
      returns (n: nat)
      requires drainBuf.Length > 0 && ring.Valid() && ring.data != drainBuf && key in counters
      requires all == Flatten(batches) + ring.Contents() && View() == IngestAll(start, AllFor(key, batches))
      modifies this, drainBuf, ring
      ensures ring.Valid() && key in counters && n <= drainBuf.Length
      ensures n == 0 ==> ring.Contents() == [] && View() == old(View()) && old(ring.Contents()) == []
      ensures n != 0 ==> |ring.Contents()| < |old(ring.Contents())|
      ensures n != 0 ==> all == Flatten(batches + [drainBuf[..n]]) + ring.Contents()
      ensures n != 0 ==> View() == IngestAll(start, AllFor(key, batches + [drainBuf[..n]]))
    {
      hide Ingest, IngestAll, AllFor, Flatten;
      n := ring.PopBatch(drainBuf, drainBuf.Length);
      if n == 0 { return; }
      ghost var batch := drainBuf[..n];
      OneBatchMore(start, key, batches, batch);
      FlattenAdd(batches, batch);
      Regroup(Flatten(batches), batch, ring.Contents());
      IngestBatch(key, n);
    }
  }

  lemma NothingPopped(s: Session, key: nat)
    ensures IngestAll(s, AllFor(key, [])) == s && Flatten<Sample>([]) == []
  {
  }

}
