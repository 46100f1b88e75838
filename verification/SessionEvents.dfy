/**
 Session discovery seen from the session list: the events a poll cycle emits, what folding
 them gives, and the classification of one liveness probe.
 */
module SessionEvents {
  import opened Options

  datatype Liveness = Unknown | Live | GoingOffline | Offline | Historical

  /** A session's metadata: per counter bucket, which counters are virtual fields. */
  datatype Meta = Meta(sessionId: string, buckets: seq<seq<bool>>)

  datatype Event =
    | Appeared(prefix: string, channel: string, meta: Meta)
    | Disappeared(prefix: string)
    | StatusChanged(prefix: string, state: Liveness)
    | Connected
    | ConnectionError
    | MetaUpdated(prefix: string, meta: Meta)

  // ----- Folding events ---------------------------------------------------------------------

  /** What the list shows: its sessions and their liveness. */
  type View = map<string, Liveness>

  /** One event; None when a session already listed is added again. */
  function Apply(v: View, e: Event): Option<View> {
    match e
    case Appeared(p, _, _) => if p in v then None else Some(v[p := Unknown])
    case Disappeared(p) => Some(v - {p})
    case StatusChanged(p, s) => Some(if p in v then v[p := s] else v)
    case _ => Some(v)
  }

  function Fold(v: View, events: seq<Event>): Option<View>
    decreases |events|
  {
    if events == [] then Some(v)
    else match Apply(v, events[0]) case None => None case Some(w) => Fold(w, events[1..])
  }

  lemma {:induction false} FoldAppend(v: View, a: seq<Event>, b: seq<Event>)
    ensures Fold(v, a + b) == match Fold(v, a) case None => None case Some(w) => Fold(w, b)
    decreases |a|
  {
    if a == [] {
      assert a + b == b;
    } else {
      assert (a + b)[1..] == a[1..] + b;
      if Apply(v, a[0]).Some? { FoldAppend(Apply(v, a[0]).value, a[1..], b); }
    }
  }

  lemma FoldOne(v: View, a: seq<Event>, e: Event)
    ensures Fold(v, a + [e]) == match Fold(v, a) case None => None case Some(w) => Apply(w, e)
  {
    FoldAppend(v, a, [e]);
  }

  // ----- Channel and metadata -----------------------------------------------------------------

  /** What the list shows of a session beside its liveness. */
  datatype Label = Label(channel: string, meta: Meta)

  type Labels = map<string, Label>

  function Relabel(l: Labels, e: Event): Labels {
    match e
    case Appeared(p, c, m) => l[p := Label(c, m)]
    case Disappeared(p) => l - {p}
    case MetaUpdated(p, m) => if p in l then l[p := l[p].(meta := m)] else l
    case _ => l
  }

  function RelabelAll(l: Labels, events: seq<Event>): Labels {
    if events == [] then l
    else
      var n := |events| - 1;
      Relabel(RelabelAll(l, events[..n]), events[n])
  }

  lemma {:induction false} RelabelAppend(l: Labels, a: seq<Event>, b: seq<Event>)
    ensures RelabelAll(l, a + b) == RelabelAll(RelabelAll(l, a), b)
    decreases |b|
  {
    if b == [] {
      assert a + b == a;
    } else {
      var n := |b| - 1;
      assert (a + b)[..|a| + n] == a + b[..n];
      RelabelAppend(l, a, b[..n]);
    }
  }

  /** The event carries metadata of session `p`. */
  predicate Tells(e: Event, p: string) { (e.Appeared? || e.MetaUpdated?) && e.prefix == p }

  /** The metadata shown for a session are those of the last event that carried any; `i` is its
      place, or -1 when there was none and the metadata are what was shown before. */
  lemma {:induction false} LastTold(l: Labels, events: seq<Event>, p: string) returns (i: int)
    requires p in RelabelAll(l, events)
    ensures -1 <= i < |events| && forall j :: i < j < |events| ==> !Tells(events[j], p)
    ensures i >= 0 ==> Tells(events[i], p) && RelabelAll(l, events)[p].meta == events[i].meta
    ensures i < 0 ==> p in l && RelabelAll(l, events)[p].meta == l[p].meta
    decreases |events|
  {
    i := -1;
    if events != [] {
      var n := |events| - 1;
      if Tells(events[n], p) { return n; }
      i := LastTold(l, events[..n], p);
    }
  }

  ghost predicate Brings(events: seq<Event>, p: string) {
    exists i :: 0 <= i < |events| && events[i].Appeared? && events[i].prefix == p
  }

  ghost predicate Removes(events: seq<Event>, p: string) {
    exists i :: 0 <= i < |events| && events[i].Disappeared? && events[i].prefix == p
  }

  lemma BringsMore(events: seq<Event>, e: Event, p: string)
    ensures Brings(events + [e], p) <==> Brings(events, p) || (e.Appeared? && e.prefix == p)
    ensures Removes(events + [e], p) <==> Removes(events, p) || (e.Disappeared? && e.prefix == p)
  {
    var more := events + [e];
    assert more[|events|] == e;
    if i :| 0 <= i < |events| && events[i].Appeared? && events[i].prefix == p { assert more[i] == events[i]; }
    if i :| 0 <= i < |events| && events[i].Disappeared? && events[i].prefix == p { assert more[i] == events[i]; }
  }

  /** Events that do not both bring a session and take it off leave it shown when they bring
      it, or when it was shown and they do not take it off. */
  lemma {:induction false} ShownAfter(l: Labels, events: seq<Event>, p: string)
    requires !Brings(events, p) || !Removes(events, p)
    ensures p in RelabelAll(l, events) <==> Brings(events, p) || (p in l && !Removes(events, p))
    decreases |events|
  {
    if events != [] {
      var n := |events| - 1;
      BringsMore(events[..n], events[n], p);
      assert events == events[..n] + [events[n]];
      hide Brings, Removes;
      ShownAfter(l, events[..n], p);
    }
  }

  // ----- The connection ---------------------------------------------------------------------------

  /** What the status bar says of the broker. */
  datatype Link = NotYet | Up | Broken

  function NextLink(k: Link, e: Event): Link {
    match e case Connected => Up case ConnectionError => Broken case _ => k
  }

  function LinkAll(k: Link, events: seq<Event>): Link {
    if events == [] then k
    else
      var n := |events| - 1;
      NextLink(LinkAll(k, events[..n]), events[n])
  }

  lemma {:induction false} LinkAppend(k: Link, a: seq<Event>, b: seq<Event>)
    ensures LinkAll(k, a + b) == LinkAll(LinkAll(k, a), b)
    decreases |b|
  {
    if b == [] {
      assert a + b == a;
    } else {
      var n := |b| - 1;
      assert (a + b)[..|a| + n] == a + b[..n];
      LinkAppend(k, a, b[..n]);
    }
  }

  lemma {:induction false} LinkByMembers(k: Link, events: seq<Event>)
    requires Connected !in events || ConnectionError !in events
    ensures LinkAll(k, events)
         == if Connected in events then Up else if ConnectionError in events then Broken else k
    decreases |events|
  {
    if events != [] {
      var n := |events| - 1;
      LinkByMembers(k, events[..n]);
      assert events == events[..n] + [events[n]];
    }
  }

  // ----- Delivery ---------------------------------------------------------------------------------

  /** The worker pushes events one by one while the main thread may drain at any moment:
      what is listed, queued and still to be pushed always folds to the same view. */
  datatype Delivery = Delivery(listed: View, queue: seq<Event>, rest: seq<Event>)

  function Outcome(d: Delivery): Option<View> { Fold(d.listed, d.queue + d.rest) }

  function PushOne(d: Delivery): Delivery
    requires d.rest != []
  {
    d.(queue := d.queue + [d.rest[0]], rest := d.rest[1..])
  }

  function DrainQueue(d: Delivery): Delivery
    requires Fold(d.listed, d.queue).Some?
  {
    d.(listed := Fold(d.listed, d.queue).value, queue := [])
  }

  lemma DeliveryTimingIsIrrelevant(d: Delivery)
    ensures d.rest != [] ==> Outcome(PushOne(d)) == Outcome(d)
    ensures Outcome(d).Some? ==> Fold(d.listed, d.queue).Some? && Outcome(DrainQueue(d)) == Outcome(d)
  {
    FoldAppend(d.listed, d.queue, d.rest);
    if d.rest != [] { assert d.queue + [d.rest[0]] + d.rest[1..] == d.queue + d.rest; }
    assert [] + d.rest == d.rest;
  }

  // ----- Probing one session -------------------------------------------------------------------

  datatype Heartbeat = Heartbeat(stampMs: int, shutdown: bool)

  /** What one probe reads: the clock, a usable heartbeat if there is one, and the newest
      timestamp of every data topic. */
  datatype Probe = Probe(nowMs: int, heartbeat: Option<Heartbeat>, topicsMs: seq<int>)

  /** Thresholds in seconds. */
  datatype Limits = Limits(heartbeatLive: int, heartbeatDead: int, dataLive: int, dataDead: int)

  function ByAge(ageMs: int, live: int, dead: int): Liveness {
    if ageMs < live * 1000 then Live else if ageMs < dead * 1000 then GoingOffline else Offline
  }

  function Newest(topics: seq<int>): int {
    if topics == [] then -1
    else var n := Newest(topics[..|topics| - 1]); if topics[|topics| - 1] > n then topics[|topics| - 1] else n
  }

  function Classify(p: Probe, l: Limits): Liveness {
    match p.heartbeat
    case Some(hb) =>
      if hb.shutdown then Historical else ByAge(p.nowMs - hb.stampMs, l.heartbeatLive, l.heartbeatDead)
    case None =>
      if Newest(p.topicsMs) > 0 then ByAge(p.nowMs - Newest(p.topicsMs), l.dataLive, l.dataDead) else Offline
  }

  lemma {:induction false} NewestIsMax(topics: seq<int>)
    ensures forall t :: t in topics ==> t <= Newest(topics)
    ensures Newest(topics) == -1 || Newest(topics) in topics
  {
    if topics != [] {
      NewestIsMax(topics[..|topics| - 1]);
      assert topics == topics[..|topics| - 1] + [topics[|topics| - 1]];
    }
  }

  /** The heartbeat decides when there is one, and the freshest data otherwise. */
  method ProbeSessionLiveness(p: Probe, l: Limits) returns (state: Liveness)
    ensures state == Classify(p, l) && state != Unknown
    ensures p.heartbeat.Some? ==>
              var hb := p.heartbeat.value;
              state == if hb.shutdown then Historical
                       else if p.nowMs < hb.stampMs + 1000 * l.heartbeatLive then Live
                       else if p.nowMs < hb.stampMs + 1000 * l.heartbeatDead then GoingOffline
                       else Offline
    ensures p.heartbeat.None? ==>
              && (state == Live <==> exists t :: t in p.topicsMs && t > 0 && p.nowMs < t + 1000 * l.dataLive)
              && (state == GoingOffline <==>
                   state != Live && exists t :: t in p.topicsMs && t > 0 && p.nowMs < t + 1000 * l.dataDead)
              && (state == Live || state == GoingOffline || state == Offline)
  {
    NewestIsMax(p.topicsMs);
    if p.heartbeat.Some? {
      var hb := p.heartbeat.value;
      var age := p.nowMs - hb.stampMs;
      if hb.shutdown { return Historical; }
      if age < l.heartbeatLive * 1000 { return Live; }
      if age < l.heartbeatDead * 1000 { return GoingOffline; }
      return Offline;
    }
    if p.topicsMs == [] { return Offline; }
    var newest := -1;
    for i := 0 to |p.topicsMs|
      invariant newest == Newest(p.topicsMs[..i])
    {
      assert p.topicsMs[..i + 1][..i] == p.topicsMs[..i];
      if p.topicsMs[i] > newest { newest := p.topicsMs[i]; }
    }
    assert p.topicsMs[..|p.topicsMs|] == p.topicsMs;
    if newest > 0 {
      var age := p.nowMs - newest;
      if age < l.dataLive * 1000 { return Live; }
      if age < l.dataDead * 1000 { return GoingOffline; }
      return Offline;
    }
    state := Offline;
  }

  function Rank(s: Liveness): nat {
    match s case Unknown => 0 case Live => 1 case GoingOffline => 2 case Offline => 3 case Historical => 4
  }

  /** While nothing new arrives a session only ages: live, going offline, offline; newer data
      can only make it fresher. */
  lemma SessionsOnlyAge(p: Probe, l: Limits, later: int, more: seq<int>)
    requires later >= p.nowMs
    ensures Rank(Classify(p, l)) <= Rank(Classify(p.(nowMs := later), l))
    ensures Rank(Classify(p.(topicsMs := p.topicsMs + more), l)) <= Rank(Classify(p, l))
  {
    NewestIsMax(p.topicsMs);
    NewestIsMax(p.topicsMs + more);
    assert Newest(p.topicsMs + more) >= Newest(p.topicsMs) by {
      if Newest(p.topicsMs) in p.topicsMs { assert Newest(p.topicsMs) in p.topicsMs + more; }
      else { LowestIsMinusOne(p.topicsMs + more); }
    }
  }

  lemma {:induction false} LowestIsMinusOne(topics: seq<int>)
    ensures Newest(topics) >= -1
  {
    if topics != [] { LowestIsMinusOne(topics[..|topics| - 1]); }
  }
}
