/**
 The discovery worker: one poll cycle diffs the scan against what was known and queues
 events; the session list is rebuilt from those events only.

 A scan is a nondeterministic input, and so are the clock and the probes.  Maps are walked
 in an arbitrary order, which covers the key order of the original.
 */
module SessionManager {
  import opened Options
  import opened Sequences
  import opened SessionEvents
  import opened MetaDebounce

  /** What one cycle finds: no consumer, a failed channel listing, or per channel its
      sessions, None where its discovery failed. */
  datatype Scan = NoConsumer | ListFailed | Channels(found: seq<Option<map<string, Meta>>>)

  function Merged(found: seq<Option<map<string, Meta>>>): map<string, Meta> {
    if found == [] then map[]
    else Merged(found[..|found| - 1]) + found[|found| - 1].GetOr(map[])
  }

  /** A channel reports a session when its discovery succeeded and lists it. */
  ghost predicate ReportedBy(found: seq<Option<map<string, Meta>>>, i: nat, p: string) {
    i < |found| && found[i].Some? && p in found[i].value
  }

  lemma {:induction false} MergedIffReported(found: seq<Option<map<string, Meta>>>, p: string)
    ensures p in Merged(found) <==> exists i: nat :: ReportedBy(found, i, p)
  {
    if found != [] {
      var n := |found| - 1;
      MergedIffReported(found[..n], p);
      if i: nat :| ReportedBy(found[..n], i, p) { assert ReportedBy(found, i, p); }
      if i: nat :| ReportedBy(found, i, p) {
        if i < n { assert ReportedBy(found[..n], i, p); }
      }
      if found[n].Some? && p in found[n].value { assert ReportedBy(found, n, p); }
    }
  }

  /** Where several channels list a session, the metadata of the last one count. */
  lemma {:induction false} MergedIsLast(found: seq<Option<map<string, Meta>>>, i: nat, p: string)
    requires ReportedBy(found, i, p) && forall j: nat :: i < j ==> !ReportedBy(found, j, p)
    ensures p in Merged(found) && Merged(found)[p] == found[i].value[p]
    decreases |found|
  {
    var n := |found| - 1;
    if i < n {
      assert !ReportedBy(found, n, p);
      forall j: nat | i < j ensures !ReportedBy(found[..n], j, p) { assert !ReportedBy(found, j, p); }
      MergedIsLast(found[..n], i, p);
    }
  }

  /** A session that only channel `i` used to list is shown after a successful cycle exactly
      when the discovery of that channel succeeded and lists it: a failed discovery hides it. */
  lemma FailedChannelHides(found: seq<Option<map<string, Meta>>>, i: nat, p: string, probes: map<string, Probe>,
                           limits: Limits)
    requires i < |found| && Merged(found).Keys <= probes.Keys
    requires forall j: nat :: j != i ==> !ReportedBy(found, j, p)
    ensures p in Results(Merged(found).Keys, probes, limits) <==> ReportedBy(found, i, p)
    ensures found[i].None? ==> p !in Results(Merged(found).Keys, probes, limits)
  {
    MergedIffReported(found, p);
  }

  /** The outcome of probing some sessions. */
  function Results(sessions: set<string>, probes: map<string, Probe>, limits: Limits): View
    requires sessions <= probes.Keys
  {
    map p | p in sessions :: Classify(probes[p], limits)
  }

  lemma UpdatesStay(a: seq<Event>, b: seq<Event>, t: Trackers, known: set<string>, current: map<string, Meta>,
                    now: map<string, int>)
    requires current.Keys <= now.Keys
    requires forall e :: e in b ==> !e.MetaUpdated?
    requires UpdatesAre(a, t, known, current, now)
    ensures UpdatesAre(a + b, t, known, current, now) && UpdatesAre(b + a, t, known, current, now)
  {
  }

  lemma FoldStep(v: View, a: seq<Event>, b: seq<Event>, w: View, u: View)
    requires Fold(v, a) == Some(w) && Fold(w, b) == Some(u)
    ensures Fold(v, a + b) == Some(u)
  {
    FoldAppend(v, a, b);
  }

  lemma ResultsAdd(v: View, done: set<string>, p: string, probes: map<string, Probe>, limits: Limits)
    requires done + {p} <= probes.Keys
    ensures (v + Results(done, probes, limits))[p := Classify(probes[p], limits)]
      == v + Results(done + {p}, probes, limits)
  {
  }

  /** What a successful cycle leaves of a tracker: nothing when the session is gone, one poll
      further when it was known before, unchanged when it has just appeared. */
  function Tracked(t: Tracker, wasKnown: bool, found: Option<Meta>, now: int, delay: int): Tracker {
    if found.None? then UNTRACKED else if wasKnown then Next(t, found.value, now, delay) else t
  }

  function Find<T>(m: map<string, T>, p: string): Option<T> { if p in m then Some(m[p]) else None }

  /** The trackers of all sessions. */
  type Trackers = t: imap<string, Tracker> | forall p :: p in t
    ghost witness imap p: string | true :: UNTRACKED

  ghost function TrackersOf(counts: map<string, nat>, due: map<string, int>, meta: map<string, Meta>): Trackers {
    imap p: string | true :: Tracker(Find(counts, p), Find(due, p), Find(meta, p))
  }

  ghost function TrackersAfter(t: Trackers, known: set<string>, current: map<string, Meta>, now: map<string, int>,
                               delay: int): Trackers {
    imap p: string | true :: Tracked(t[p], p in known, Find(current, p), Find(now, p).GetOr(0), delay)
  }

  lemma TrackersMatch(t: Trackers, u: Trackers, known: set<string>, current: map<string, Meta>, now: map<string, int>,
                      delay: int)
    requires forall p :: u[p] == Tracked(t[p], p in known, Find(current, p), Find(now, p).GetOr(0), delay)
    ensures u == TrackersAfter(t, known, current, now, delay)
  {
  }

  /** This poll announces `m`. */
  predicate Announces(t: Tracker, meta: Meta, now: int, m: Meta) {
    Fires(t, CountAll(meta.buckets), now) && t.meta == Some(m)
  }

  /** The metadata updates among `out` are exactly those that fire in this cycle. */
  ghost predicate UpdatesAre(out: seq<Event>, t: Trackers, known: set<string>, current: map<string, Meta>,
                             now: map<string, int>)
    requires current.Keys <= now.Keys
  {
    forall p, m :: MetaUpdated(p, m) in out <==> p in current && p in known && Announces(t[p], current[p], now[p], m)
  }

  /** Exactly the new sessions are announced, with the channel and metadata of this scan, and
      exactly the sessions that are gone. */
  ghost predicate ArrivalsAre(out: seq<Event>, known: set<string>, current: map<string, Meta>) {
    && (forall p, c, m :: Appeared(p, c, m) in out <==>
          p in current && p !in known && m == current[p] && c == ChannelOf(p, m.sessionId))
    && (forall p :: Disappeared(p) in out <==> p in known && p !in current)
  }

  lemma ArrivalsStay(a: seq<Event>, b: seq<Event>, known: set<string>, current: map<string, Meta>)
    requires ArrivalsAre(a, known, current) && forall e :: e in b ==> !e.Appeared? && !e.Disappeared?
    ensures ArrivalsAre(a + b, known, current) && ArrivalsAre(b + a, known, current)
  {
    hide ChannelOf;
  }

  lemma ArrivalsJoin(a: seq<Event>, b: seq<Event>, known: set<string>, current: map<string, Meta>)
    requires (forall e :: e in a ==> e.Appeared?) && forall e :: e in b ==> e.Disappeared?
    requires forall p, c, m :: Appeared(p, c, m) in a <==>
               p in current && p !in known && m == current[p] && c == ChannelOf(p, m.sessionId)
    requires forall p :: Disappeared(p) in b <==> p in known && p !in current
    ensures ArrivalsAre(a + b, known, current) && forall e :: e in a + b ==> e.Appeared? || e.Disappeared?
  {
    hide ChannelOf;
  }

  /** The list after the sessions that came and went. */
  lemma ShownChanges(shown: View, current: set<string>, known: set<string>)
    requires shown.Keys == known
    ensures var v := shown + Newcomers(current, known) - (known - current);
      v.Keys == current && forall p :: p in current ==> v[p] == if p in shown then shown[p] else Unknown
  {
  }

  /** A status change is announced for exactly the sessions whose probe differs from the last. */
  ghost predicate ChangesAre(out: seq<Event>, last: View, current: set<string>, probes: map<string, Probe>,
                             limits: Limits)
    requires current <= probes.Keys
  {
    forall p, s :: StatusChanged(p, s) in out <==>
      p in current && s == Classify(probes[p], limits) && Find(last, p) != Some(s)
  }

  lemma ChangesStay(a: seq<Event>, b: seq<Event>, last: View, current: set<string>, probes: map<string, Probe>,
                    limits: Limits)
    requires current <= probes.Keys && ChangesAre(b, last, current, probes, limits)
    requires forall e :: e in a ==> !e.StatusChanged?
    ensures ChangesAre(a + b, last, current, probes, limits)
  {
    hide Classify, Find;
  }

  lemma NoChanges(last: View, probes: map<string, Probe>, limits: Limits)
    ensures ChangesAre([], last, {}, probes, limits)
  {
  }

  lemma ChangesOneMore(out: seq<Event>, e: seq<Event>, last: View, done: set<string>, p: string,
                       probes: map<string, Probe>, limits: Limits)
    requires done + {p} <= probes.Keys && p !in done && ChangesAre(out, last, done, probes, limits)
    requires var s := Classify(probes[p], limits);
      e == if Find(last, p) == Some(s) then [] else [StatusChanged(p, s)]
    ensures ChangesAre(out + e, last, done + {p}, probes, limits)
  {
    hide Classify, Find;
    forall q, s ensures StatusChanged(q, s) in out + e <==>
        q in done + {p} && s == Classify(probes[q], limits) && Find(last, q) != Some(s)
    {
      assert StatusChanged(q, s) in out + e <==> StatusChanged(q, s) in out || StatusChanged(q, s) in e;
    }
  }

  // ----- Whole runs ---------------------------------------------------------------------------

  /** A step of the worker: a successful cycle with what it found, a failed one, or a restart. */
  datatype Round = Cycle(current: map<string, Meta>, now: map<string, int>, delay: int) | Failed | Restart

  /** What a round means for one session. */
  function MomentOf(r: Round, p: string): Moment {
    match r
    case Cycle(current, now, delay) => if p in current then Found(current[p], Find(now, p).GetOr(0), delay) else Gone
    case Failed => NoScan
    case Restart => Restarted
  }

  function MomentsOf(h: seq<Round>, p: string): (r: seq<Moment>)
    ensures |r| == |h| && forall i :: 0 <= i < |h| ==> r[i] == MomentOf(h[i], p)
  {
    seq(|h|, i requires 0 <= i < |h| => MomentOf(h[i], p))
  }

  /** Known sessions and trackers are what the run so far makes of them. */
  ghost predicate Reached(h: seq<Round>, known: set<string>, t: Trackers) {
    forall p :: After(MomentsOf(h, p)) == Status(p in known, t[p])
  }

  /** Each round emitted exactly the metadata updates its moment announces. */
  ghost predicate Emitted(h: seq<Round>, emitted: seq<seq<Event>>) {
    |emitted| == |h| && forall i: nat, p, m ::
      i < |h| ==> (MetaUpdated(p, m) in emitted[i] <==> AnnouncedAt(MomentsOf(h, p), i, m))
  }

  lemma MomentsMore(h: seq<Round>, r: Round, p: string)
    ensures MomentsOf(h + [r], p) == MomentsOf(h, p) + [MomentOf(r, p)]
    ensures After(MomentsOf(h + [r], p)) == Turn(After(MomentsOf(h, p)), MomentOf(r, p))
  {
    var ms := MomentsOf(h, p);
    assert (ms + [MomentOf(r, p)])[..|ms|] == ms;
  }

  lemma AnnouncedStays(ms: seq<Moment>, x: Moment, i: nat, m: Meta)
    requires i < |ms|
    ensures AnnouncedAt(ms + [x], i, m) <==> AnnouncedAt(ms, i, m)
  {
    assert (ms + [x])[..i] == ms[..i];
  }

  lemma AnnouncedNow(ms: seq<Moment>, x: Moment, m: Meta)
    ensures AnnouncedAt(ms + [x], |ms|, m) <==>
            x.Found? && After(ms).known && Announces(After(ms).tracker, x.meta, x.now, m)
  {
    assert (ms + [x])[..|ms|] == ms;
  }

  /** What round `r` announces is exactly what `out` holds. */
  ghost predicate EmitsNow(h: seq<Round>, r: Round, out: seq<Event>) {
    forall p, m :: MetaUpdated(p, m) in out <==> AnnouncedAt(MomentsOf(h, p) + [MomentOf(r, p)], |h|, m)
  }

  lemma EmittedMore(h: seq<Round>, emitted: seq<seq<Event>>, r: Round, out: seq<Event>)
    requires Emitted(h, emitted) && EmitsNow(h, r, out)
    ensures Emitted(h + [r], emitted + [out])
  {
    forall i: nat, p, m | i < |h + [r]|
      ensures MetaUpdated(p, m) in (emitted + [out])[i] <==> AnnouncedAt(MomentsOf(h + [r], p), i, m)
    {
      MomentsMore(h, r, p);
      if i < |h| { AnnouncedStays(MomentsOf(h, p), MomentOf(r, p), i, m); }
    }
  }

  /** A successful cycle. */
  lemma CycleGoesOn(h: seq<Round>, known: set<string>, t: Trackers, r: Round, out: seq<Event>)
    requires Reached(h, known, t) && r.Cycle? && r.current.Keys <= r.now.Keys
    requires UpdatesAre(out, t, known, r.current, r.now)
    ensures Reached(h + [r], r.current.Keys, TrackersAfter(t, known, r.current, r.now, r.delay))
    ensures EmitsNow(h, r, out)
  {
    forall p
      ensures After(MomentsOf(h + [r], p))
           == Status(p in r.current, TrackersAfter(t, known, r.current, r.now, r.delay)[p])
    {
      MomentsMore(h, r, p);
    }
    forall p, m ensures MetaUpdated(p, m) in out <==> AnnouncedAt(MomentsOf(h, p) + [MomentOf(r, p)], |h|, m) {
      AnnouncedNow(MomentsOf(h, p), MomentOf(r, p), m);
      assert MetaUpdated(p, m) in out <==> p in r.current && p in known && Announces(t[p], r.current[p], r.now[p], m);
    }
  }

  /** A failed cycle or a restart. */
  lemma OtherGoesOn(h: seq<Round>, known: set<string>, t: Trackers, r: Round, out: seq<Event>)
    requires Reached(h, known, t) && !r.Cycle? && forall e :: e in out ==> !e.MetaUpdated?
    ensures Reached(h + [r], if r.Restart? then {} else known, t) && EmitsNow(h, r, out)
  {
    forall p ensures After(MomentsOf(h + [r], p)) == Status(p in known && !r.Restart?, t[p]) { MomentsMore(h, r, p); }
    forall p, m ensures !AnnouncedAt(MomentsOf(h, p) + [MomentOf(r, p)], |h|, m) {
      AnnouncedNow(MomentsOf(h, p), MomentOf(r, p), m);
    }
  }

  // ----- What the list should say --------------------------------------------------------------

  /** The session is known before round `i`. */
  predicate KnownAt(h: seq<Round>, i: nat, p: string)
    requires i <= |h|
  {
    After(MomentsOf(h[..i], p)).known
  }

  /** Each round announced exactly the sessions that came and went. */
  ghost predicate Announced(h: seq<Round>, emitted: seq<seq<Event>>) {
    && |emitted| == |h|
    && (forall i: nat, p, c, m :: i < |h| ==>
          (Appeared(p, c, m) in emitted[i] <==>
             && h[i].Cycle? && p in h[i].current && !KnownAt(h, i, p)
             && m == h[i].current[p] && c == ChannelOf(p, m.sessionId)))
    && (forall i: nat, p :: i < |h| ==>
          (Disappeared(p) in emitted[i] <==> h[i].Cycle? && p !in h[i].current && KnownAt(h, i, p)))
  }

  /** What round `r` announces is exactly what `out` holds. */
  ghost predicate AnnouncesNow(h: seq<Round>, r: Round, out: seq<Event>) {
    && (forall p, c, m :: Appeared(p, c, m) in out <==>
          && r.Cycle? && p in r.current && !KnownAt(h, |h|, p)
          && m == r.current[p] && c == ChannelOf(p, m.sessionId))
    && (forall p :: Disappeared(p) in out <==> r.Cycle? && p !in r.current && KnownAt(h, |h|, p))
  }

  lemma KnownStays(h: seq<Round>, r: Round, i: nat, p: string)
    requires i <= |h|
    ensures KnownAt(h + [r], i, p) == KnownAt(h, i, p)
  {
    assert (h + [r])[..i] == h[..i];
  }

  lemma AnnouncedMore(h: seq<Round>, emitted: seq<seq<Event>>, r: Round, out: seq<Event>)
    requires Announced(h, emitted) && AnnouncesNow(h, r, out)
    ensures Announced(h + [r], emitted + [out])
  {
    hide KnownAt, ChannelOf;
    forall i: nat, p | i <= |h| ensures KnownAt(h + [r], i, p) == KnownAt(h, i, p) { KnownStays(h, r, i, p); }
    assert forall i: nat :: i < |h| ==> (h + [r])[i] == h[i] && (emitted + [out])[i] == emitted[i];
  }

  lemma ReachedKnows(h: seq<Round>, known: set<string>, t: Trackers)
    requires Reached(h, known, t)
    ensures forall p :: KnownAt(h, |h|, p) <==> p in known
  {
    assert h[..|h|] == h;
    forall p ensures KnownAt(h, |h|, p) <==> p in known {
      assert After(MomentsOf(h, p)) == Status(p in known, t[p]);
    }
  }

  lemma CycleAnnounces(h: seq<Round>, known: set<string>, t: Trackers, r: Round, out: seq<Event>)
    requires Reached(h, known, t) && r.Cycle? && ArrivalsAre(out, known, r.current)
    ensures AnnouncesNow(h, r, out)
  {
    ReachedKnows(h, known, t);
    hide KnownAt, ChannelOf, Reached;
  }

  lemma OtherAnnounces(h: seq<Round>, r: Round, out: seq<Event>)
    requires !r.Cycle? && forall e :: e in out ==> !e.Appeared? && !e.Disappeared?
    ensures AnnouncesNow(h, r, out)
  {
    hide KnownAt, ChannelOf;
  }

  /** The labels that all events since the last restart make. */
  function Told(h: seq<Round>, emitted: seq<seq<Event>>): Labels
    requires |emitted| == |h|
  {
    if h == [] then map[]
    else
      var n := |h| - 1;
      RelabelAll(if h[n].Restart? then map[] else Told(h[..n], emitted[..n]), emitted[n])
  }

  lemma ToldMore(h: seq<Round>, emitted: seq<seq<Event>>, r: Round, out: seq<Event>)
    requires |emitted| == |h| && !r.Restart?
    ensures Told(h + [r], emitted + [out]) == RelabelAll(Told(h, emitted), out)
  {
    assert (h + [r])[..|h|] == h && (emitted + [out])[..|h|] == emitted;
  }

  lemma AnnouncedBefore(h: seq<Round>, emitted: seq<seq<Event>>, n: nat)
    requires Announced(h, emitted) && n < |h|
    ensures Announced(h[..n], emitted[..n])
  {
    hide KnownAt, ChannelOf;
    forall i: nat, p | i < n ensures KnownAt(h[..n], i, p) == KnownAt(h, i, p) { KnownBefore(h, n, i, p); }
    assert forall i: nat :: i < n ==> h[..n][i] == h[i] && emitted[..n][i] == emitted[i];
  }

  lemma KnownBefore(h: seq<Round>, n: nat, i: nat, p: string)
    requires i <= n <= |h|
    ensures KnownAt(h[..n], i, p) == KnownAt(h, i, p)
  {
    assert h[..n][..i] == h[..i];
  }

  /** What one round announces of one session. */
  lemma RoundMoves(h: seq<Round>, emitted: seq<seq<Event>>, i: nat, p: string)
    requires Announced(h, emitted) && i < |h|
    ensures Brings(emitted[i], p) <==> h[i].Cycle? && p in h[i].current && !KnownAt(h, i, p)
    ensures Removes(emitted[i], p) <==> h[i].Cycle? && p !in h[i].current && KnownAt(h, i, p)
  {
    hide KnownAt, ChannelOf;
    var out := emitted[i];
    if Brings(out, p) {
      var k :| 0 <= k < |out| && out[k].Appeared? && out[k].prefix == p;
      assert Appeared(p, out[k].channel, out[k].meta) in out;
    }
    if h[i].Cycle? && p in h[i].current && !KnownAt(h, i, p) {
      var m := h[i].current[p];
      assert Appeared(p, ChannelOf(p, m.sessionId), m) in out;
    }
    if Removes(out, p) {
      var k :| 0 <= k < |out| && out[k].Disappeared? && out[k].prefix == p;
      assert Disappeared(p) in out;
    }
    if h[i].Cycle? && p !in h[i].current && KnownAt(h, i, p) { assert Disappeared(p) in out; }
  }

  /** Labels are shown for exactly the known sessions. */
  lemma {:induction false} ToldIsKnown(h: seq<Round>, emitted: seq<seq<Event>>, p: string)
    requires Announced(h, emitted)
    ensures p in Told(h, emitted) <==> KnownAt(h, |h|, p)
    decreases |h|
  {
    if h != [] {
      var n := |h| - 1;
      AnnouncedBefore(h, emitted, n);
      ToldIsKnown(h[..n], emitted[..n], p);
      KnownBefore(h, n, n, p);
      RoundMoves(h, emitted, n, p);
      ShownAfter(if h[n].Restart? then map[] else Told(h[..n], emitted[..n]), emitted[n], p);
      LastRound(h, p);
      hide KnownAt, Brings, Removes, Announced;
    }
  }

  lemma LastRound(h: seq<Round>, p: string)
    requires h != []
    ensures var n := |h| - 1;
      KnownAt(h, |h|, p) <==>
        (if h[n].Cycle? then p in h[n].current else h[n].Failed? && KnownAt(h, n, p))
  {
    var n := |h| - 1;
    assert h[..|h|] == h[..n] + [h[n]];
    MomentsMore(h[..n], h[n], p);
  }

  /** The metadata shown for a session are those of its last announcement, in round `j`. */
  lemma {:induction false} ToldIsLast(h: seq<Round>, emitted: seq<seq<Event>>, p: string) returns (j: nat, e: Event)
    requires |emitted| == |h| && p in Told(h, emitted)
    ensures j < |h| && e in emitted[j] && Tells(e, p) && Told(h, emitted)[p].meta == e.meta
    ensures forall i: nat, x :: j < i < |h| && x in emitted[i] ==> !Tells(x, p)
    ensures forall i :: j < i < |h| ==> !h[i].Restart?
    decreases |h|
  {
    var n := |h| - 1;
    var before := if h[n].Restart? then map[] else Told(h[..n], emitted[..n]);
    var k := LastTold(before, emitted[n], p);
    if k >= 0 {
      j, e := n, emitted[n][k];
    } else {
      j, e := ToldIsLast(h[..n], emitted[..n], p);
    }
  }

  /** The metadata shown for a session come from a scan: the one that made it known, or the
      last rise that was announced. */
  lemma ToldIsScanned(h: seq<Round>, emitted: seq<seq<Event>>, p: string) returns (j: nat, k: nat)
    requires Emitted(h, emitted) && Announced(h, emitted) && p in Told(h, emitted)
    ensures k <= j < |h| && h[k].Cycle? && p in h[k].current && Told(h, emitted)[p].meta == h[k].current[p]
    ensures (k == j && !KnownAt(h, j, p))
         || (AnnouncedAt(MomentsOf(h, p), j, h[k].current[p]) && LastRise(MomentsOf(h, p), k, j))
    ensures forall i: nat, x :: j < i < |h| && x in emitted[i] ==> !Tells(x, p)
  {
    var e;
    hide KnownAt, ChannelOf, Told;
    j, e := ToldIsLast(h, emitted, p);
    if e.Appeared? {
      assert Appeared(p, e.channel, e.meta) in emitted[j];
      k := j;
    } else {
      assert MetaUpdated(p, e.meta) in emitted[j];
      k := EmittedFollowsLastRise(h, emitted, j, p, e.meta);
    }
  }

  // ----- The connection ---------------------------------------------------------------------------

  /** Some cycle succeeded since the last restart. */
  ghost predicate EverReached(h: seq<Round>) {
    exists i: nat :: i < |h| && h[i].Cycle? && forall j :: i < j < |h| ==> !h[j].Restart?
  }

  lemma EverReachedMore(h: seq<Round>, r: Round)
    ensures EverReached(h + [r]) <==> r.Cycle? || (EverReached(h) && !r.Restart?)
  {
    var more := h + [r];
    assert more[|h|] == r;
    if EverReached(h) && !r.Restart? {
      var i: nat :| i < |h| && h[i].Cycle? && forall j :: i < j < |h| ==> !h[j].Restart?;
      assert more[i].Cycle? && forall j :: i < j < |more| ==> !more[j].Restart?;
    }
    if EverReached(more) {
      var i: nat :| i < |more| && more[i].Cycle? && forall j :: i < j < |more| ==> !more[j].Restart?;
      if i < |h| { assert h[i].Cycle? && forall j :: i < j < |h| ==> h[j] == more[j]; }
    }
  }

  /** What the status bar should say after a run.  Only the first success since a restart is
      reported, but every failure. */
  ghost function LinkOf(h: seq<Round>): Link {
    if h == [] then NotYet
    else
      var n := |h| - 1;
      match h[n]
      case Restart => NotYet
      case Failed => Broken
      case Cycle(_, _, _) => if EverReached(h[..n]) then LinkOf(h[..n]) else Up
  }

  lemma LinkGoesOn(h: seq<Round>, r: Round, out: seq<Event>)
    requires !r.Restart? && (Connected in out <==> r.Cycle? && !EverReached(h))
    requires ConnectionError in out <==> r.Failed?
    ensures LinkAll(LinkOf(h), out) == LinkOf(h + [r])
  {
    hide EverReached;
    assert (h + [r])[..|h|] == h;
    LinkByMembers(LinkOf(h), out);
  }

  /** A restart takes back what was told and reported. */
  lemma RestartForgets(h: seq<Round>, emitted: seq<seq<Event>>)
    requires |emitted| == |h|
    ensures Told(h + [Round.Restart], emitted + [[]]) == map[] && LinkOf(h + [Round.Restart]) == NotYet
  {
  }

  /** A cycle that fails after the first success leaves the error on display however many cycles
      succeed later, until discovery is restarted. */
  lemma {:induction false} ErrorSticks(h: seq<Round>, more: seq<Round>)
    requires EverReached(h) && LinkOf(h) == Broken && forall r :: r in more ==> !r.Restart?
    ensures EverReached(h + more) && LinkOf(h + more) == Broken
    decreases |more|
  {
    if more == [] {
      assert h + more == h;
    } else {
      var n := |more| - 1;
      assert more[n] in more && forall r :: r in more[..n] ==> r in more;
      ErrorSticks(h, more[..n]);
      assert h + more == (h + more[..n]) + [more[n]];
      EverReachedMore(h + more[..n], more[n]);
      hide EverReached;
      assert ((h + more[..n]) + [more[n]])[..|h| + n] == h + more[..n];
    }
  }

  /** The display says connected exactly when no cycle failed since the first success. */
  lemma UpIff(h: seq<Round>)
    ensures LinkOf(h) == Up <==>
            exists i: nat :: i < |h| && h[i].Cycle? && !EverReached(h[..i]) && forall j :: i < j < |h| ==> h[j].Cycle?
  {
    if LinkOf(h) == Up { var i := UpHasStart(h); }
    if i: nat :| i < |h| && h[i].Cycle? && !EverReached(h[..i]) && forall j :: i < j < |h| ==> h[j].Cycle? {
      UpFromStart(h, i);
    }
  }

  lemma {:induction false} UpHasStart(h: seq<Round>) returns (i: nat)
    requires LinkOf(h) == Up
    ensures i < |h| && h[i].Cycle? && !EverReached(h[..i]) && forall j :: i < j < |h| ==> h[j].Cycle?
    decreases |h|
  {
    var n := |h| - 1;
    if EverReached(h[..n]) {
      hide EverReached;
      i := UpHasStart(h[..n]);
      assert h[..n][..i] == h[..i];
    } else {
      i := n;
    }
  }

  lemma {:induction false} UpFromStart(h: seq<Round>, i: nat)
    requires i < |h| && h[i].Cycle? && !EverReached(h[..i]) && forall j :: i < j < |h| ==> h[j].Cycle?
    ensures LinkOf(h) == Up
    decreases |h|
  {
    var n := |h| - 1;
    if i < n {
      assert h[..n][..i] == h[..i];
      UpFromStart(h[..n], i);
      assert EverReached(h[..n]) by { assert h[..n][i].Cycle?; }
    }
  }

  /** Every update the worker emitted carries the metadata of the last rise, in a scan at
      least the delay earlier; no scan in between missed the session. */
  lemma EmittedFollowsLastRise(h: seq<Round>, emitted: seq<seq<Event>>, i: nat, p: string, m: Meta) returns (k: nat)
    requires Emitted(h, emitted) && i < |h| && MetaUpdated(p, m) in emitted[i]
    ensures LastRise(MomentsOf(h, p), k, i) && h[i].Cycle? && h[k].Cycle? && p in h[k].current && m == h[k].current[p]
    ensures Find(h[i].now, p).GetOr(0) >= Find(h[k].now, p).GetOr(0) + h[k].delay
  {
    var ms := MomentsOf(h, p);
    assert AnnouncedAt(ms, i, m);
    k := FireFollowsLastRise(ms, i);
    assert MomentOf(h[i], p).Found? && MomentOf(h[k], p).Found?;
  }

  /** An emitted update says the truth, that the session gained virtual fields, exactly when
      the metadata it carries exceed the scans that found the session unknown: its first
      listing since it was last missed, and the first after each restart. */
  lemma EmittedIsGainIff(h: seq<Round>, emitted: seq<seq<Event>>, i: nat, p: string, m: Meta) returns (k: nat)
    requires Emitted(h, emitted) && i < |h| && MetaUpdated(p, m) in emitted[i]
    ensures LastRise(MomentsOf(h, p), k, i) && h[k].Cycle? && p in h[k].current && m == h[k].current[p]
    ensures Gained(MomentsOf(h, p), k) <==> AboveUnrecorded(MomentsOf(h, p), k)
  {
    var ms := MomentsOf(h, p);
    k := AnnouncementIsGainIff(ms, i, m);
    assert MomentOf(h[k], p).Found?;
  }

  /** Between two emitted updates of a session that no scan missed its highest count rose. */
  lemma RiseBetweenEmitted(h: seq<Round>, emitted: seq<seq<Event>>, i: nat, j: nat, p: string, m: Meta, n: Meta)
    requires Emitted(h, emitted) && i < j < |h| && MetaUpdated(p, m) in emitted[i] && MetaUpdated(p, n) in emitted[j]
    requires Present(MomentsOf(h, p), i, j)
    ensures CountAt(MomentsOf(h, p), i + 1) < CountAt(MomentsOf(h, p), j)
  {
    var ms := MomentsOf(h, p);
    assert AnnouncedAt(ms, i, m) && AnnouncedAt(ms, j, n);
    RiseBetweenFires(ms, i, j);
  }

  /** A rise that stays the last one is emitted, with its metadata, by the first cycle that
      polls the session at or after the deadline, or by an earlier one. */
  lemma QuietRiseIsEmitted(h: seq<Round>, emitted: seq<seq<Event>>, k: nat, j: nat, p: string) returns (i: nat)
    requires Emitted(h, emitted) && k < j < |h| && RisesAt(MomentsOf(h, p), k) && PolledAt(MomentsOf(h, p), j)
    requires Find(h[j].now, p).GetOr(0) >= Find(h[k].now, p).GetOr(0) + h[k].delay
    requires Present(MomentsOf(h, p), k, j) && forall i: nat :: k < i <= j ==> !RisesAt(MomentsOf(h, p), i)
    ensures k < i <= j && h[k].Cycle? && p in h[k].current && MetaUpdated(p, h[k].current[p]) in emitted[i]
  {
    var ms := MomentsOf(h, p);
    assert MomentOf(h[k], p).Found? && MomentOf(h[j], p).Found?;
    QuietSessionFires(ms, k, j);
    i :| k < i < j + 1 && FiresAt(ms, i);
    var l := FireFollowsLastRise(ms, i);
    assert l == k;
    assert AnnouncedAt(ms, i, ms[k].meta);
  }

  // ----- Channels ------------------------------------------------------------------------------

  /** The last place, up to `i`, where `part` starts. */
  function LastAt(s: string, part: string, i: int): Option<nat>
    decreases i + 1
  {
    if i < 0 then None
    else if i + |part| <= |s| && s[i..i + |part|] == part then Some(i)
    else LastAt(s, part, i - 1)
  }

  /** The channel a session is grouped under: its prefix up to the dot before the session id. */
  function ChannelOf(prefix: string, sessionId: string): string {
    var at: Option<nat> := if sessionId == "" then None else LastAt(prefix, sessionId, |prefix|);
    if at.Some? && 1 < at.value <= |prefix| then prefix[..at.value - 1] else prefix
  }

  lemma {:induction false} LastAtEnd(s: string, part: string, i: int)
    requires |part| <= |s| && |s| - |part| <= i && s[|s| - |part|..] == part
    ensures LastAt(s, part, i) == Some(|s| - |part|)
    decreases i
  {
    var at := |s| - |part|;
    if i > at { LastAtEnd(s, part, i - 1); } else { assert s[at..at + |part|] == part; }
  }

  predicate StandsAt(s: string, part: string, k: nat) { k + |part| <= |s| && s[k..k + |part|] == part }

  lemma {:induction false} LastAtIsThere(s: string, part: string, i: int)
    ensures var at := LastAt(s, part, i); at.Some? ==> StandsAt(s, part, at.value)
    decreases i + 1
  {
    if i >= 0 { LastAtIsThere(s, part, i - 1); }
  }

  /** A session of channel `c` is grouped under `c`. */
  lemma ChannelOfSession(c: string, id: string)
    requires id != "" && c != ""
    ensures ChannelOf(c + "." + id, id) == c
  {
    var s := c + "." + id;
    assert s[|s| - |id|..] == id && s[..|c|] == c;
    LastAtEnd(s, id, |s|);
  }

  /** A prefix that does not hold the session id is its own channel. */
  lemma ChannelOfStranger(prefix: string, id: string)
    requires id == "" || forall k: nat :: !StandsAt(prefix, id, k)
    ensures ChannelOf(prefix, id) == prefix
  {
    LastAtIsThere(prefix, id, |prefix|);
  }

  lemma NothingFolds(v: View)
    ensures Fold(v, []) == Some(v)
  {
  }

  /** What a poll hands over is what it announces. */
  lemma Announcement(t: Tracker, meta: Meta, now: int, fired: Option<Meta>)
    requires fired == if Fires(t, CountAll(meta.buckets), now) then t.meta else None
    ensures forall m :: Announces(t, meta, now, m) <==> fired == Some(m)
  {
  }

  lemma HelloIsSilent(v: View)
    ensures Fold(v, [Connected]) == Some(v)
  {
    FoldOne(v, [], Connected);
    assert [] + [Connected] == [Connected];
  }

  lemma ErrorIsSilent(v: View)
    ensures Fold(v, [ConnectionError]) == Some(v)
  {
    FoldOne(v, [], ConnectionError);
    assert [] + [ConnectionError] == [ConnectionError];
  }

  /** The part of a scan that was not known, as first shown. */
  function Newcomers(current: set<string>, known: set<string>): View { map p | p in current - known :: Unknown }

  lemma NoNewcomers(v: View, known: set<string>)
    ensures v + Newcomers({}, known) == v && {} - known == {}
  {
  }

  lemma OneNewcomer(v: View, done: set<string>, known: set<string>, p: string)
    ensures p in known ==> Newcomers(done + {p}, known) == Newcomers(done, known)
    ensures p !in known ==> (v + Newcomers(done, known))[p := Unknown] == v + Newcomers(done + {p}, known)
    ensures p !in known && p !in v && p !in done ==> p !in v + Newcomers(done, known)
  {
  }

  class SessionManager {
    var known: map<string, Meta>
    var prevLiveness: map<string, Liveness>
    var prevCount: map<string, nat>
    var deadline: map<string, int>
    var pendingMeta: map<string, Meta>
    var events: seq<Event>
    var everConnected: bool
    ghost var history: seq<Round>         // every round so far
    ghost var emitted: seq<seq<Event>>    // the events each of them pushed

    /** Liveness is known for exactly the known sessions, and a deadline is pending for
        exactly the sessions with metadata to announce. */
    ghost predicate Valid()
      reads this`known, this`prevLiveness, this`deadline, this`pendingMeta
    {
      known.Keys == prevLiveness.Keys && deadline.Keys == pendingMeta.Keys
    }

    /** The debounce maps are what the whole run makes of them, and so were the events. */
    ghost predicate Recorded()
      reads this`history, this`emitted, this`known, this`prevCount, this`deadline, this`pendingMeta, this`everConnected
    {
      && |emitted| == |history|
      && Reached(history, known.Keys, AllTrackers()) && Emitted(history, emitted) && Announced(history, emitted)
      && (everConnected <==> EverReached(history))
    }

    /** What the list should show: by Valid, every known session with its last liveness. */
    ghost function Shown(): View
      reads this`prevLiveness
    {
      prevLiveness
    }

    ghost function TrackerOf(p: string): Tracker
      reads this`prevCount, this`deadline, this`pendingMeta
    {
      Tracker(Find(prevCount, p), Find(deadline, p), Find(pendingMeta, p))
    }

    ghost function AllTrackers(): Trackers
      reads this`prevCount, this`deadline, this`pendingMeta
    {
      TrackersOf(prevCount, deadline, pendingMeta)
    }

    constructor ()
      ensures Valid() && Recorded() && Shown() == map[] && events == []
      ensures !everConnected && history == [] && emitted == []
    {
      known, prevLiveness, prevCount, deadline, pendingMeta := map[], map[], map[], map[], map[];
      events, everConnected, history, emitted := [], false, [], [];
    }

    /** Forget what was discovered, for a new connection.  Trackers of metadata updates are
        kept, as in the original. */
    method Restart()
      requires Recorded()
      modifies this`known, this`prevLiveness, this`everConnected, this`events, this`history, this`emitted
      ensures known == map[] && Shown() == map[] && events == [] && !everConnected
      ensures Recorded() && history == old(history) + [Round.Restart] && emitted == old(emitted) + [[]]
      ensures AllTrackers() == old(AllTrackers())
    {
      hide Reached, Emitted, EmitsNow, TrackersOf, Announced, AnnouncesNow, EverReached;
      OtherGoesOn(history, known.Keys, AllTrackers(), Round.Restart, []);
      EmittedMore(history, emitted, Round.Restart, []);
      OtherAnnounces(history, Round.Restart, []);
      AnnouncedMore(history, emitted, Round.Restart, []);
      EverReachedMore(history, Round.Restart);
      known, prevLiveness, everConnected := map[], map[], false;
      events := [];
      history, emitted := history + [Round.Restart], emitted + [[]];
      assert known.Keys == {};
    }

    method DrainEvents() returns (out: seq<Event>)
      modifies this`events
      ensures out == old(events) && events == []
    {
      out := events;
      events := [];
    }

    /** Sessions not known before. */
    method AnnounceAppeared(current: map<string, Meta>) returns (ghost out: seq<Event>)
      requires Valid()
      modifies this`events
      ensures events == old(events) + out
      ensures Fold(Shown(), out) == Some(Shown() + Newcomers(current.Keys, known.Keys))
      ensures forall e :: e in out ==> e.Appeared?
      ensures forall p, c, m :: Appeared(p, c, m) in out <==>
                p in current && p !in known && m == current[p] && c == ChannelOf(p, m.sessionId)
    {
      hide Fold, Newcomers, ChannelOf;
      out := [];
      var todo := current.Keys;
      NothingFolds(Shown());
      NoNewcomers(Shown(), known.Keys);
      assert current.Keys - todo == {};
      while todo != {}
        invariant todo <= current.Keys && events == old(events) + out
        invariant Fold(Shown(), out) == Some(Shown() + Newcomers(current.Keys - todo, known.Keys))
        invariant forall e :: e in out ==> e.Appeared?
        invariant forall p, c, m :: Appeared(p, c, m) in out <==>
                    p in current && p !in todo && p !in known && m == current[p] && c == ChannelOf(p, m.sessionId)
        decreases todo
      {
        var p :| p in todo;
        ghost var done := current.Keys - todo;
        todo := todo - {p};
        assert current.Keys - todo == done + {p};
        OneNewcomer(Shown(), done, known.Keys, p);
        if p !in known {
          var e := Appeared(p, ChannelOf(p, current[p].sessionId), current[p]);
          FoldOne(Shown(), out, e);
          events, out := events + [e], out + [e];
        }
      }
      assert current.Keys - todo == current.Keys;
    }

    /** Known sessions that are gone. */
    method AnnounceDisappeared(current: map<string, Meta>, ghost v: View) returns (ghost out: seq<Event>)
      requires Valid()
      modifies this`events
      ensures events == old(events) + out
      ensures Fold(v, out) == Some(v - (known.Keys - current.Keys))
      ensures forall e :: e in out ==> e.Disappeared?
      ensures forall p :: Disappeared(p) in out <==> p in known && p !in current
    {
      out := [];
      var todo := known.Keys;
      assert known.Keys - todo - current.Keys == {} && v - {} == v;
      while todo != {}
        invariant todo <= known.Keys && events == old(events) + out
        invariant Fold(v, out) == Some(v - (known.Keys - todo - current.Keys))
        invariant forall e :: e in out ==> e.Disappeared?
        invariant forall p :: Disappeared(p) in out <==> p in known && p !in todo && p !in current
        decreases todo
      {
        var p :| p in todo;
        ghost var gone := known.Keys - todo - current.Keys;
        todo := todo - {p};
        if p !in current {
          var e := Disappeared(p);
          FoldOne(v, out, e);
          assert known.Keys - todo - current.Keys == gone + {p};
          assert v - gone - {p} == v - (gone + {p});
          events, out := events + [e], out + [e];
        } else {
          assert known.Keys - todo - current.Keys == gone;
        }
      }
      assert known.Keys - todo - current.Keys == known.Keys - current.Keys;
    }

    /** A rise: the deadline starts over. */
    method Postpone(p: string, n: nat, due: int, meta: Meta)
      requires Valid()
      modifies this`prevCount, this`deadline, this`pendingMeta
      ensures Valid() && TrackerOf(p) == Tracker(Some(n), Some(due), Some(meta))
      ensures forall k :: k != p ==> TrackerOf(k) == old(TrackerOf(k))
    {
      prevCount := prevCount[p := n];
      deadline := deadline[p := due];
      pendingMeta := pendingMeta[p := meta];
    }

    /** The deadline has passed: announce what was pending. */
    method Announce(p: string) returns (meta: Meta)
      requires Valid() && p in deadline
      modifies this`events, this`deadline, this`pendingMeta
      ensures Valid() && old(TrackerOf(p)).meta == Some(meta) && events == old(events) + [MetaUpdated(p, meta)]
      ensures TrackerOf(p) == Tracker(old(TrackerOf(p)).count, None, None)
      ensures forall k :: k != p ==> TrackerOf(k) == old(TrackerOf(k))
    {
      meta := pendingMeta[p];
      events := events + [MetaUpdated(p, meta)];
      deadline := deadline - {p};
      pendingMeta := pendingMeta - {p};
    }

    /** One poll of one session. */
    method DebounceOne(p: string, meta: Meta, now: int, delay: int) returns (fired: Option<Meta>)
      requires Valid()
      modifies this`events, this`prevCount, this`deadline, this`pendingMeta
      ensures Valid()
      ensures TrackerOf(p) == Next(old(TrackerOf(p)), meta, now, delay)
      ensures forall k :: k != p ==> TrackerOf(k) == old(TrackerOf(k))
      ensures fired == if Fires(old(TrackerOf(p)), CountAll(meta.buckets), now) then old(TrackerOf(p)).meta else None
      ensures events == old(events) + if fired.Some? then [MetaUpdated(p, fired.value)] else []
    {
      hide CountAll;
      var n := CountVirtual(meta);
      var prev := if p in prevCount then prevCount[p] else 0;
      fired := None;
      if n > prev {
        Postpone(p, n, now + delay, meta);
      } else {
        if p !in prevCount { prevCount := prevCount[p := n]; }
        if p in deadline && now >= deadline[p] {
          var pending := Announce(p);
          fired := Some(pending);
        }
      }
    }

    ghost predicate Polled(p: string, current: map<string, Meta>, todo: set<string>)
      reads this`known
    {
      p in current && p in known && p !in todo
    }

    /** Debounce the metadata updates of sessions that were known before. */
    method DebounceMeta(current: map<string, Meta>, now: map<string, int>, delay: int, ghost v: View)
      returns (ghost out: seq<Event>)
      requires Valid() && current.Keys <= now.Keys
      modifies this`events, this`prevCount, this`deadline, this`pendingMeta
      ensures Valid() && events == old(events) + out && Fold(v, out) == Some(v)
      ensures forall e :: e in out ==> e.MetaUpdated?
      ensures forall p :: Polled(p, current, {}) ==> TrackerOf(p) == Next(old(TrackerOf(p)), current[p], now[p], delay)
      ensures forall p :: !Polled(p, current, {}) ==> TrackerOf(p) == old(TrackerOf(p))
      ensures forall p, m ::
        MetaUpdated(p, m) in out <==> Polled(p, current, {}) && Announces(old(TrackerOf(p)), current[p], now[p], m)
    {
      hide Next, Fires, CountAll, Fold, Announces, TrackerOf;
      out := [];
      NothingFolds(v);
      var todo := current.Keys * known.Keys;
      while todo != {}
        invariant todo <= current.Keys * known.Keys
        invariant Valid() && events == old(events) + out && Fold(v, out) == Some(v)
        invariant forall e :: e in out ==> e.MetaUpdated?
        invariant forall p ::
          Polled(p, current, todo) ==> TrackerOf(p) == Next(old(TrackerOf(p)), current[p], now[p], delay)
        invariant forall p :: !Polled(p, current, todo) ==> TrackerOf(p) == old(TrackerOf(p))
        invariant forall p, m ::
          MetaUpdated(p, m) in out <==> Polled(p, current, todo) && Announces(old(TrackerOf(p)), current[p], now[p], m)
        decreases todo
      {
        var p :| p in todo;
        assert !Polled(p, current, todo);
        todo := todo - {p};
        var fired := DebounceOne(p, current[p], now[p], delay);
        Announcement(old(TrackerOf(p)), current[p], now[p], fired);
        if fired.Some? {
          FoldOne(v, out, MetaUpdated(p, fired.value));
          out := out + [MetaUpdated(p, fired.value)];
        }
      }
    }

    method ForgetCounts(current: set<string>)
      modifies this`prevCount
      ensures prevCount == old(prevCount) - (old(prevCount).Keys - current)
    {
      var todo := prevCount.Keys;
      assert prevCount.Keys - todo - current == {};
      while todo != {}
        invariant todo <= prevCount.Keys
        invariant prevCount == old(prevCount) - (old(prevCount).Keys - todo - current)
        decreases todo
      {
        var p :| p in todo;
        todo := todo - {p};
        if p !in current { prevCount := prevCount - {p}; }
      }
    }

    /** Deadlines and metadata go together. */
    method ForgetDeadlines(current: set<string>)
      requires Valid()
      modifies this`deadline, this`pendingMeta
      ensures Valid()
      ensures deadline == old(deadline) - (old(deadline).Keys - current)
      ensures pendingMeta == old(pendingMeta) - (old(pendingMeta).Keys - current)
    {
      var todo := deadline.Keys;
      assert deadline.Keys - todo - current == {};
      while todo != {}
        invariant todo <= deadline.Keys && Valid()
        invariant deadline == old(deadline) - (old(deadline).Keys - todo - current)
        invariant pendingMeta == old(pendingMeta) - (old(deadline).Keys - todo - current)
        decreases todo
      {
        var p :| p in todo;
        todo := todo - {p};
        if p !in current {
          pendingMeta := pendingMeta - {p};
          deadline := deadline - {p};
        }
      }
    }

    /** Forget the trackers of sessions that are gone. */
    method ForgetTrackers(current: set<string>)
      requires Valid()
      modifies this`prevCount, this`deadline, this`pendingMeta
      ensures Valid()
      ensures forall p :: TrackerOf(p) == if p in current then old(TrackerOf(p)) else UNTRACKED
    {
      ForgetCounts(current);
      ForgetDeadlines(current);
    }

    /** One probe: a transition is announced, the first one from Unknown. */
    method ProbeOne(p: string, probe: Probe, limits: Limits, ghost v: View) returns (ghost out: seq<Event>)
      requires p in v && v[p] == if p in prevLiveness then prevLiveness[p] else Unknown
      modifies this`events, this`prevLiveness
      ensures events == old(events) + out && Fold(v, out) == Some(v[p := Classify(probe, limits)])
      ensures prevLiveness == old(prevLiveness)[p := Classify(probe, limits)]
      ensures var s := Classify(probe, limits);
        out == if Find(old(prevLiveness), p) == Some(s) then [] else [StatusChanged(p, s)]
    {
      out := [];
      var state := ProbeSessionLiveness(probe, limits);
      var prev := if p in prevLiveness then prevLiveness[p] else Unknown;
      if state != prev {
        events, out := events + [StatusChanged(p, state)], [StatusChanged(p, state)];
        FoldOne(v, [], StatusChanged(p, state));
        assert [] + out == out;
      } else {
        assert v[p := state] == v;
      }
      prevLiveness := prevLiveness[p := state];
    }

    /** Probe every present session and announce transitions. */
    method ProbeAll(current: map<string, Meta>, probes: map<string, Probe>, limits: Limits, ghost v: View)
      returns (ghost out: seq<Event>)
      requires current.Keys <= probes.Keys && v.Keys == current.Keys
      requires forall p :: p in current ==> v[p] == if p in prevLiveness then prevLiveness[p] else Unknown
      modifies this`events, this`prevLiveness
      ensures events == old(events) + out
      ensures prevLiveness == old(prevLiveness) + Results(current.Keys, probes, limits)
      ensures Fold(v, out) == Some(Results(current.Keys, probes, limits))
      ensures forall e :: e in out ==> e.StatusChanged?
      ensures ChangesAre(out, old(prevLiveness), current.Keys, probes, limits)
    {
      hide ChangesAre, Classify, Fold;
      out := [];
      NothingFolds(v);
      NoChanges(prevLiveness, probes, limits);
      var todo := current.Keys;
      assert current.Keys - todo == {} && v + Results({}, probes, limits) == v;
      assert prevLiveness + Results({}, probes, limits) == prevLiveness;
      while todo != {}
        invariant todo <= current.Keys && events == old(events) + out
        invariant Fold(v, out) == Some(v + Results(current.Keys - todo, probes, limits))
        invariant forall e :: e in out ==> e.StatusChanged?
        invariant ChangesAre(out, old(prevLiveness), current.Keys - todo, probes, limits)
        invariant prevLiveness == old(prevLiveness) + Results(current.Keys - todo, probes, limits)
        decreases todo
      {
        var p :| p in todo;
        ghost var done := current.Keys - todo;
        todo := todo - {p};
        assert current.Keys - todo == done + {p};
        ResultsAdd(v, done, p, probes, limits);
        ResultsAdd(old(prevLiveness), done, p, probes, limits);
        ghost var e := ProbeOne(p, probes[p], limits, v + Results(done, probes, limits));
        FoldStep(v, out, e, v + Results(done, probes, limits), v + Results(done + {p}, probes, limits));
        ChangesOneMore(out, e, old(prevLiveness), done, p, probes, limits);
        Regroup(old(events), out, e);
        out := out + e;
      }
      assert current.Keys - todo == current.Keys;
      assert v + Results(current.Keys, probes, limits) == Results(current.Keys, probes, limits);
    }

    method ForgetLiveness(current: set<string>)
      modifies this`prevLiveness
      ensures prevLiveness == old(prevLiveness) - (old(prevLiveness).Keys - current)
    {
      var todo := prevLiveness.Keys;
      assert prevLiveness.Keys - todo - current == {};
      while todo != {}
        invariant todo <= prevLiveness.Keys
        invariant prevLiveness == old(prevLiveness) - (old(prevLiveness).Keys - todo - current)
        decreases todo
      {
        var p :| p in todo;
        todo := todo - {p};
        if p !in current { prevLiveness := prevLiveness - {p}; }
      }
    }

    /** Merge what the channels report; a channel whose discovery failed reports nothing. */
    static method Gather(found: seq<Option<map<string, Meta>>>) returns (current: map<string, Meta>)
      ensures current == Merged(found)
    {
      current := map[];
      for i := 0 to |found|
        invariant current == Merged(found[..i])
      {
        assert found[..i + 1][..i] == found[..i];
        if found[i].Some? { current := current + found[i].value; } else { assert current + map[] == current; }
      }
      assert found[..|found|] == found;
    }

    /** One full discovery sweep; false when the consumer must be reset. */
    method RunOnePollCycle(scan: Scan, now: map<string, int>, delay: int, probes: map<string, Probe>, limits: Limits)
      returns (ok: bool, ghost out: seq<Event>)
      requires Valid() && Recorded()
      requires scan.Channels? ==> Merged(scan.found).Keys <= now.Keys && Merged(scan.found).Keys <= probes.Keys
      modifies this
      ensures Valid() && Recorded() && events == old(events) + out && ok == scan.Channels?
      ensures Fold(old(Shown()), out) == Some(Shown())
      ensures !ok ==> known == old(known) && Shown() == old(Shown()) && AllTrackers() == old(AllTrackers())
      ensures ok ==> known == Merged(scan.found) && Shown() == Results(known.Keys, probes, limits)
      ensures ok ==> AllTrackers() == TrackersAfter(old(AllTrackers()), old(known).Keys, known, now, delay)
      ensures ok ==> UpdatesAre(out, old(AllTrackers()), old(known).Keys, known, now)
      ensures ok ==> ArrivalsAre(out, old(known).Keys, known)
      ensures ok ==> ChangesAre(out, old(prevLiveness), known.Keys, probes, limits)
      ensures !ok ==> out == [ConnectionError]
      ensures Connected in out <==> ok && !old(everConnected)
      ensures ConnectionError in out <==> !ok
      ensures everConnected == (old(everConnected) || ok)
      ensures history == old(history) + [if ok then Cycle(known, now, delay) else Failed]
        && emitted == old(emitted) + [out]
    {
      hide Reached, Emitted, Announced, EverReached, TrackersOf, TrackersAfter, UpdatesAre, ArrivalsAre, ChangesAre,
           Fold, Merged, Results;
      ok := scan.Channels?;
      if ok {
        var current := Gather(scan.found);
        out := Sweep(current, now, delay, probes, limits);
        NoteCycle(now, delay, out, old(known).Keys, old(AllTrackers()));
      } else {
        out := Fail();
        NoteFailure(out);
      }
    }

    method Fail() returns (ghost out: seq<Event>)
      modifies this`events
      ensures events == old(events) + out && Fold(Shown(), out) == Some(Shown())
      ensures out == [ConnectionError]
    {
      events, out := events + [ConnectionError], [ConnectionError];
      ErrorIsSilent(Shown());
    }

    ghost method NoteFailure(out: seq<Event>)
      requires Recorded() && out == [ConnectionError]
      modifies this`history, this`emitted
      ensures Recorded() && history == old(history) + [Failed] && emitted == old(emitted) + [out]
    {
      hide Reached, Emitted, EmitsNow, TrackersOf, Announced, AnnouncesNow, EverReached;
      OtherGoesOn(history, known.Keys, AllTrackers(), Failed, out);
      EmittedMore(history, emitted, Failed, out);
      OtherAnnounces(history, Failed, out);
      AnnouncedMore(history, emitted, Failed, out);
      EverReachedMore(history, Failed);
      history, emitted := history + [Failed], emitted + [out];
    }

    ghost method NoteCycle(now: map<string, int>, delay: int, out: seq<Event>, was: set<string>, trackers: Trackers)
      requires Reached(history, was, trackers) && Emitted(history, emitted) && Announced(history, emitted)
      requires known.Keys <= now.Keys && UpdatesAre(out, trackers, was, known, now) && ArrivalsAre(out, was, known)
      requires everConnected
      requires AllTrackers() == TrackersAfter(trackers, was, known, now, delay)
      modifies this`history, this`emitted
      ensures Recorded() && history == old(history) + [Cycle(known, now, delay)] && emitted == old(emitted) + [out]
    {
      hide Reached, Emitted, EmitsNow, TrackersOf, TrackersAfter, UpdatesAre, Announced, AnnouncesNow, ArrivalsAre,
           EverReached;
      CycleGoesOn(history, was, trackers, Cycle(known, now, delay), out);
      EmittedMore(history, emitted, Cycle(known, now, delay), out);
      CycleAnnounces(history, was, trackers, Cycle(known, now, delay), out);
      AnnouncedMore(history, emitted, Cycle(known, now, delay), out);
      EverReachedMore(history, Cycle(known, now, delay));
      history, emitted := history + [Cycle(known, now, delay)], emitted + [out];
    }

    /** A cycle whose listing succeeded. */
    method Sweep(current: map<string, Meta>, now: map<string, int>, delay: int, probes: map<string, Probe>,
                 limits: Limits)
      returns (ghost out: seq<Event>)
      requires Valid() && current.Keys <= now.Keys && current.Keys <= probes.Keys
      modifies this`known, this`prevLiveness, this`prevCount, this`deadline, this`pendingMeta, this`events,
           this`everConnected
      ensures Valid() && events == old(events) + out && known == current
      ensures Fold(old(Shown()), out) == Some(Shown()) && Shown() == Results(known.Keys, probes, limits)
      ensures AllTrackers() == TrackersAfter(old(AllTrackers()), old(known).Keys, known, now, delay)
      ensures UpdatesAre(out, old(AllTrackers()), old(known).Keys, known, now)
      ensures ArrivalsAre(out, old(known).Keys, known)
      ensures ChangesAre(out, old(prevLiveness), known.Keys, probes, limits)
      ensures everConnected && (Connected in out <==> !old(everConnected)) && ConnectionError !in out
    {
      hide Fold, TrackersOf, TrackersAfter, UpdatesAre, ArrivalsAre, ChangesAre, Results;
      ghost var hello := [];
      NothingFolds(Shown());
      if !everConnected {
        everConnected := true;
        events, hello := events + [Connected], [Connected];
        HelloIsSilent(Shown());
      }
      ghost var more := Diff(current, now, delay, probes, limits);
      FoldStep(old(Shown()), hello, more, old(Shown()), prevLiveness);
      UpdatesStay(more, hello, old(AllTrackers()), old(known).Keys, known, now);
      ArrivalsStay(more, hello, old(known).Keys, known);
      ChangesStay(hello, more, old(prevLiveness), known.Keys, probes, limits);
      out := hello + more;
    }

    /** Steps 4 to 6: compare with the previous cycle, announce, and remember. */
    method Diff(current: map<string, Meta>, now: map<string, int>, delay: int, probes: map<string, Probe>,
                limits: Limits)
      returns (ghost out: seq<Event>)
      requires Valid() && current.Keys <= now.Keys && current.Keys <= probes.Keys
      modifies this`known, this`prevLiveness, this`prevCount, this`deadline, this`pendingMeta, this`events
      ensures Valid() && events == old(events) + out && known == current
      ensures Fold(old(Shown()), out) == Some(Shown()) && Shown() == Results(known.Keys, probes, limits)
      ensures AllTrackers() == TrackersAfter(old(AllTrackers()), old(known).Keys, known, now, delay)
      ensures UpdatesAre(out, old(AllTrackers()), old(known).Keys, known, now)
      ensures ArrivalsAre(out, old(known).Keys, known)
      ensures ChangesAre(out, old(prevLiveness), known.Keys, probes, limits)
      ensures Connected !in out && ConnectionError !in out
    {
      hide Fold, TrackersOf, TrackersAfter, UpdatesAre, ArrivalsAre, ChangesAre;
      ghost var a, v := DiffSessions(current, now, delay);
      ghost var b := DiffLiveness(current, probes, limits, v);
      known := current;
      out := a + b;
      FoldStep(old(Shown()), a, b, v, prevLiveness);
      UpdatesStay(a, b, old(AllTrackers()), old(known).Keys, current, now);
      ArrivalsStay(a, b, old(known).Keys, current);
      ChangesStay(a, b, old(prevLiveness), current.Keys, probes, limits);
    }

    /** Appeared, Disappeared and MetaUpdated; `v` is the list after those events. */
    method DiffSessions(current: map<string, Meta>, now: map<string, int>, delay: int)
      returns (ghost out: seq<Event>, ghost v: View)
      requires Valid() && current.Keys <= now.Keys
      modifies this`events, this`prevCount, this`deadline, this`pendingMeta
      ensures Valid() && events == old(events) + out && Fold(Shown(), out) == Some(v)
      ensures v.Keys == current.Keys
      ensures forall p :: p in current ==> v[p] == if p in prevLiveness then prevLiveness[p] else Unknown
      ensures AllTrackers() == TrackersAfter(old(AllTrackers()), known.Keys, current, now, delay)
      ensures UpdatesAre(out, old(AllTrackers()), known.Keys, current, now)
      ensures ArrivalsAre(out, known.Keys, current)
      ensures forall e :: e in out ==> e.Appeared? || e.Disappeared? || e.MetaUpdated?
    {
      hide ArrivalsAre, UpdatesAre, TrackersAfter, TrackersOf, Fold;
      ghost var a;
      a, v := AnnounceChanges(current);
      ghost var b := PollMeta(current, now, delay, v);
      out := a + b;
      FoldAppend(Shown(), a, b);
      ArrivalsStay(a, b, known.Keys, current);
      UpdatesStay(b, a, old(AllTrackers()), known.Keys, current, now);
    }

    method DiffLiveness(current: map<string, Meta>, probes: map<string, Probe>, limits: Limits, ghost v: View)
      returns (ghost out: seq<Event>)
      requires current.Keys <= probes.Keys && v.Keys == current.Keys
      requires forall p :: p in current ==> v[p] == if p in prevLiveness then prevLiveness[p] else Unknown
      modifies this`events, this`prevLiveness
      ensures events == old(events) + out && prevLiveness == Results(current.Keys, probes, limits)
      ensures Fold(v, out) == Some(prevLiveness)
      ensures forall e :: e in out ==> e.StatusChanged?
      ensures ChangesAre(out, old(prevLiveness), current.Keys, probes, limits)
    {
      out := ProbeAll(current, probes, limits, v);
      ForgetLiveness(current.Keys);
      assert prevLiveness == Results(current.Keys, probes, limits);
    }

    /** Who came and who went; `v` is the list after those events. */
    method AnnounceChanges(current: map<string, Meta>) returns (ghost out: seq<Event>, ghost v: View)
      requires Valid()
      modifies this`events
      ensures events == old(events) + out && Fold(Shown(), out) == Some(v) && v.Keys == current.Keys
      ensures forall p :: p in current ==> v[p] == if p in prevLiveness then prevLiveness[p] else Unknown
      ensures forall e :: e in out ==> e.Appeared? || e.Disappeared?
      ensures ArrivalsAre(out, known.Keys, current)
    {
      hide ChannelOf, Fold, Newcomers, ArrivalsAre;
      ghost var a := AnnounceAppeared(current);
      ghost var v1 := Shown() + Newcomers(current.Keys, known.Keys);
      ghost var b := AnnounceDisappeared(current, v1);
      FoldAppend(Shown(), a, b);
      ArrivalsJoin(a, b, known.Keys, current);
      ShownChanges(Shown(), current.Keys, known.Keys);
      out, v := a + b, v1 - (known.Keys - current.Keys);
    }

    method PollMeta(current: map<string, Meta>, now: map<string, int>, delay: int, ghost v: View)
      returns (ghost out: seq<Event>)
      requires Valid() && current.Keys <= now.Keys
      modifies this`events, this`prevCount, this`deadline, this`pendingMeta
      ensures Valid() && events == old(events) + out && Fold(v, out) == Some(v)
      ensures forall e :: e in out ==> e.MetaUpdated?
      ensures AllTrackers() == TrackersAfter(old(AllTrackers()), known.Keys, current, now, delay)
      ensures UpdatesAre(out, old(AllTrackers()), known.Keys, current, now)
    {
      hide Fold, Next, Fires, CountAll, Announces, CountAt, TrackersAfter;
      ghost var before := AllTrackers();
      out := DebounceMeta(current, now, delay, v);
      ForgetTrackers(current.Keys);
      forall p: string
        ensures TrackerOf(p) == Tracked(before[p], p in known, Find(current, p), Find(now, p).GetOr(0), delay)
      {
        assert Polled(p, current, {}) <==> p in current && p in known;
      }
      TrackersMatch(before, AllTrackers(), known.Keys, current, now, delay);
    }
  }
}
