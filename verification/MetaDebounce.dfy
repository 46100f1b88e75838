/**
 The debounce of metadata updates of one session: a rise of its virtual-field count sets a
 deadline, and the update fires at the first later poll that finds the deadline passed.
 */
module MetaDebounce {
  import opened Options
  import opened SessionEvents

  /** Highest count seen, and the deadline and metadata of the last rise while pending. */
  datatype Tracker = Tracker(count: Option<nat>, due: Option<int>, meta: Option<Meta>)

  const UNTRACKED := Tracker(None, None, None)

  function CountIn(bucket: seq<bool>): nat {
    if bucket == [] then 0 else CountIn(bucket[..|bucket| - 1]) + if bucket[|bucket| - 1] then 1 else 0
  }

  function CountAll(buckets: seq<seq<bool>>): nat {
    if buckets == [] then 0 else CountAll(buckets[..|buckets| - 1]) + CountIn(buckets[|buckets| - 1])
  }

  /** The virtual fields: bucket `i`, counter `j`. */
  ghost function VirtualFields(buckets: seq<seq<bool>>): set<(nat, nat)> {
    set i: nat, j: nat | i < |buckets| && j < |buckets[i]| && buckets[i][j] :: (i, j)
  }

  ghost function InBucket(bucket: seq<bool>, i: nat): set<(nat, nat)> {
    set j: nat | j < |bucket| && bucket[j] :: (i, j)
  }

  lemma {:induction false} CountInIsSize(bucket: seq<bool>, i: nat)
    ensures CountIn(bucket) == |InBucket(bucket, i)|
  {
    if bucket == [] {
      assert InBucket(bucket, i) == {};
    } else {
      var n := |bucket| - 1;
      CountInIsSize(bucket[..n], i);
      assert InBucket(bucket, i) == InBucket(bucket[..n], i) + if bucket[n] then {(i, n)} else {};
    }
  }

  /** The count is the number of virtual fields. */
  lemma {:induction false} CountAllIsSize(buckets: seq<seq<bool>>)
    ensures CountAll(buckets) == |VirtualFields(buckets)|
  {
    if buckets == [] {
      assert VirtualFields(buckets) == {};
    } else {
      var n := |buckets| - 1;
      CountAllIsSize(buckets[..n]);
      CountInIsSize(buckets[n], n);
      assert VirtualFields(buckets) == VirtualFields(buckets[..n]) + InBucket(buckets[n], n);
    }
  }

  method CountVirtual(meta: Meta) returns (n: nat)
    ensures n == CountAll(meta.buckets)
    ensures n == |set i: nat, j: nat | i < |meta.buckets| && j < |meta.buckets[i]| && meta.buckets[i][j] :: (i, j)|
  {
    CountAllIsSize(meta.buckets);
    n := 0;
    for i := 0 to |meta.buckets|
      invariant n == CountAll(meta.buckets[..i])
    {
      assert meta.buckets[..i + 1][..i] == meta.buckets[..i];
      var bucket := meta.buckets[i];
      ghost var was := n;
      for j := 0 to |bucket|
        invariant n == was + CountIn(bucket[..j])
      {
        assert bucket[..j + 1][..j] == bucket[..j];
        if bucket[j] { n := n + 1; }
      }
      assert bucket[..|bucket|] == bucket;
    }
    assert meta.buckets[..|meta.buckets|] == meta.buckets;
  }

  predicate Rises(t: Tracker, n: nat) { n > t.count.GetOr(0) }

  /** The deadline has passed without a further rise. */
  predicate Fires(t: Tracker, n: nat, now: int) { !Rises(t, n) && t.due.Some? && now >= t.due.value }

  /** One poll of a session that was already known. */
  function Next(t: Tracker, meta: Meta, now: int, delay: int): Tracker {
    var n := CountAll(meta.buckets);
    if Rises(t, n) then Tracker(Some(n), Some(now + delay), Some(meta))
    else Tracker(if t.count.None? then Some(n) else t.count,
                 if Fires(t, n, now) then None else t.due,
                 if Fires(t, n, now) then None else t.meta)
  }

  // ----- Whole runs, as one session sees them ------------------------------------------------------

  /** What one step of the worker means for one session: its scan listed it or did not, the
      cycle failed, or discovery was restarted. */
  datatype Moment = Found(meta: Meta, now: int, delay: int) | Gone | NoScan | Restarted

  datatype Status = Status(known: bool, tracker: Tracker)

  const START := Status(false, UNTRACKED)

  /** The first scan that lists a session only makes it known; a restart keeps the tracker. */
  function Turn(s: Status, m: Moment): Status {
    match m
    case Found(meta, now, delay) => Status(true, if s.known then Next(s.tracker, meta, now, delay) else s.tracker)
    case Gone => START
    case NoScan => s
    case Restarted => s.(known := false)
  }

  function After(ms: seq<Moment>): Status {
    if ms == [] then START else Turn(After(ms[..|ms| - 1]), ms[|ms| - 1])
  }

  function TrackerAt(ms: seq<Moment>, n: nat): Tracker
    requires n <= |ms|
  {
    After(ms[..n]).tracker
  }

  /** The recorded count before moment `n`. */
  function CountAt(ms: seq<Moment>, n: nat): nat
    requires n <= |ms|
  {
    TrackerAt(ms, n).count.GetOr(0)
  }

  predicate PolledAt(ms: seq<Moment>, k: nat) { k < |ms| && ms[k].Found? && After(ms[..k]).known }

  predicate RisesAt(ms: seq<Moment>, k: nat) {
    PolledAt(ms, k) && Rises(TrackerAt(ms, k), CountAll(ms[k].meta.buckets))
  }

  predicate FiresAt(ms: seq<Moment>, k: nat) {
    PolledAt(ms, k) && Fires(TrackerAt(ms, k), CountAll(ms[k].meta.buckets), ms[k].now)
  }

  /** Moment `k` announces `m`. */
  predicate AnnouncedAt(ms: seq<Moment>, k: nat, m: Meta) { FiresAt(ms, k) && TrackerAt(ms, k).meta == Some(m) }

  /** No scan from moment `i` up to `j` missed the session. */
  ghost predicate Present(ms: seq<Moment>, i: nat, j: nat)
    requires j <= |ms|
  {
    forall k :: i <= k < j ==> !ms[k].Gone?
  }

  lemma TurnAt(ms: seq<Moment>, k: nat)
    requires k < |ms|
    ensures After(ms[..k + 1]) == Turn(After(ms[..k]), ms[k])
  {
    assert ms[..k + 1][..k] == ms[..k];
  }

  /** A recorded absence starts the story of a session afresh. */
  lemma {:induction false} AbsenceForgets(p: seq<Moment>, q: seq<Moment>)
    ensures After(p + [Gone] + q) == After(q)
    decreases |q|
  {
    var ms := p + [Gone] + q;
    if q == [] {
      assert ms[..|ms| - 1] == p;
    } else {
      var n := |q| - 1;
      AbsenceForgets(p, q[..n]);
      assert ms[..|ms| - 1] == p + [Gone] + q[..n];
    }
  }

  /** The polls since the session was last missed. */
  function PollsSince(ms: seq<Moment>): seq<Moment> {
    if ms == [] then []
    else
      var n := |ms| - 1;
      if ms[n].Gone? then [] else PollsSince(ms[..n]) + if PolledAt(ms, n) then [ms[n]] else []
  }

  function Polled(t: Tracker, polls: seq<Moment>): Tracker
    requires forall m :: m in polls ==> m.Found?
  {
    if polls == [] then t
    else
      var last := polls[|polls| - 1];
      Next(Polled(t, polls[..|polls| - 1]), last.meta, last.now, last.delay)
  }

  /** Through failed cycles and restarts a tracker is what the polls since the last recorded
      absence make of an empty one. */
  lemma {:induction false} TrackerIsPolls(ms: seq<Moment>)
    ensures forall m :: m in PollsSince(ms) ==> m.Found?
    ensures After(ms).tracker == Polled(UNTRACKED, PollsSince(ms))
  {
    if ms != [] {
      var n := |ms| - 1;
      TrackerIsPolls(ms[..n]);
      var before := PollsSince(ms[..n]);
      assert before + [] == before;
      assert (before + [ms[n]])[..|before|] == before;
    }
  }

  /** Moment `k` is the last rise before moment `n`; nothing fired since, and no scan missed
      the session. */
  ghost predicate LastRise(ms: seq<Moment>, k: nat, n: nat) {
    && k < n <= |ms| && RisesAt(ms, k)
    && forall j :: k < j < n ==> !RisesAt(ms, j) && !FiresAt(ms, j) && !ms[j].Gone?
  }

  lemma LastRiseGoesOn(ms: seq<Moment>, k: nat, n: nat)
    requires LastRise(ms, k, n) && n < |ms| && !RisesAt(ms, n) && !FiresAt(ms, n) && !ms[n].Gone?
    ensures LastRise(ms, k, n + 1)
  {
  }

  /** A pending deadline and its metadata come from the last rise. */
  lemma {:induction false} PendingSince(ms: seq<Moment>, n: nat) returns (k: nat)
    requires n <= |ms| && TrackerAt(ms, n).due.Some?
    ensures LastRise(ms, k, n)
    ensures TrackerAt(ms, n).due == Some(ms[k].now + ms[k].delay)
    ensures TrackerAt(ms, n).meta == Some(ms[k].meta)
  {
    TurnAt(ms, n - 1);
    if RisesAt(ms, n - 1) {
      k := n - 1;
    } else {
      k := PendingSince(ms, n - 1);
      LastRiseGoesOn(ms, k, n - 1);
    }
  }

  /** An update fires only once the delay has passed since the last rise, and carries the
      metadata of that rise. */
  lemma FireFollowsLastRise(ms: seq<Moment>, j: nat) returns (k: nat)
    requires FiresAt(ms, j)
    ensures LastRise(ms, k, j) && ms[j].now >= ms[k].now + ms[k].delay
    ensures AnnouncedAt(ms, j, ms[k].meta)
  {
    k := PendingSince(ms, j);
  }

  ghost predicate FiresWithin(ms: seq<Moment>, k: nat, j: nat) { exists i: nat :: k < i < j && FiresAt(ms, i) }

  /** Once a known session stays put past the deadline of its last rise, the update has fired. */
  lemma {:induction false} QuietSessionFires(ms: seq<Moment>, k: nat, j: nat)
    requires k < j && RisesAt(ms, k) && PolledAt(ms, j) && ms[j].now >= ms[k].now + ms[k].delay
    requires Present(ms, k, j) && forall i: nat :: k < i <= j ==> !RisesAt(ms, i)
    ensures FiresWithin(ms, k, j + 1)
  {
    DuePersists(ms, k, j);
    assert !RisesAt(ms, j);
    if !FiresWithin(ms, k, j) { assert FiresAt(ms, j); }
  }

  lemma {:induction false} DuePersists(ms: seq<Moment>, k: nat, j: nat)
    requires k < j < |ms| && RisesAt(ms, k) && Present(ms, k, j)
    requires forall i: nat :: k < i < j ==> !RisesAt(ms, i)
    ensures FiresWithin(ms, k, j) || TrackerAt(ms, j).due == Some(ms[k].now + ms[k].delay)
    decreases j
  {
    TurnAt(ms, j - 1);
    if k < j - 1 {
      DuePersists(ms, k, j - 1);
      assert !RisesAt(ms, j - 1);
      if FiresAt(ms, j - 1) { assert FiresWithin(ms, k, j); }
    }
  }

  lemma {:induction false} CountNeverFalls(ms: seq<Moment>, i: nat, j: nat)
    requires i <= j <= |ms| && Present(ms, i, j)
    ensures CountAt(ms, i) <= CountAt(ms, j)
    decreases j
  {
    if i < j {
      TurnAt(ms, j - 1);
      CountNeverFalls(ms, i, j - 1);
    }
  }

  /** The recorded count is at least what any poll since the last absence counted... */
  lemma CountCovers(ms: seq<Moment>, k: nat, n: nat)
    requires k < n <= |ms| && PolledAt(ms, k) && Present(ms, k, n)
    ensures CountAll(ms[k].meta.buckets) <= CountAt(ms, n)
  {
    TurnAt(ms, k);
    CountNeverFalls(ms, k + 1, n);
  }

  ghost predicate CountedBy(ms: seq<Moment>, k: nat, n: nat, count: nat)
    requires n <= |ms|
  {
    k < n && PolledAt(ms, k) && Present(ms, k, n) && CountAll(ms[k].meta.buckets) == count
  }

  /** ...and one of them counted it. */
  lemma {:induction false} CountAttained(ms: seq<Moment>, n: nat)
    requires n <= |ms|
    ensures CountAt(ms, n) == 0 || exists k: nat :: CountedBy(ms, k, n, CountAt(ms, n))
  {
    if n > 0 && CountAt(ms, n) != 0 {
      TurnAt(ms, n - 1);
      if RisesAt(ms, n - 1) {
        assert CountedBy(ms, n - 1, n, CountAt(ms, n));
      } else {
        CountAttained(ms, n - 1);
        var k: nat :| CountedBy(ms, k, n - 1, CountAt(ms, n - 1));
        assert CountedBy(ms, k, n, CountAt(ms, n));
      }
    }
  }

  /** Between two updates of a session that no scan missed the highest count strictly rose. */
  lemma RiseBetweenFires(ms: seq<Moment>, i: nat, j: nat)
    requires i < j && FiresAt(ms, i) && FiresAt(ms, j) && Present(ms, i, j)
    ensures CountAt(ms, i + 1) < CountAt(ms, j)
  {
    var k := PendingSince(ms, j);
    TurnAt(ms, i);
    TurnAt(ms, k);
    assert k > i;
    CountNeverFalls(ms, i + 1, k);
    CountNeverFalls(ms, k + 1, j);
  }

  // ----- What a session gained -------------------------------------------------------------------

  /** Scan `i` listed the session, and none from it up to moment `k` missed it. */
  ghost predicate ListedSince(ms: seq<Moment>, i: nat, k: nat)
    requires k <= |ms|
  {
    i < k && ms[i].Found? && Present(ms, i, k)
  }

  /** The metadata of moment `k` hold more virtual fields than every scan that listed the
      session since it was last missed. */
  ghost predicate Gained(ms: seq<Moment>, k: nat) {
    && k < |ms| && ms[k].Found?
    && forall i: nat :: ListedSince(ms, i, k) ==> CountAll(ms[i].meta.buckets) < CountAll(ms[k].meta.buckets)
  }

  /** The same for the scans whose count is not recorded: those that found the session
      unknown, which are the first listing and the first after each restart. */
  ghost predicate AboveUnrecorded(ms: seq<Moment>, k: nat) {
    && k < |ms| && ms[k].Found?
    && forall i: nat :: ListedSince(ms, i, k) && !After(ms[..i]).known ==>
         CountAll(ms[i].meta.buckets) < CountAll(ms[k].meta.buckets)
  }

  lemma {:induction false} KnownWasListed(ms: seq<Moment>, k: nat) returns (i: nat)
    requires k <= |ms| && After(ms[..k]).known
    ensures ListedSince(ms, i, k)
    decreases k
  {
    TurnAt(ms, k - 1);
    if ms[k - 1].Found? { i := k - 1; } else { i := KnownWasListed(ms, k - 1); }
  }

  /** A poll whose metadata gained virtual fields is a rise, and a rise is a gain exactly when
      its metadata also exceed the scans whose count was never recorded. */
  lemma GainIffRiseAboveUnrecorded(ms: seq<Moment>, k: nat)
    requires PolledAt(ms, k)
    ensures Gained(ms, k) <==> RisesAt(ms, k) && AboveUnrecorded(ms, k)
  {
    if Gained(ms, k) {
      var i := KnownWasListed(ms, k);
      CountAttained(ms, k);
    }
    if RisesAt(ms, k) && AboveUnrecorded(ms, k) {
      forall i: nat | ListedSince(ms, i, k) ensures CountAll(ms[i].meta.buckets) < CountAll(ms[k].meta.buckets) {
        if After(ms[..i]).known { CountCovers(ms, i, k); }
      }
    }
  }

  /** Every announcement stems from the last rise, and says the truth, that the session gained
      virtual fields, exactly when the scans whose count was never recorded hold fewer. */
  lemma AnnouncementIsGainIff(ms: seq<Moment>, j: nat, m: Meta) returns (k: nat)
    requires AnnouncedAt(ms, j, m)
    ensures LastRise(ms, k, j) && m == ms[k].meta && ms[j].now >= ms[k].now + ms[k].delay
    ensures Gained(ms, k) <==> AboveUnrecorded(ms, k)
  {
    k := FireFollowsLastRise(ms, j);
    GainIffRiseAboveUnrecorded(ms, k);
  }

  /** A session found with five virtual fields and then with three, which it keeps, is
      announced although it lost fields. */
  lemma LossIsAnnounced(five: Meta, three: Meta)
    requires CountAll(five.buckets) == 5 && CountAll(three.buckets) == 3
    ensures var ms := [Found(five, 0, 10), Found(three, 1, 10), Found(three, 11, 10)];
      AnnouncedAt(ms, 2, three) && RisesAt(ms, 1) && !Gained(ms, 1)
  {
    var ms := [Found(five, 0, 10), Found(three, 1, 10), Found(three, 11, 10)];
    assert ms[..0] == [];
    TurnAt(ms, 0);
    TurnAt(ms, 1);
    assert ListedSince(ms, 0, 1);
  }

  // ----- Updates that announce nothing new -------------------------------------------------------

  /** Only cycles that failed or listed the session with metadata `m`. */
  ghost predicate Unchanging(ms: seq<Moment>, m: Meta) {
    forall k :: 0 <= k < |ms| ==> ms[k].NoScan? || (ms[k].Found? && ms[k].meta == m)
  }

  ghost predicate FirstPoll(ms: seq<Moment>, b: nat) { PolledAt(ms, b) && forall i: nat :: i < b ==> !PolledAt(ms, i) }

  /** A poll at which the delay since the first poll has passed. */
  ghost predicate Overdue(ms: seq<Moment>, b: nat, j: nat) {
    b < j && FirstPoll(ms, b) && PolledAt(ms, j) && ms[j].now >= ms[b].now + ms[b].delay
  }

  lemma OnlyFirstPollRises(ms: seq<Moment>, m: Meta, k: nat)
    requires Unchanging(ms, m) && PolledAt(ms, k)
    ensures RisesAt(ms, k) <==> FirstPoll(ms, k) && CountAll(m.buckets) > 0
  {
    if FirstPoll(ms, k) {
      CountAttained(ms, k);
    } else {
      var i: nat :| i < k && PolledAt(ms, i);
      CountCovers(ms, i, k);
    }
  }

  /** The count of a session is not recorded when it appears.  So a session whose metadata
      never change is still announced as updated if and only if it has virtual fields and is
      polled once the delay since its first poll has passed. */
  lemma UnchangedSessionFiresIff(ms: seq<Moment>, m: Meta)
    requires Unchanging(ms, m)
    ensures (exists j: nat :: FiresAt(ms, j)) <==> CountAll(m.buckets) > 0 && exists b: nat, j: nat :: Overdue(ms, b, j)
  {
    if j: nat :| FiresAt(ms, j) {
      var k := FireFollowsLastRise(ms, j);
      OnlyFirstPollRises(ms, m, k);
      assert Overdue(ms, k, j);
    }
    if b: nat, j: nat :| CountAll(m.buckets) > 0 && Overdue(ms, b, j) {
      OnlyFirstPollRises(ms, m, b);
      forall i: nat | b < i <= j ensures !RisesAt(ms, i) {
        if PolledAt(ms, i) { OnlyFirstPollRises(ms, m, i); }
      }
      QuietSessionFires(ms, b, j);
    }
  }

  /** No announcement of such a session is a gain. */
  lemma UnchangedNeverGains(ms: seq<Moment>, m: Meta, k: nat)
    requires Unchanging(ms, m) && PolledAt(ms, k)
    ensures !Gained(ms, k)
  {
    var i := KnownWasListed(ms, k);
    assert ms[i].meta == ms[k].meta;
  }

  /** It is announced once. */
  lemma UnchangedSessionFiresOnce(ms: seq<Moment>, m: Meta, i: nat, j: nat)
    requires Unchanging(ms, m) && FiresAt(ms, i) && FiresAt(ms, j)
    ensures i == j
  {
    if i < j { OneFire(ms, m, i, j); } else if j < i { OneFire(ms, m, j, i); }
  }

  lemma OneFire(ms: seq<Moment>, m: Meta, i: nat, j: nat)
    requires Unchanging(ms, m) && FiresAt(ms, i) && i < j
    ensures !FiresAt(ms, j)
  {
    if FiresAt(ms, j) {
      var k := FireFollowsLastRise(ms, j);
      OnlyFirstPollRises(ms, m, k);
      var l := FireFollowsLastRise(ms, i);
      OnlyFirstPollRises(ms, m, l);
    }
  }

  // ----- What a restart leaves behind ----------------------------------------------------------------

  /** After the restart at moment `r`, moment `j` is the first to fire and nothing rose before. */
  ghost predicate StaleAt(ms: seq<Moment>, r: nat, j: nat) {
    r < j && FiresAt(ms, j) && forall i: nat :: r < i < j ==> !RisesAt(ms, i) && !FiresAt(ms, i)
  }

  /** A poll past the deadline left pending, before any poll counts more than was recorded. */
  ghost predicate StillDue(ms: seq<Moment>, r: nat, j: nat)
    requires r < |ms|
  {
    && r < j && PolledAt(ms, j) && TrackerAt(ms, r).due.Some? && ms[j].now >= TrackerAt(ms, r).due.value
    && forall i: nat :: r < i <= j && PolledAt(ms, i) ==> CountAll(ms[i].meta.buckets) <= CountAt(ms, r)
  }

  /** While nothing rises or fires a tracker keeps its deadline, metadata and count. */
  lemma {:induction false} TrackerRests(ms: seq<Moment>, r: nat, j: nat)
    requires r < j <= |ms| && ms[r].Restarted? && Present(ms, r, j)
    requires forall i: nat :: r < i < j ==> !RisesAt(ms, i) && !FiresAt(ms, i)
    ensures TrackerAt(ms, j).due == TrackerAt(ms, r).due && TrackerAt(ms, j).meta == TrackerAt(ms, r).meta
    ensures CountAt(ms, j) == CountAt(ms, r)
    decreases j
  {
    TurnAt(ms, j - 1);
    if r < j - 1 {
      TrackerRests(ms, r, j - 1);
      assert !RisesAt(ms, j - 1) && !FiresAt(ms, j - 1);
    }
  }

  lemma {:induction false} FirstStale(ms: seq<Moment>, r: nat, j: nat) returns (k: nat)
    requires r < |ms| && ms[r].Restarted? && Present(ms, r, |ms|) && StillDue(ms, r, j)
    ensures k <= j && StaleAt(ms, r, k)
    decreases j
  {
    if i: nat :| i < j && StillDue(ms, r, i) {
      k := FirstStale(ms, r, i);
    } else {
      k := j;
      NoneBefore(ms, r, j, j);
      TrackerRests(ms, r, j);
    }
  }

  lemma {:induction false} NoneBefore(ms: seq<Moment>, r: nat, j: nat, n: nat)
    requires r < n <= j < |ms| && ms[r].Restarted? && Present(ms, r, |ms|)
    requires StillDue(ms, r, j) && forall i: nat :: i < j ==> !StillDue(ms, r, i)
    ensures forall i: nat :: r < i < n ==> !RisesAt(ms, i) && !FiresAt(ms, i)
    decreases n
  {
    if r < n - 1 {
      NoneBefore(ms, r, j, n - 1);
      TrackerRests(ms, r, n - 1);
      assert !StillDue(ms, r, n - 1);
    }
  }

  /** Counts, deadlines and metadata survive a restart.  Metadata pending at the restart are
      announced for the session that is found again if and only if a poll meets their
      deadline before any poll counts more virtual fields than were recorded. */
  lemma StaleUpdateIff(ms: seq<Moment>, r: nat)
    requires r < |ms| && ms[r].Restarted? && Present(ms, r, |ms|)
    ensures (exists j: nat :: StaleAt(ms, r, j)) <==> exists j: nat :: StillDue(ms, r, j)
    ensures forall j: nat ::
      StaleAt(ms, r, j) ==> TrackerAt(ms, r).meta.Some? && AnnouncedAt(ms, j, TrackerAt(ms, r).meta.value)
  {
    forall j: nat | StaleAt(ms, r, j)
      ensures StillDue(ms, r, j) && TrackerAt(ms, r).meta.Some? && AnnouncedAt(ms, j, TrackerAt(ms, r).meta.value)
    {
      StaleIsDue(ms, r, j);
      var k := FireFollowsLastRise(ms, j);
    }
    if j: nat :| StillDue(ms, r, j) { var k := FirstStale(ms, r, j); }
  }

  lemma StaleIsDue(ms: seq<Moment>, r: nat, j: nat)
    requires r < |ms| && ms[r].Restarted? && Present(ms, r, |ms|) && StaleAt(ms, r, j)
    ensures StillDue(ms, r, j) && TrackerAt(ms, j).meta == TrackerAt(ms, r).meta
  {
    TrackerRests(ms, r, j);
    forall i: nat | r < i <= j && PolledAt(ms, i) ensures CountAll(ms[i].meta.buckets) <= CountAt(ms, r) {
      TrackerRests(ms, r, i);
      assert !RisesAt(ms, i);
    }
  }

  /** For instance, a session found again with other metadata of as many virtual fields is
      announced with the old metadata. */
  lemma StaleExample(was: Meta, now: Meta)
    requires CountAll(was.buckets) == CountAll(now.buckets) == 1
    ensures AnnouncedAt(
      [Found(was, 0, 10), Found(was, 1, 10), Restarted, Found(now, 20, 10), Found(now, 21, 10)], 4, was)
  {
    var ms := [Found(was, 0, 10), Found(was, 1, 10), Restarted, Found(now, 20, 10), Found(now, 21, 10)];
    assert ms[..0] == [];
    TurnAt(ms, 0);
    TurnAt(ms, 1);
    TurnAt(ms, 2);
    TurnAt(ms, 3);
  }
}
