/**
 The session list, rebuilt from events, and the application that connects it to the worker.
 */
module SessionListPanel {
  import opened Options
  import opened Sequences
  import opened SessionEvents
  import opened SessionManager
  import opened MetaDebounce

  datatype Entry = Entry(channel: string, prefix: string, meta: Meta, liveness: Liveness)

  datatype Change = NewMeta(meta: Meta) | NewLiveness(liveness: Liveness)

  function Edited(e: Entry, change: Change): Entry {
    match change case NewMeta(m) => e.(meta := m) case NewLiveness(l) => e.(liveness := l)
  }

  ghost predicate HasPrefix(s: seq<Entry>, p: string) { exists i :: 0 <= i < |s| && s[i].prefix == p }

  ghost predicate Distinct(s: seq<Entry>) { forall i, j :: 0 <= i < j < |s| ==> s[i].prefix != s[j].prefix }

  /** The list shows exactly the sessions of `v`, each once, with its liveness. */
  ghost predicate Lists(s: seq<Entry>, v: View) {
    && Distinct(s)
    && (forall i :: 0 <= i < |s| ==> s[i].prefix in v && v[s[i].prefix] == s[i].liveness)
    && (forall p :: p in v ==> HasPrefix(s, p))
  }

  /** The list shows these channels and metadata. */
  ghost predicate Labelled(s: seq<Entry>, l: Labels) {
    forall i :: 0 <= i < |s| ==> s[i].prefix in l && l[s[i].prefix] == Label(s[i].channel, s[i].meta)
  }

  function Without(s: seq<Entry>, p: string): seq<Entry> {
    if s == [] then [] else (if s[0].prefix == p then [] else [s[0]]) + Without(s[1..], p)
  }

  /** Change the first entry with this prefix. */
  function Changed(s: seq<Entry>, p: string, change: Change): seq<Entry> {
    if s == [] then []
    else if s[0].prefix == p then [Edited(s[0], change)] + s[1..]
    else [s[0]] + Changed(s[1..], p, change)
  }

  lemma InsertedDistinct(s: seq<Entry>, k: nat, e: Entry)
    requires Distinct(s) && k <= |s| && !HasPrefix(s, e.prefix)
    ensures Distinct(Inserted(s, k, e))
  {
    var t := Inserted(s, k, e);
    forall i, j | 0 <= i < j < |t| ensures t[i].prefix != t[j].prefix {
      if i == k { assert t[j] == s[j - 1]; } else if j == k { assert t[i] == s[i]; }
    }
  }

  lemma InsertedHas(s: seq<Entry>, k: nat, e: Entry, p: string)
    requires k <= |s| && (HasPrefix(s, p) || p == e.prefix)
    ensures HasPrefix(Inserted(s, k, e), p)
  {
    var t := Inserted(s, k, e);
    if p == e.prefix {
      assert t[k].prefix == p;
    } else {
      var i :| 0 <= i < |s| && s[i].prefix == p;
      assert t[if i < k then i else i + 1].prefix == p;
    }
  }

  lemma InsertedLists(s: seq<Entry>, k: nat, e: Entry, v: View)
    requires Lists(s, v) && k <= |s| && e.prefix !in v
    ensures Lists(Inserted(s, k, e), v[e.prefix := e.liveness])
  {
    var t := Inserted(s, k, e);
    InsertedDistinct(s, k, e);
    forall p | p in v[e.prefix := e.liveness] ensures HasPrefix(t, p) { InsertedHas(s, k, e, p); }
  }

  lemma {:induction false} WithoutKeeps(s: seq<Entry>, p: string)
    ensures forall e :: e in Without(s, p) <==> e in s && e.prefix != p
  {
    if s != [] { WithoutKeeps(s[1..], p); }
  }

  lemma {:induction false} WithoutMore(s: seq<Entry>, e: Entry, p: string)
    ensures Without(s + [e], p) == Without(s, p) + if e.prefix == p then [] else [e]
  {
    if s != [] {
      assert (s + [e])[1..] == s[1..] + [e];
      WithoutMore(s[1..], e, p);
    }
  }

  lemma {:induction false} WithoutDistinct(s: seq<Entry>, p: string)
    requires Distinct(s)
    ensures Distinct(Without(s, p))
  {
    if s != [] {
      WithoutDistinct(s[1..], p);
      if s[0].prefix != p { ConsDistinct(s, Without(s[1..], p), p); }
    }
  }

  lemma ConsDistinct(s: seq<Entry>, rest: seq<Entry>, p: string)
    requires s != [] && Distinct(s) && Distinct(rest) && rest == Without(s[1..], p)
    ensures Distinct([s[0]] + rest)
  {
    WithoutKeeps(s[1..], p);
    forall j | 0 <= j < |rest| ensures rest[j].prefix != s[0].prefix {
      assert rest[j] in s[1..];
    }
  }

  lemma WithoutLists(s: seq<Entry>, p: string, v: View)
    requires Lists(s, v)
    ensures Lists(Without(s, p), v - {p})
  {
    var t := Without(s, p);
    WithoutDistinct(s, p);
    WithoutKeeps(s, p);
    forall i | 0 <= i < |t| ensures t[i].prefix in v - {p} && v[t[i].prefix] == t[i].liveness { assert t[i] in s; }
    forall q | q in v - {p} ensures HasPrefix(t, q) {
      var i :| 0 <= i < |s| && s[i].prefix == q;
      assert s[i] in t;
    }
  }

  lemma {:induction false} ChangedHere(s: seq<Entry>, i: nat, p: string, change: Change)
    requires i < |s| && s[i].prefix == p && forall k :: 0 <= k < i ==> s[k].prefix != p
    ensures Changed(s, p, change) == s[i := Edited(s[i], change)]
    decreases i
  {
    if i > 0 { ChangedHere(s[1..], i - 1, p, change); }
  }

  lemma {:induction false} ChangedNowhere(s: seq<Entry>, p: string, change: Change)
    requires forall k :: 0 <= k < |s| ==> s[k].prefix != p
    ensures Changed(s, p, change) == s
  {
    if s != [] { ChangedNowhere(s[1..], p, change); }
  }

  lemma {:induction false} ChangedAt(s: seq<Entry>, p: string, change: Change)
    requires Distinct(s)
    ensures var t := Changed(s, p, change);
      |t| == |s| && forall i :: 0 <= i < |s| ==> t[i] == if s[i].prefix == p then Edited(s[i], change) else s[i]
  {
    if s != [] && s[0].prefix != p { ChangedAt(s[1..], p, change); }
  }

  lemma ChangedLists(s: seq<Entry>, p: string, change: Change, v: View, w: View)
    requires Lists(s, v) && v.Keys == w.Keys
    requires forall i ::
      0 <= i < |s| ==> w[s[i].prefix] == if s[i].prefix == p then Edited(s[i], change).liveness else s[i].liveness
    ensures Lists(Changed(s, p, change), w)
  {
    ChangedAt(s, p, change);
    var t := Changed(s, p, change);
    forall i | 0 <= i < |t| ensures t[i].prefix == s[i].prefix && t[i].prefix in w && w[t[i].prefix] == t[i].liveness {
      assert s[i].prefix in v;
    }
    forall q | q in w ensures HasPrefix(t, q) {
      var i :| 0 <= i < |s| && s[i].prefix == q;
      assert t[i].prefix == q;
    }
  }

  /** The two ways of overwriting part of an entry, and what each leaves alone. */
  lemma ChangedLabels(s: seq<Entry>, p: string, change: Change, l: Labels)
    requires Distinct(s) && Labelled(s, l)
    ensures change.NewLiveness? ==> Labelled(Changed(s, p, change), l)
    ensures change.NewMeta? ==> Labelled(Changed(s, p, change), Relabel(l, MetaUpdated(p, change.meta)))
  {
    ChangedAt(s, p, change);
  }

  lemma InsertedLabels(s: seq<Entry>, k: nat, e: Entry, l: Labels)
    requires Labelled(s, l) && k <= |s| && !HasPrefix(s, e.prefix)
    ensures Labelled(Inserted(s, k, e), Relabel(l, Appeared(e.prefix, e.channel, e.meta)))
  {
  }

  lemma WithoutLabels(s: seq<Entry>, p: string, l: Labels)
    requires Labelled(s, l)
    ensures Labelled(Without(s, p), Relabel(l, Disappeared(p)))
  {
    var t := Without(s, p);
    WithoutKeeps(s, p);
    forall i | 0 <= i < |t| ensures t[i].prefix in l - {p} && l[t[i].prefix] == Label(t[i].channel, t[i].meta) {
      assert t[i] in s;
    }
  }

  /** What one event does to the entries, whatever place a new one gets. */
  ghost predicate Handled(s: seq<Entry>, e: Event, t: seq<Entry>) {
    match e
    case Appeared(p, c, m) => multiset(t) == multiset(s) + multiset{Entry(c, p, m, Unknown)}
    case Disappeared(p) => forall x :: x in t <==> x in s && x.prefix != p
    case StatusChanged(p, l) =>
      |t| == |s| && forall i :: 0 <= i < |s| ==> t[i] == if s[i].prefix == p then s[i].(liveness := l) else s[i]
    case MetaUpdated(p, m) =>
      |t| == |s| && forall i :: 0 <= i < |s| ==> t[i] == if s[i].prefix == p then s[i].(meta := m) else s[i]
    case _ => t == s
  }

  lemma InsertedAdds(s: seq<Entry>, k: nat, e: Entry)
    requires k <= |s|
    ensures multiset(Inserted(s, k, e)) == multiset(s) + multiset{e}
  {
    assert s == s[..k] + s[k..];
  }

  // ----- The order of the list --------------------------------------------------------------------

  /** Strings in dictionary order. */
  predicate Below(a: string, b: string) {
    b != [] && (a == [] || a[0] < b[0] || (a[0] == b[0] && Below(a[1..], b[1..])))
  }

  lemma {:induction false} BelowIsStrict(a: string, b: string)
    ensures Below(a, b) ==> !Below(b, a)
    ensures a == b || Below(a, b) || Below(b, a)
  {
    if a != [] && b != [] && a[0] == b[0] {
      BelowIsStrict(a[1..], b[1..]);
      assert a == [a[0]] + a[1..] && b == [b[0]] + b[1..];
    }
  }

  lemma {:induction false} BelowChains(a: string, b: string, c: string)
    requires Below(a, b) && Below(b, c)
    ensures Below(a, c)
  {
    if a != [] && a[0] == b[0] == c[0] { BelowChains(a[1..], b[1..], c[1..]); }
  }

  /** `k` is where the two strings first differ, or the end of the shorter one. */
  ghost predicate FirstDiffer(a: string, b: string, k: nat) {
    k <= |a| && k <= |b| && a[..k] == b[..k] && (k < |a| && k < |b| ==> a[k] != b[k])
  }

  /** A string comes first for the smaller character where they differ, or for ending there. */
  lemma {:induction false} BelowIsDictionary(a: string, b: string, k: nat)
    requires FirstDiffer(a, b, k) && (k == |a| || k == |b| || a[k] != b[k])
    ensures Below(a, b) <==> k < |b| && (k == |a| || a[k] < b[k])
    decreases k
  {
    if k > 0 {
      assert a[0] == a[..k][0] == b[..k][0] == b[0];
      assert a[1..][..k - 1] == a[..k][1..] && b[1..][..k - 1] == b[..k][1..];
      BelowIsDictionary(a[1..], b[1..], k - 1);
    }
  }

  /** By channel, then by prefix. */
  predicate Precedes(x: Entry, y: Entry) {
    if x.channel != y.channel then Below(x.channel, y.channel) else Below(x.prefix, y.prefix)
  }

  lemma PrecedesIsStrict(x: Entry, y: Entry)
    requires Precedes(x, y)
    ensures !Precedes(y, x)
  {
    BelowIsStrict(x.channel, y.channel);
    BelowIsStrict(x.prefix, y.prefix);
  }

  lemma PrecedesChains(x: Entry, y: Entry, z: Entry)
    requires !Precedes(y, x) && !Precedes(z, y)
    ensures !Precedes(z, x)
  {
    if Precedes(z, x) {
      BelowIsStrict(x.channel, y.channel);
      BelowIsStrict(y.channel, z.channel);
      BelowIsStrict(x.channel, z.channel);
      BelowIsStrict(x.prefix, y.prefix);
      BelowIsStrict(y.prefix, z.prefix);
      BelowIsStrict(x.prefix, z.prefix);
      if x.channel != y.channel && y.channel != z.channel { BelowChains(x.channel, y.channel, z.channel); }
      if x.prefix != y.prefix && y.prefix != z.prefix && x.channel == y.channel == z.channel {
        BelowChains(x.prefix, y.prefix, z.prefix);
      }
    }
  }

  ghost predicate InOrder(s: seq<Entry>) { forall i, j :: 0 <= i < j < |s| ==> !Precedes(s[j], s[i]) }

  lemma InsertedInOrder(s: seq<Entry>, k: nat, e: Entry)
    requires InOrder(s) && k <= |s| && (k > 0 ==> !Precedes(e, s[k - 1]))
    requires forall i :: k <= i < |s| ==> Precedes(e, s[i])
    ensures InOrder(Inserted(s, k, e))
  {
    var t := Inserted(s, k, e);
    forall i | 0 <= i < k ensures !Precedes(e, s[i]) {
      if i < k - 1 { PrecedesChains(s[i], s[k - 1], e); }
    }
    forall i | k <= i < |s| ensures !Precedes(s[i], e) { PrecedesIsStrict(e, s[i]); }
    forall i, j | 0 <= i < j < |t| ensures !Precedes(t[j], t[i]) {
      if i == k { assert t[j] == s[j - 1]; } else if j == k { assert t[i] == s[i]; }
    }
  }

  /** The sessions of one channel stand together, in order of their prefixes. */
  lemma ChannelsStandTogether(s: seq<Entry>, i: nat, j: nat, k: nat)
    requires InOrder(s) && i < j < k < |s| && s[i].channel == s[k].channel
    ensures s[j].channel == s[i].channel
    ensures !Below(s[k].prefix, s[i].prefix)
  {
    assert !Precedes(s[j], s[i]) && !Precedes(s[k], s[j]) && !Precedes(s[k], s[i]);
    BelowIsStrict(s[i].channel, s[j].channel);
  }

  lemma {:induction false} WithoutInOrder(s: seq<Entry>, p: string)
    requires InOrder(s)
    ensures InOrder(Without(s, p))
  {
    if s != [] {
      var rest := Without(s[1..], p);
      WithoutInOrder(s[1..], p);
      WithoutKeeps(s[1..], p);
      forall j | 0 <= j < |rest| ensures !Precedes(rest[j], s[0]) {
        assert rest[j] in s[1..];
        var i :| 0 <= i < |s[1..]| && s[1..][i] == rest[j];
        assert s[i + 1] == rest[j];
      }
    }
  }

  lemma {:induction false} ChangedKeepsKeys(s: seq<Entry>, p: string, change: Change)
    ensures |Changed(s, p, change)| == |s|
    ensures forall i ::
      0 <= i < |s|
      ==> Changed(s, p, change)[i].prefix == s[i].prefix && Changed(s, p, change)[i].channel == s[i].channel
  {
    if s != [] && s[0].prefix != p { ChangedKeepsKeys(s[1..], p, change); }
  }

  lemma ChangedInOrder(s: seq<Entry>, p: string, change: Change)
    requires InOrder(s)
    ensures InOrder(Changed(s, p, change))
  {
    ChangedKeepsKeys(s, p, change);
    var t := Changed(s, p, change);
    forall i, j | 0 <= i < j < |t| ensures !Precedes(t[j], t[i]) { assert !Precedes(s[j], s[i]); }
  }

  class SessionListPanel {
    var sessions: seq<Entry>

    /** The list is in order of channel and prefix. */
    ghost predicate Valid()
      reads this
    {
      InOrder(sessions)
    }

    constructor ()
      ensures Valid() && sessions == []
    {
      sessions := [];
    }

    /** A new entry of unknown liveness.  The list is sorted after it is added; as the rest is
        in order already, the sort puts the new entry into its place. */
    method AddSession(channel: string, prefix: string, meta: Meta) returns (ghost k: nat)
      requires Valid()
      modifies this
      ensures Valid()
      ensures k <= |old(sessions)| && sessions == Inserted(old(sessions), k, Entry(channel, prefix, meta, Unknown))
    {
      var e := Entry(channel, prefix, meta, Unknown);
      var at := |sessions|;
      while at > 0 && Precedes(e, sessions[at - 1])
        invariant 0 <= at <= |sessions| && forall i :: at <= i < |sessions| ==> Precedes(e, sessions[i])
      {
        at := at - 1;
      }
      InsertedInOrder(sessions, at, e);
      sessions := Inserted(sessions, at, e);
      k := at;
    }

    method RemoveSession(prefix: string)
      requires Valid()
      modifies this
      ensures Valid() && sessions == Without(old(sessions), prefix)
    {
      var kept := [];
      for i := 0 to |sessions|
        invariant sessions == old(sessions) && kept == Without(sessions[..i], prefix)
      {
        WithoutMore(sessions[..i], sessions[i], prefix);
        assert sessions[..i + 1] == sessions[..i] + [sessions[i]];
        if sessions[i].prefix != prefix { kept := kept + [sessions[i]]; }
      }
      assert sessions[..|sessions|] == sessions;
      WithoutInOrder(sessions, prefix);
      sessions := kept;
    }

    /** Overwrite part of the first entry with this prefix. */
    method ChangeEntry(prefix: string, change: Change)
      modifies this
      ensures sessions == Changed(old(sessions), prefix, change)
    {
      for i := 0 to |sessions|
        invariant sessions == old(sessions) && forall k :: 0 <= k < i ==> sessions[k].prefix != prefix
      {
        if sessions[i].prefix == prefix {
          ChangedHere(sessions, i, prefix, change);
          sessions := sessions[i := Edited(sessions[i], change)];
          return;
        }
      }
      ChangedNowhere(sessions, prefix, change);
    }

    method UpdateSessionMeta(prefix: string, meta: Meta)
      requires Valid()
      modifies this
      ensures Valid() && sessions == Changed(old(sessions), prefix, NewMeta(meta))
    {
      ChangedInOrder(sessions, prefix, NewMeta(meta));
      ChangeEntry(prefix, NewMeta(meta));
    }

    method SetSessionLiveness(prefix: string, state: Liveness)
      requires Valid()
      modifies this
      ensures Valid() && sessions == Changed(old(sessions), prefix, NewLiveness(state))
    {
      ChangedInOrder(sessions, prefix, NewLiveness(state));
      ChangeEntry(prefix, NewLiveness(state));
    }

    method Clear()
      modifies this
      ensures Valid() && sessions == []
    {
      sessions := [];
    }
  }

  lemma FoldNext(v: View, events: seq<Event>, i: nat)
    requires i < |events| && Fold(v, events[i..]).Some?
    ensures Apply(v, events[i]).Some? && Fold(Apply(v, events[i]).value, events[i + 1..]) == Fold(v, events[i..])
  {
    assert events[i..][1..] == events[i + 1..];
  }

  lemma FoldNone(v: View, events: seq<Event>)
    requires events == []
    ensures Fold(v, events) == Some(v) && Fold(v, []) == Some(v)
  {
  }

  class App {
    const manager: SessionManager
    const panel: SessionListPanel
    var link: Link

    /** What is listed and still queued folds to what the worker knows and has told. */
    ghost predicate Agrees(v: View, l: Labels)
      reads this, manager, panel
      requires |manager.emitted| == |manager.history|
    {
      && Lists(panel.sessions, v) && Fold(v, manager.events) == Some(manager.Shown())
      && Labelled(panel.sessions, l) && RelabelAll(l, manager.events) == Told(manager.history, manager.emitted)
    }

    ghost predicate Consistent()
      reads this, manager, panel
    {
      && manager.Valid() && manager.Recorded() && panel.Valid()
      && LinkAll(link, manager.events) == LinkOf(manager.history)
      && exists v, l :: Agrees(v, l)
    }

    constructor ()
      ensures Consistent() && fresh(manager) && fresh(panel) && link == NotYet
    {
      manager := new SessionManager();
      panel := new SessionListPanel();
      link := NotYet;
      new;
      hide Reached, Emitted, Announced, EverReached, TrackersOf, Fold, Lists, Labelled, Told, RelabelAll, LinkAll,
           LinkOf, InOrder;
      NothingListed();
      assert Agrees(map[], map[]);
    }

    /** A poll cycle on the worker thread, successful or failed. */
    method Poll(scan: Scan, now: map<string, int>, delay: int, probes: map<string, Probe>, limits: Limits)
      returns (ok: bool)
      requires Consistent()
      requires scan.Channels? ==> Merged(scan.found).Keys <= now.Keys && Merged(scan.found).Keys <= probes.Keys
      modifies manager
      ensures Consistent()
    {
      hide Lists, Fold, InOrder, Reached, Emitted, Announced, EverReached, TrackersOf, Merged, UpdatesAre,
           TrackersAfter, Results, ArrivalsAre, ChangesAre, Labelled, RelabelAll, LinkAll, LinkOf, Told;
      ghost var v, l :| Agrees(v, l);
      ghost var queued, shown := manager.events, manager.Shown();
      ghost var h, emitted := manager.history, manager.emitted;
      ghost var out;
      ok, out := manager.RunOnePollCycle(scan, now, delay, probes, limits);
      FoldStep(v, queued, out, shown, manager.Shown());
      RelabelAppend(l, queued, out);
      LinkAppend(link, queued, out);
      ghost var r := if ok then Cycle(manager.known, now, delay) else Failed;
      ToldMore(h, emitted, r, out);
      LinkGoesOn(h, r, out);
      assert Agrees(v, l);
    }

    /** One event on the main thread. */
    method Dispatch(e: Event, ghost v: View, ghost l: Labels)
      requires panel.Valid() && Lists(panel.sessions, v) && Labelled(panel.sessions, l) && Apply(v, e).Some?
      modifies this`link, panel
      ensures panel.Valid() && Lists(panel.sessions, Apply(v, e).value) && Labelled(panel.sessions, Relabel(l, e))
      ensures Handled(old(panel.sessions), e, panel.sessions)
      ensures link == NextLink(old(link), e)
    {
      ghost var s := panel.sessions;
      match e
      case Appeared(p, c, m) =>
        ghost var k := panel.AddSession(c, p, m);
        Added(s, k, Entry(c, p, m, Unknown), v, l);
      case Disappeared(p) =>
        Removed(s, p, v, l);
        panel.RemoveSession(p);
      case StatusChanged(p, x) =>
        Restated(s, p, x, v, l);
        panel.SetSessionLiveness(p, x);
      case MetaUpdated(p, m) =>
        Retold(s, p, m, v, l);
        panel.UpdateSessionMeta(p, m);
      case Connected =>
        link := Up;
      case ConnectionError =>
        link := Broken;
    }

    /** Draining the queue leaves exactly the known sessions listed, each once, with the
        liveness of the last cycle and the channel and metadata it was told last. */
    method PollSessionEvents()
      requires Consistent()
      modifies manager`events, panel, this`link
      ensures Consistent() && manager.events == []
      ensures Lists(panel.sessions, manager.Shown()) && InOrder(panel.sessions)
      ensures Labelled(panel.sessions, Told(manager.history, manager.emitted))
      ensures link == LinkOf(manager.history)
    {
      hide Lists, Labelled, Fold, Apply, InOrder, Reached, Emitted, Announced, EverReached, TrackersOf, RelabelAll,
           LinkAll, LinkOf, Told, Relabel, NextLink, Handled;
      ghost var v, l :| Agrees(v, l);
      ghost var shown, reached := manager.Shown(), LinkOf(manager.history);
      ghost var told := Told(manager.history, manager.emitted);
      var events := manager.DrainEvents();
      assert events[0..] == events;
      for i := 0 to |events|
        invariant manager.events == [] && manager.Valid() && manager.Recorded() && manager.Shown() == shown
        invariant Told(manager.history, manager.emitted) == told && LinkOf(manager.history) == reached
        invariant panel.Valid() && Lists(panel.sessions, v) && Fold(v, events[i..]) == Some(shown)
        invariant Labelled(panel.sessions, l) && RelabelAll(l, events[i..]) == told
        invariant LinkAll(link, events[i..]) == reached
      {
        FoldNext(v, events, i);
        LabelsNext(l, link, events, i);
        Dispatch(events[i], v, l);
        v, l := Apply(v, events[i]).value, Relabel(l, events[i]);
      }
      FoldNone(v, events[|events|..]);
      LabelsNone(l, link, events[|events|..]);
      assert Agrees(v, l);
    }

    /** New connection settings: the list is cleared, then discovery starts over. */
    method Reconnect()
      requires Consistent()
      modifies manager, panel, this`link
      ensures Consistent() && panel.sessions == [] && manager.known == map[] && link == NotYet
    {
      hide Fold, Reached, Emitted, Announced, EverReached, TrackersOf, RelabelAll, LinkAll;
      panel.Clear();
      link := NotYet;
      RestartForgets(manager.history, manager.emitted);
      manager.Restart();
      FoldNone(map[], []);
      LabelsNone(map[], NotYet, []);
      assert Agrees(map[], map[]);
    }
  }

  lemma Added(s: seq<Entry>, k: nat, e: Entry, v: View, l: Labels)
    requires Lists(s, v) && Labelled(s, l) && k <= |s| && e.prefix !in v && e.liveness == Unknown
    ensures var t, x := Inserted(s, k, e), Appeared(e.prefix, e.channel, e.meta);
      Lists(t, v[e.prefix := Unknown]) && Labelled(t, Relabel(l, x)) && Handled(s, x, t)
  {
    InsertedLists(s, k, e, v);
    InsertedLabels(s, k, e, l);
    InsertedAdds(s, k, e);
  }

  lemma Removed(s: seq<Entry>, p: string, v: View, l: Labels)
    requires Lists(s, v) && Labelled(s, l)
    ensures var t := Without(s, p);
      Lists(t, v - {p}) && Labelled(t, Relabel(l, Disappeared(p))) && Handled(s, Disappeared(p), t)
  {
    WithoutLists(s, p, v);
    WithoutLabels(s, p, l);
    WithoutKeeps(s, p);
  }

  lemma Restated(s: seq<Entry>, p: string, x: Liveness, v: View, l: Labels)
    requires Lists(s, v) && Labelled(s, l)
    ensures var t := Changed(s, p, NewLiveness(x));
      Lists(t, if p in v then v[p := x] else v) && Labelled(t, l) && Handled(s, StatusChanged(p, x), t)
  {
    ChangedLists(s, p, NewLiveness(x), v, if p in v then v[p := x] else v);
    ChangedLabels(s, p, NewLiveness(x), l);
    ChangedAt(s, p, NewLiveness(x));
  }

  lemma Retold(s: seq<Entry>, p: string, m: Meta, v: View, l: Labels)
    requires Lists(s, v) && Labelled(s, l)
    ensures var t := Changed(s, p, NewMeta(m));
      Lists(t, v) && Labelled(t, Relabel(l, MetaUpdated(p, m))) && Handled(s, MetaUpdated(p, m), t)
  {
    ChangedLists(s, p, NewMeta(m), v, v);
    ChangedLabels(s, p, NewMeta(m), l);
    ChangedAt(s, p, NewMeta(m));
  }

  lemma LabelsNext(l: Labels, k: Link, events: seq<Event>, i: nat)
    requires i < |events|
    ensures RelabelAll(Relabel(l, events[i]), events[i + 1..]) == RelabelAll(l, events[i..])
    ensures LinkAll(NextLink(k, events[i]), events[i + 1..]) == LinkAll(k, events[i..])
  {
    assert events[i..] == [events[i]] + events[i + 1..];
    RelabelAppend(l, [events[i]], events[i + 1..]);
    LinkAppend(k, [events[i]], events[i + 1..]);
    LabelsOne(l, k, events[i]);
  }

  lemma LabelsOne(l: Labels, k: Link, e: Event)
    ensures RelabelAll(l, [e]) == Relabel(l, e) && LinkAll(k, [e]) == NextLink(k, e)
  {
    assert [e][..0] == [];
  }

  lemma NothingListed()
    ensures Lists([], map[]) && Labelled([], map[]) && Fold(map[], []) == Some(map[])
    ensures RelabelAll(map[], []) == Told([], []) && LinkAll(NotYet, []) == LinkOf([])
  {
  }

  lemma LabelsNone(l: Labels, k: Link, events: seq<Event>)
    requires events == []
    ensures RelabelAll(l, events) == l && RelabelAll(l, []) == l && LinkAll(k, events) == k && LinkAll(k, []) == k
  {
  }

  /** An entry's metadata are those its session was told last, in round `j`, and they come from
      the scan of round `k`: the one that made it known, or the last announced rise. */
  lemma EntryIsUpToDate(s: seq<Entry>, h: seq<Round>, emitted: seq<seq<Event>>, i: nat) returns (j: nat, k: nat)
    requires Emitted(h, emitted) && Announced(h, emitted) && Labelled(s, Told(h, emitted)) && i < |s|
    ensures k <= j < |h| && h[k].Cycle? && s[i].prefix in h[k].current && s[i].meta == h[k].current[s[i].prefix]
    ensures (k == j && !KnownAt(h, j, s[i].prefix))
         || (MetaUpdated(s[i].prefix, s[i].meta) in emitted[j] && LastRise(MomentsOf(h, s[i].prefix), k, j))
    ensures forall n: nat, x :: j < n < |h| && x in emitted[n] ==> !Tells(x, s[i].prefix)
  {
    hide Told, KnownAt, Announced, LastRise;
    j, k := ToldIsScanned(h, emitted, s[i].prefix);
  }
}
