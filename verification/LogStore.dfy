/**
 The trace-log store: entries kept in time order, call sites resolved whenever their
 descriptor is known.
 */
module LogStore {
  import opened Numerals
  import opened Sequences

  datatype Site = Site(file: string, func: string, line: nat)

  datatype Entry = Entry(
    tsNs: nat, level: nat, thread: nat, cpu: nat, message: string, hash: nat,
    file: string, func: string, line: nat, resolved: bool)

  type Sites = map<nat, Site>

  /** Text shown for an unknown call site. */
  function Placeholder(hash: nat): string { "<site:" + UpperHex(hash, 8) + ">" }

  function Resolve(e: Entry, sites: Sites): Entry {
    if e.hash in sites then
      var s := sites[e.hash];
      e.(file := s.file, func := s.func, line := s.line, resolved := true)
    else e.(file := Placeholder(e.hash), func := "", line := 0, resolved := false)
  }

  /** What arrived, without what the site map adds. */
  function Raw(e: Entry): Entry { e.(file := "", func := "", line := 0, resolved := false) }

  function Raws(s: seq<Entry>): seq<Entry> { seq(|s|, i requires 0 <= i < |s| => Raw(s[i])) }

  ghost predicate Sorted(s: seq<Entry>) { forall i, j :: 0 <= i < j < |s| ==> s[i].tsNs <= s[j].tsNs }

  /** An entry is marked resolved exactly when its site is known, and then shows one of the
      descriptors seen for it; otherwise it shows the placeholder. */
  ghost predicate ResolvedRight(s: seq<Entry>, sites: Sites, seen: set<(nat, Site)>) {
    && (forall e :: e in s ==> (e.resolved <==> e.hash in sites))
    && (forall e :: e in s && !e.resolved ==>
          e.file == "<site:" + UpperHex(e.hash, 8) + ">" && e.func == "" && e.line == 0)
    && (forall e :: e in s && e.resolved ==> (e.hash, Site(e.file, e.func, e.line)) in seen)
  }

  ghost predicate AllSeen(sites: Sites, seen: set<(nat, Site)>) { forall h :: h in sites ==> (h, sites[h]) in seen }

  /** The map after taking over descriptors one by one: the last for a hash wins. */
  function Latest(sites: Sites, news: seq<(nat, Site)>): Sites {
    if news == [] then sites
    else
      var n := |news| - 1;
      Latest(sites, news[..n])[news[n].0 := news[n].1]
  }

  /** What is known for a hash afterwards: the last new descriptor for it, or the old one. */
  lemma {:induction false} LastDescriptorWins(sites: Sites, news: seq<(nat, Site)>, h: nat) returns (i: int)
    requires h in Latest(sites, news)
    ensures -1 <= i < |news| && forall j :: i < j < |news| ==> news[j].0 != h
    ensures if i >= 0 then news[i] == (h, Latest(sites, news)[h]) else h in sites && Latest(sites, news)[h] == sites[h]
  {
    i := -1;
    if news != [] {
      var n := |news| - 1;
      if news[n].0 == h { return n; }
      i := LastDescriptorWins(sites, news[..n], h);
    }
  }

  /** Appending to a sorted list keeps it sorted when the neighbours from the first new
      entry on are in order. */
  lemma {:induction false} NeighboursSuffice(s: seq<Entry>, firstNew: nat)
    requires firstNew <= |s| && Sorted(s[..firstNew])
    requires forall i :: firstNew <= i < |s| && i > 0 ==> s[i - 1].tsNs <= s[i].tsNs
    ensures Sorted(s)
    decreases |s|
  {
    if firstNew < |s| {
      var n := |s| - 1;
      assert s[..n][..firstNew] == s[..firstNew];
      NeighboursSuffice(s[..n], firstNew);
      forall i | 0 <= i < n ensures s[i].tsNs <= s[n].tsNs {
        assert s[..n][i].tsNs <= s[..n][n - 1].tsNs;
      }
      assert forall i, j :: 0 <= i < j < n ==> s[..n][i].tsNs <= s[..n][j].tsNs;
    } else {
      assert s[..firstNew] == s;
    }
  }

  lemma RawsAppend(a: seq<Entry>, e: Entry)
    ensures multiset(Raws(a + [e])) == multiset(Raws(a)) + multiset{Raw(e)}
  {
    assert Raws(a + [e]) == Raws(a) + [Raw(e)];
  }

  lemma InsertedSorted(s: seq<Entry>, k: nat, e: Entry)
    requires k <= |s| && Sorted(s) && (k > 0 ==> s[k - 1].tsNs <= e.tsNs)
    requires forall i :: k <= i < |s| ==> s[i].tsNs > e.tsNs
    ensures Sorted(Inserted(s, k, e))
  {
    var t := Inserted(s, k, e);
    assert forall i :: 0 <= i < |t| ==> t[i] == if i < k then s[i] else if i == k then e else s[i - 1];
    forall i, j | 0 <= i < j < |t| ensures t[i].tsNs <= t[j].tsNs {
      if i == k { assert t[j] == s[j - 1]; } else if j == k { assert t[i] == s[i]; }
    }
  }

  lemma InsertedMultiset(s: seq<Entry>, k: nat, e: Entry)
    requires k <= |s|
    ensures multiset(Inserted(s, k, e)) == multiset(s) + multiset{e}
  {
    assert s == s[..k] + s[k..];
  }

  lemma EmptySorted()
    ensures Sorted([])
  {
  }

  lemma OneMoreSorted(t: seq<Entry>, s: seq<Entry>, n: nat, k: nat)
    requires n < |s| && k <= |t| && multiset(t) == multiset(s[..n])
    ensures multiset(Inserted(t, k, s[n])) == multiset(s[..n + 1])
  {
    InsertedMultiset(t, k, s[n]);
    assert s[..n + 1] == s[..n] + [s[n]];
  }

  /** A stand-in for `std::sort` by time; callers use only that the result is a sorted
      permutation, so ties may come in any order. */
  method SortByTime(s: seq<Entry>) returns (t: seq<Entry>)
    ensures Sorted(t) && multiset(t) == multiset(s)
  {
    hide Sorted, Inserted;
    t := [];
    EmptySorted();
    for n := 0 to |s|
      invariant Sorted(t) && multiset(t) == multiset(s[..n])
    {
      var k := |t|;
      while k > 0 && t[k - 1].tsNs > s[n].tsNs
        invariant 0 <= k <= |t| && forall i :: k <= i < |t| ==> t[i].tsNs > s[n].tsNs
      {
        k := k - 1;
      }
      InsertedSorted(t, k, s[n]);
      OneMoreSorted(t, s, n, k);
      t := Inserted(t, k, s[n]);
    }
    assert s[..|s|] == s;
  }

  function Removed(t: seq<Entry>, k: nat): seq<Entry>
    requires k < |t|
  {
    t[..k] + t[k + 1..]
  }

  lemma RemovedRaws(t: seq<Entry>, k: nat)
    requires k < |t|
    ensures multiset(Raws(t)) == multiset(Raws(Removed(t, k))) + multiset{Raw(t[k])}
    ensures multiset(t) == multiset(Removed(t, k)) + multiset{t[k]}
  {
    assert t == t[..k] + [t[k]] + t[k + 1..];
    assert Raws(t) == Raws(t[..k]) + [Raw(t[k])] + Raws(t[k + 1..]);
    assert Raws(Removed(t, k)) == Raws(t[..k]) + Raws(t[k + 1..]);
  }

  /** A permutation of the entries is a permutation of what arrived. */
  lemma {:induction false} RawsPermute(s: seq<Entry>, t: seq<Entry>)
    requires multiset(s) == multiset(t)
    ensures multiset(Raws(s)) == multiset(Raws(t))
    decreases |s|
  {
    if s == [] {
      assert |multiset(t)| == 0;
      assert t == [];
    } else {
      var n := |s| - 1;
      assert s == s[..n] + [s[n]];
      assert s[n] in multiset(t);
      var k :| 0 <= k < |t| && t[k] == s[n];
      RemovedRaws(t, k);
      assert multiset(s[..n]) == multiset(s) - multiset{s[n]};
      assert multiset(Removed(t, k)) == multiset(t) - multiset{t[k]};
      RawsPermute(s[..n], Removed(t, k));
      RawsAppend(s[..n], s[n]);
    }
  }

  lemma PermutedRight(s: seq<Entry>, t: seq<Entry>, sites: Sites, seen: set<(nat, Site)>)
    requires ResolvedRight(s, sites, seen) && multiset(s) == multiset(t)
    ensures ResolvedRight(t, sites, seen)
  {
    forall e | e in t ensures e in s { assert e in multiset(t); }
  }

  lemma ReResolved(s: seq<Entry>, t: seq<Entry>, sites: Sites, seen: set<(nat, Site)>)
    requires |s| == |t| && Sorted(s) && AllSeen(sites, seen)
    requires forall e :: e in s && e.resolved ==> e.hash in sites && (e.hash, Site(e.file, e.func, e.line)) in seen
    requires forall k :: 0 <= k < |t| ==> t[k] == if s[k].resolved then s[k] else Resolve(s[k], sites)
    ensures Sorted(t) && ResolvedRight(t, sites, seen) && Raws(t) == Raws(s)
  {
    assert forall k :: 0 <= k < |s| ==> s[k] in s;
    forall k | 0 <= k < |t| ensures Raw(t[k]) == Raw(s[k]) && t[k].tsNs == s[k].tsNs { }
  }

  class LogStore {
    var entries: seq<Entry>
    var sites: Sites
    var pendingEntries: seq<Entry>
    var pendingSites: seq<(nat, Site)>
    ghost var drained: seq<Entry>        // everything drained so far, in arrival order
    ghost var seen: set<(nat, Site)>     // every descriptor taken over so far

    ghost predicate Valid()
      reads this
    {
      && Sorted(entries) && ResolvedRight(entries, sites, seen) && AllSeen(sites, seen)
      && multiset(Raws(entries)) == multiset(Raws(drained))
    }

    constructor ()
      ensures Valid() && entries == [] && sites == map[] && drained == [] && pendingEntries == [] && pendingSites == []
    {
      entries, sites, pendingEntries, pendingSites, drained, seen := [], map[], [], [], [], {};
    }

    /** Resolve again what was unresolved; resolved entries stay as they are. */
    method ReResolve()
      requires Sorted(entries)
      requires forall e ::
        e in entries && e.resolved ==> e.hash in sites && (e.hash, Site(e.file, e.func, e.line)) in seen
      requires AllSeen(sites, seen)
      modifies this`entries
      ensures Sorted(entries) && ResolvedRight(entries, sites, seen) && Raws(entries) == Raws(old(entries))
      ensures forall i :: 0 <= i < |entries| && old(entries)[i].resolved ==> entries[i] == old(entries)[i]
    {
      for i := 0 to |entries|
        invariant |entries| == |old(entries)|
        invariant forall k :: i <= k < |entries| ==> entries[k] == old(entries)[k]
        invariant forall k ::
          0 <= k < i
          ==> entries[k] == if old(entries)[k].resolved then old(entries)[k] else Resolve(old(entries)[k], sites)
      {
        if !entries[i].resolved { entries := entries[i := Resolve(entries[i], sites)]; }
      }
      ReResolved(old(entries), entries, sites, seen);
    }

    /** Sites known at start-up; they do not replace known ones. */
    method SeedLogSites(seed: Sites)
      requires Valid()
      modifies this`sites, this`entries, this`seen
      ensures Valid() && sites == seed + old(sites) && drained == old(drained)
      ensures seen == old(seen) + set h | h in seed :: (h, seed[h])
    {
      sites := seed + sites;
      seen := seen + set h | h in seed :: (h, seed[h]);
      ReResolve();
    }

    method PushLogRecord(e: Entry)
      modifies this`pendingEntries
      ensures pendingEntries == old(pendingEntries) + [e]
    {
      pendingEntries := pendingEntries + [e];
    }

    method PushLogSite(hash: nat, site: Site)
      modifies this`pendingSites
      ensures pendingSites == old(pendingSites) + [(hash, site)]
    {
      pendingSites := pendingSites + [(hash, site)];
    }

    /** Take over the new sites; a later descriptor replaces an earlier one. */
    method TakeSites(news: seq<(nat, Site)>)
      requires Valid()
      modifies this`sites, this`entries, this`seen
      ensures Valid() && Raws(entries) == Raws(old(entries))
      ensures seen == old(seen) + set i | 0 <= i < |news| :: news[i]
      ensures sites == Latest(old(sites), news)
    {
      if news == [] { return; }
      ReplaceSites(news);
      ReResolve();
    }

    method ReplaceSites(news: seq<(nat, Site)>)
      requires AllSeen(sites, seen)
      modifies this`sites, this`seen
      ensures AllSeen(sites, seen) && sites == Latest(old(sites), news) && old(sites).Keys <= sites.Keys
      ensures seen == old(seen) + set i | 0 <= i < |news| :: news[i]
    {
      for i := 0 to |news|
        invariant AllSeen(sites, seen) && old(sites).Keys <= sites.Keys
        invariant seen == old(seen) + set k | 0 <= k < i :: news[k]
        invariant sites == Latest(old(sites), news[..i])
      {
        assert news[..i + 1][..i] == news[..i];
        sites := sites[news[i].0 := news[i].1];
        seen := seen + {news[i]};
      }
      assert news[..|news|] == news;
    }

    method TakeEntry(e: Entry)
      requires ResolvedRight(entries, sites, seen) && AllSeen(sites, seen)
        && multiset(Raws(entries)) == multiset(Raws(drained))
      modifies this`entries, this`drained
      ensures ResolvedRight(entries, sites, seen) && multiset(Raws(entries)) == multiset(Raws(drained))
      ensures drained == old(drained) + [e] && entries == old(entries) + [Resolve(e, sites)]
    {
      RawsAppend(entries, Resolve(e, sites));
      RawsAppend(drained, e);
      entries := entries + [Resolve(e, sites)];
      drained := drained + [e];
    }

    /** Append the new entries, resolved against the known sites. */
    method TakeEntries(news: seq<Entry>)
      requires ResolvedRight(entries, sites, seen) && AllSeen(sites, seen)
        && multiset(Raws(entries)) == multiset(Raws(drained))
      modifies this`entries, this`drained
      ensures ResolvedRight(entries, sites, seen) && multiset(Raws(entries)) == multiset(Raws(drained))
      ensures drained == old(drained) + news && old(entries) <= entries && |entries| == |old(entries)| + |news|
    {
      for i := 0 to |news|
        invariant ResolvedRight(entries, sites, seen) && multiset(Raws(entries)) == multiset(Raws(drained))
        invariant drained == old(drained) + news[..i] && old(entries) <= entries && |entries| == |old(entries)| + i
      {
        TakeEntry(news[i]);
        assert news[..i + 1] == news[..i] + [news[i]];
      }
      assert news[..|news|] == news;
    }

    /** Sort, but only when a new entry is out of order with its neighbour. */
    method SortIfNeeded(firstNew: nat)
      requires firstNew <= |entries| && Sorted(entries[..firstNew])
      modifies this`entries
      ensures Sorted(entries) && multiset(entries) == multiset(old(entries))
    {
      var sorted := true;
      var i := firstNew;
      while i < |entries| && sorted
        invariant firstNew <= i <= |entries|
        invariant sorted ==> forall k :: firstNew <= k < i && k > 0 ==> entries[k - 1].tsNs <= entries[k].tsNs
      {
        if i > 0 && entries[i].tsNs < entries[i - 1].tsNs { sorted := false; }
        i := i + 1;
      }
      if sorted {
        NeighboursSuffice(entries, firstNew);
      } else {
        entries := SortByTime(entries);
      }
    }

    method DrainPending()
      requires Valid()
      modifies this
      ensures Valid() && pendingEntries == [] && pendingSites == []
      ensures drained == old(drained) + old(pendingEntries)
      ensures sites == Latest(old(sites), old(pendingSites))
      ensures seen == old(seen) + set i | 0 <= i < |old(pendingSites)| :: old(pendingSites)[i]
    {
      hide Latest, ResolvedRight, AllSeen, Raws;
      var newEntries, newSites := pendingEntries, pendingSites;
      pendingEntries, pendingSites := [], [];
      TakeSites(newSites);
      if newEntries == [] { return; }
      var firstNew := |entries|;
      ghost var before := entries;
      TakeEntries(newEntries);
      assert entries[..firstNew] == before;
      ghost var unsorted := entries;
      SortIfNeeded(firstNew);
      RawsPermute(unsorted, entries);
      PermutedRight(unsorted, entries, sites, seen);
    }
  }
}
