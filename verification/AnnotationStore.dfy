/**
 The annotation store object: a list sorted by timestamp, and the queue of items that
 arrived from the topic but are not drained yet.  Publishing is modelled as the list of
 items a call returns; a sink is taken to be attached.
 */
module AnnotationStore {
  import opened AnnotationCodec
  import opened AnnotationReplicas
  import opened Sequences

  ghost predicate Distinct(s: seq<Annotation>) { forall i, j :: 0 <= i < j < |s| ==> s[i].id != s[j].id }

  ghost predicate Sorted(s: seq<Annotation>) { forall i, j :: 0 <= i < j < |s| ==> s[i].timestamp <= s[j].timestamp }

  /** The list as a map from ids; the first entry of an id counts. */
  ghost function ViewOf(s: seq<Annotation>): View {
    if s == [] then map[] else ViewOf(s[1..])[s[0].id := s[0]]
  }

  ghost predicate HasId(s: seq<Annotation>, id: string) { exists i :: 0 <= i < |s| && s[i].id == id }

  ghost predicate EntriesIn(s: seq<Annotation>, v: View) {
    forall i :: 0 <= i < |s| ==> s[i].id in v && v[s[i].id] == s[i]
  }

  lemma {:induction false} ViewHas(s: seq<Annotation>)
    requires Distinct(s)
    ensures EntriesIn(s, ViewOf(s)) && forall id :: id in ViewOf(s) <==> HasId(s, id)
  {
    if s != [] {
      ViewHas(s[1..]);
      forall i | 0 <= i < |s| ensures s[i].id in ViewOf(s) && ViewOf(s)[s[i].id] == s[i] {
        if i > 0 { assert s[i] == s[1..][i - 1]; }
      }
      forall id | id in ViewOf(s) ensures HasId(s, id) {
        if id != s[0].id {
          var i :| 0 <= i < |s[1..]| && s[1..][i].id == id;
          assert s[i + 1].id == id;
        }
      }
    }
  }

  /** A list without repeated ids stands for a view when they have the same entries. */
  lemma ViewIs(s: seq<Annotation>, v: View)
    requires Distinct(s) && EntriesIn(s, v) && forall id :: id in v ==> HasId(s, id)
    ensures ViewOf(s) == v
  {
    ViewHas(s);
    forall id | id in v ensures ViewOf(s)[id] == v[id] {
      var i :| 0 <= i < |s| && s[i].id == id;
    }
  }

  lemma UpdateView(s: seq<Annotation>, i: nat, a: Annotation)
    requires Distinct(s) && i < |s| && a.id == s[i].id
    ensures Distinct(s[i := a]) && ViewOf(s[i := a]) == ViewOf(s)[a.id := a]
  {
    ViewHas(s);
    var t := s[i := a];
    forall id | HasId(s, id) ensures HasId(t, id) {
      var k :| 0 <= k < |s| && s[k].id == id;
      assert t[k].id == id;
    }
    ViewIs(t, ViewOf(s)[a.id := a]);
  }

  lemma InsertHas(s: seq<Annotation>, k: nat, a: Annotation, id: string)
    requires k <= |s| && (HasId(s, id) || id == a.id)
    ensures HasId(Inserted(s, k, a), id)
  {
    var t := Inserted(s, k, a);
    if id == a.id {
      assert t[k].id == id;
    } else {
      var i :| 0 <= i < |s| && s[i].id == id;
      assert t[if i < k then i else i + 1].id == id;
    }
  }

  lemma InsertDistinct(s: seq<Annotation>, k: nat, a: Annotation)
    requires Distinct(s) && k <= |s| && !HasId(s, a.id)
    ensures Distinct(Inserted(s, k, a))
  {
    var t := Inserted(s, k, a);
    forall i, j | 0 <= i < j < |t| ensures t[i].id != t[j].id {
      if i == k { assert t[j] == s[j - 1]; } else if j == k { assert t[i] == s[i]; }
    }
  }

  lemma InsertEntries(s: seq<Annotation>, k: nat, a: Annotation, v: View)
    requires k <= |s| && EntriesIn(s, v) && !HasId(s, a.id)
    ensures EntriesIn(Inserted(s, k, a), v[a.id := a])
  {
    var t := Inserted(s, k, a);
    forall i | 0 <= i < |t| ensures t[i].id in v[a.id := a] && v[a.id := a][t[i].id] == t[i] {
      if i < k { assert t[i] == s[i]; } else if i > k { assert t[i] == s[i - 1]; }
    }
  }

  /** Insertion anywhere; any order `std::sort` may give to equal timestamps is allowed for. */
  lemma InsertView(s: seq<Annotation>, k: nat, a: Annotation)
    requires Distinct(s) && k <= |s| && a.id !in ViewOf(s)
    ensures Distinct(Inserted(s, k, a)) && ViewOf(Inserted(s, k, a)) == ViewOf(s)[a.id := a]
  {
    ViewHas(s);
    InsertDistinct(s, k, a);
    InsertEntries(s, k, a, ViewOf(s));
    forall id | HasId(s, id) || id == a.id ensures HasId(Inserted(s, k, a), id) { InsertHas(s, k, a, id); }
    ViewIs(Inserted(s, k, a), ViewOf(s)[a.id := a]);
  }

  lemma InsertSorted(s: seq<Annotation>, k: nat, a: Annotation)
    requires Sorted(s) && k <= |s| && (k > 0 ==> s[k - 1].timestamp <= a.timestamp)
    requires forall i :: k <= i < |s| ==> s[i].timestamp > a.timestamp
    ensures Sorted(Inserted(s, k, a))
  {
    var t := Inserted(s, k, a);
    forall i, j | 0 <= i < j < |t| ensures t[i].timestamp <= t[j].timestamp {
      if i == k { assert t[j] == s[j - 1]; } else if j == k { assert t[i] == s[i]; }
    }
  }

  lemma AppendView(s: seq<Annotation>, a: Annotation)
    requires Distinct(s) && a.id !in ViewOf(s)
    ensures Distinct(s + [a]) && ViewOf(s + [a]) == ViewOf(s)[a.id := a]
  {
    InsertView(s, |s|, a);
    assert Inserted(s, |s|, a) == s + [a];
  }

  // ----- The list, which may repeat an id after a clash ---------------------------------------------

  /** Index of the first entry with this id, the length when there is none. */
  function IndexOf(s: seq<Annotation>, id: string): (i: nat)
    ensures i <= |s| && (i < |s| ==> s[i].id == id) && forall k :: 0 <= k < i ==> s[k].id != id
  {
    if s == [] || s[0].id == id then 0 else 1 + IndexOf(s[1..], id)
  }

  /** What one drained item does to the list: it concerns the first entry with its id. */
  function ListApply(s: seq<Annotation>, op: Op): seq<Annotation> {
    match op
    case Ignore => s
    case Mark(id) =>
      var i := IndexOf(s, id);
      if i < |s| then s[i := s[i].(deleted := true)] else s
    case Upsert(r) =>
      var i := IndexOf(s, r.id);
      if i < |s| then s[i := r.(deleted := s[i].deleted)] else s + [r.(deleted := false)]
  }

  function ListReplay(s: seq<Annotation>, ops: seq<Op>): seq<Annotation> {
    if ops == [] then s else ListApply(ListReplay(s, ops[..|ops| - 1]), ops[|ops| - 1])
  }

  lemma IndexInView(s: seq<Annotation>, id: string)
    requires Distinct(s)
    ensures id in ViewOf(s) <==> IndexOf(s, id) < |s|
    ensures IndexOf(s, id) < |s| ==> ViewOf(s)[id] == s[IndexOf(s, id)]
  {
    ViewHas(s);
  }

  /** As long as no id is repeated, the list does what the view does. */
  lemma ListAppliesView(s: seq<Annotation>, op: Op)
    requires Distinct(s)
    ensures Distinct(ListApply(s, op)) && ViewOf(ListApply(s, op)) == Apply(ViewOf(s), op)
  {
    match op
    case Ignore =>
    case Mark(id) =>
      IndexInView(s, id);
      var i := IndexOf(s, id);
      if i < |s| { UpdateView(s, i, s[i].(deleted := true)); }
    case Upsert(r) =>
      IndexInView(s, r.id);
      var i := IndexOf(s, r.id);
      if i < |s| { UpdateView(s, i, r.(deleted := s[i].deleted)); } else { AppendView(s, r.(deleted := false)); }
  }

  lemma {:induction false} ListReplaysView(s: seq<Annotation>, ops: seq<Op>)
    requires Distinct(s)
    ensures Distinct(ListReplay(s, ops)) && ViewOf(ListReplay(s, ops)) == Replay(ViewOf(s), ops)
    decreases |ops|
  {
    if ops != [] {
      var n := |ops| - 1;
      ListReplaysView(s, ops[..n]);
      ListAppliesView(ListReplay(s, ops[..n]), ops[n]);
      assert ops == ops[..n] + [ops[n]] && [ops[n]][1..] == [];
      ReplayAppend(ViewOf(s), ops[..n], [ops[n]]);
      assert Replay(Replay(ViewOf(s), ops[..n]), [ops[n]]) == Apply(Replay(ViewOf(s), ops[..n]), ops[n]);
    }
  }

  /** Entries of the list with this id. */
  function Count(s: seq<Annotation>, id: string): nat {
    if s == [] then 0 else Count(s[..|s| - 1], id) + if s[|s| - 1].id == id then 1 else 0
  }

  lemma {:induction false} CountAtMostOnce(s: seq<Annotation>, id: string)
    requires Distinct(s)
    ensures Count(s, id) == if HasId(s, id) then 1 else 0
  {
    if s != [] {
      var n := |s| - 1;
      CountAtMostOnce(s[..n], id);
      if HasId(s[..n], id) {
        var k :| 0 <= k < n && s[..n][k].id == id;
        assert s[k].id == id;
      }
      if HasId(s, id) {
        var k :| 0 <= k < |s| && s[k].id == id;
        if k < n { assert s[..n][k].id == id; }
      }
    }
  }

  /** One list is the other put in timestamp order. */
  ghost predicate SortedFrom(t: seq<Annotation>, s: seq<Annotation>) {
    && Sorted(t) && multiset(t) == multiset(s) && |t| == |s|
    && (Distinct(s) ==> Distinct(t) && ViewOf(t) == ViewOf(s))
    && forall id :: Count(t, id) == Count(s, id)
  }

  lemma {:induction false} CountSplits(a: seq<Annotation>, b: seq<Annotation>, id: string)
    ensures Count(a + b, id) == Count(a, id) + Count(b, id)
    decreases |b|
  {
    if b == [] {
      assert a + b == a;
    } else {
      var n := |b| - 1;
      CountSplits(a, b[..n], id);
      assert (a + b)[..|a + b| - 1] == a + b[..n];
    }
  }

  lemma InsertedCount(s: seq<Annotation>, k: nat, a: Annotation, id: string)
    requires k <= |s|
    ensures Count(Inserted(s, k, a), id) == Count(s + [a], id)
  {
    assert s == s[..k] + s[k..];
    CountSplits(s[..k], s[k..], id);
    CountSplits(s[..k] + [a], s[k..], id);
    CountSplits(s[..k], [a], id);
    CountSplits(s, [a], id);
  }

  lemma InsertedMultiset(s: seq<Annotation>, k: nat, a: Annotation)
    requires k <= |s|
    ensures multiset(Inserted(s, k, a)) == multiset(s + [a])
  {
    assert s == s[..k] + s[k..];
  }

  /** Placing one entry extends what was put in order. */
  lemma SortedMore(t: seq<Annotation>, s: seq<Annotation>, k: nat, a: Annotation)
    requires SortedFrom(t, s) && k <= |t| && Sorted(Inserted(t, k, a))
    ensures SortedFrom(Inserted(t, k, a), s + [a])
  {
    hide Sorted, ViewOf, Count;
    InsertedMultiset(t, k, a);
    assert multiset(t + [a]) == multiset(s + [a]);
    forall id ensures Count(Inserted(t, k, a), id) == Count(s + [a], id) {
      InsertedCount(t, k, a, id);
      CountSplits(t, [a], id);
      CountSplits(s, [a], id);
    }
    if Distinct(s + [a]) { SortedMoreView(t, s, k, a); }
  }

  lemma SortedMoreView(t: seq<Annotation>, s: seq<Annotation>, k: nat, a: Annotation)
    requires Distinct(s + [a]) && k <= |t| && (Distinct(s) ==> Distinct(t) && ViewOf(t) == ViewOf(s))
    ensures Distinct(Inserted(t, k, a)) && ViewOf(Inserted(t, k, a)) == ViewOf(s + [a])
  {
    assert Distinct(s) by { assert forall i :: 0 <= i < |s| ==> (s + [a])[i] == s[i]; }
    ViewHas(s);
    assert !HasId(s, a.id) by {
      assert (s + [a])[|s|] == a;
      assert forall i :: 0 <= i < |s| ==> (s + [a])[i] == s[i];
    }
    AppendView(s, a);
    InsertView(t, k, a);
  }

  // ----- How often an id is listed ----------------------------------------------------------------

  lemma {:induction false} UpdateCount(s: seq<Annotation>, i: nat, a: Annotation, id: string)
    requires i < |s| && a.id == s[i].id
    ensures Count(s[i := a], id) == Count(s, id)
  {
    var n := |s| - 1;
    if i < n {
      UpdateCount(s[..n], i, a, id);
      assert s[i := a][..n] == s[..n][i := a];
    } else {
      assert s[i := a][..n] == s[..n];
    }
  }

  lemma {:induction false} NotListed(s: seq<Annotation>, id: string)
    ensures Count(s, id) == 0 <==> IndexOf(s, id) == |s|
  {
    if s != [] {
      var n := |s| - 1;
      NotListed(s[..n], id);
      var i, j := IndexOf(s, id), IndexOf(s[..n], id);
      assert forall k :: 0 <= k < n ==> s[..n][k] == s[k];
    }
  }

  lemma ApplyCount(s: seq<Annotation>, op: Op, id: string)
    ensures Count(ListApply(s, op), id) == if Count(s, id) == 0 && Records(op, id) then 1 else Count(s, id)
  {
    hide Count, IndexOf;
    match op
    case Ignore =>
    case Mark(x) =>
      var i := IndexOf(s, x);
      if i < |s| { UpdateCount(s, i, s[i].(deleted := true), id); }
    case Upsert(r) =>
      var i := IndexOf(s, r.id);
      NotListed(s, r.id);
      if i < |s| {
        UpdateCount(s, i, r.(deleted := s[i].deleted), id);
      } else {
        AppendCount(s, r.(deleted := false), id);
      }
  }

  lemma AppendCount(s: seq<Annotation>, a: Annotation, id: string)
    ensures Count(s + [a], id) == Count(s, id) + if a.id == id then 1 else 0
  {
    assert (s + [a])[..|s|] == s;
  }

  /** Draining lists an id that was not listed once if it is recorded, and never changes how
      often a listed id is listed. */
  lemma {:induction false} ReplayCount(s: seq<Annotation>, ops: seq<Op>, id: string)
    ensures Count(ListReplay(s, ops), id)
         == if Count(s, id) == 0 && Recorded(ops, |ops|, id) then 1 else Count(s, id)
    decreases |ops|
  {
    hide Count, ListApply;
    if ops != [] {
      var n := |ops| - 1;
      ReplayCount(s, ops[..n], id);
      ApplyCount(ListReplay(s, ops[..n]), ops[n], id);
      RecordedSplits(ops, id);
    }
  }

  lemma RecordedSplits(ops: seq<Op>, id: string)
    requires ops != []
    ensures var n := |ops| - 1; Recorded(ops, |ops|, id) <==> Recorded(ops[..n], n, id) || Records(ops[n], id)
  {
    var n := |ops| - 1;
    if Recorded(ops, |ops|, id) {
      var q :| 0 <= q < |ops| && Records(ops[q], id);
      if q < n { assert Records(ops[..n][q], id); }
    }
    if Recorded(ops[..n], n, id) {
      var q :| 0 <= q < n && Records(ops[..n][q], id);
      assert Records(ops[q], id);
    }
  }

  // ----- Whole histories of a list -----------------------------------------------------------------

  /** What the program may do to the list, in any state of it. */
  datatype Call =
    | Adds(a: Annotation)
    | Edits(id: string, title: string, description: string, kind: int)
    | Deletes(id: string)
    | Drains(ops: seq<Op>)

  function ListEdit(s: seq<Annotation>, c: Call): seq<Annotation>
    requires c.Edits?
  {
    var i := IndexOf(s, c.id);
    if i < |s| then s[i := s[i].(title := c.title, description := c.description, kind := c.kind)] else s
  }

  /** The call may take the list `s` to the list `t`: equal times may come in any order. */
  ghost predicate Takes(s: seq<Annotation>, c: Call, t: seq<Annotation>) {
    match c
    case Adds(a) => SortedFrom(t, s + [a])
    case Edits(_, _, _, _) => t == ListEdit(s, c)
    case Deletes(id) => t == ListApply(s, Mark(id))
    case Drains(ops) => SortedFrom(t, ListReplay(s, ops))
  }

  /** The lists a store goes through. */
  ghost predicate History(lists: seq<seq<Annotation>>, calls: seq<Call>) {
    |lists| == |calls| + 1 && forall i :: 0 <= i < |calls| ==> Takes(lists[i], calls[i], lists[i + 1])
  }

  lemma CallKeepsCount(s: seq<Annotation>, c: Call, t: seq<Annotation>, id: string)
    requires Takes(s, c, t)
    ensures Count(t, id) >= Count(s, id)
  {
    hide Count, IndexOf, ListApply, ListReplay, Sorted, ViewOf;
    match c
    case Adds(a) => AppendCount(s, a, id);
    case Edits(_, _, _, _) =>
      var i := IndexOf(s, c.id);
      if i < |s| { UpdateCount(s, i, s[i].(title := c.title, description := c.description, kind := c.kind), id); }
    case Deletes(x) => ApplyCount(s, Mark(x), id);
    case Drains(ops) => ReplayCount(s, ops, id);
  }

  /** Nothing ever takes an entry off the list. */
  lemma {:induction false} CountNeverFalls(lists: seq<seq<Annotation>>, calls: seq<Call>, id: string)
    requires History(lists, calls)
    ensures Count(lists[|calls|], id) >= Count(lists[0], id)
    decreases |calls|
  {
    hide Count, Takes;
    if calls != [] {
      var n := |calls| - 1;
      assert History(lists[..|calls|], calls[..n]);
      CountNeverFalls(lists[..|calls|], calls[..n], id);
      CallKeepsCount(lists[n], calls[n], lists[n + 1], id);
    }
  }

  /** A store without repeated ids gets none by draining. */
  lemma {:induction false} DrainsKeepDistinct(lists: seq<seq<Annotation>>, calls: seq<Call>)
    requires History(lists, calls) && Distinct(lists[0]) && forall c :: c in calls ==> c.Drains?
    ensures Distinct(lists[|calls|])
    decreases |calls|
  {
    hide Distinct, ListReplay;
    if calls != [] {
      var n := |calls| - 1;
      assert History(lists[..|calls|], calls[..n]);
      DrainsKeepDistinct(lists[..|calls|], calls[..n]);
      assert calls[n] in calls && Takes(lists[n], calls[n], lists[n + 1]);
      ListReplaysView(lists[n], calls[n].ops);
      SortedKeepsView(lists[n + 1], ListReplay(lists[n], calls[n].ops));
    }
  }

  /** A call did to the view, and published, what the move of the replica model says. */
  ghost predicate Performs(before: Store, m: Move, after: Store, published: seq<Item>) {
    Local(before, [], m) == (after, published)
  }

  class AnnotationStore {
    var annotations: seq<Annotation>
    var nextId: nat
    var pending: seq<Item>

    /** The list is in timestamp order. */
    ghost predicate Valid()
      reads this
    {
      Sorted(annotations)
    }

    ghost function View(): AnnotationReplicas.View
      reads this
    {
      ViewOf(annotations)
    }

    constructor ()
      ensures Valid() && Distinct(annotations) && View() == map[] && nextId == 1 && pending == []
    {
      annotations, nextId, pending := [], 1, [];
    }

    method Find(id: string) returns (i: nat)
      ensures i == IndexOf(annotations, id)
    {
      i := 0;
      while i < |annotations|
        invariant i <= |annotations| && forall k :: 0 <= k < i ==> annotations[k].id != id
      {
        if annotations[i].id == id { return; }
        i := i + 1;
      }
    }

    /** Place one entry into a sorted list. */
    static method Place(t: seq<Annotation>, a: Annotation, ghost s: seq<Annotation>) returns (r: seq<Annotation>)
      requires SortedFrom(t, s)
      ensures SortedFrom(r, s + [a])
    {
      var k := |t|;
      while k > 0 && t[k - 1].timestamp > a.timestamp
        invariant 0 <= k <= |t|
        invariant forall i :: k <= i < |t| ==> t[i].timestamp > a.timestamp
      {
        k := k - 1;
      }
      InsertSorted(t, k, a);
      SortedMore(t, s, k, a);
      r := Inserted(t, k, a);
    }

    /** A stand-in for `std::sort` by timestamp. */
    method SortByTimestamp()
      modifies this`annotations
      ensures Valid() && SortedFrom(annotations, old(annotations))
    {
      hide SortedFrom, Sorted;
      var out := [];
      NothingToSort();
      assert annotations[..0] == [];
      for i := 0 to |annotations|
        invariant annotations == old(annotations) && SortedFrom(out, annotations[..i])
      {
        out := Place(out, annotations[i], annotations[..i]);
        assert annotations[..i + 1] == annotations[..i] + [annotations[i]];
      }
      assert annotations[..|annotations|] == annotations;
      annotations := out;
      SortedIsSorted(annotations, old(annotations));
    }

    /** List a new annotation and publish it. */
    method Enter(a: Annotation) returns (published: seq<Item>)
      modifies this`annotations
      ensures Valid() && SortedFrom(annotations, old(annotations) + [a]) && published == [Item(a.id, Serialize(a))]
    {
      annotations := annotations + [a];
      SortByTimestamp();
      published := [Item(a.id, Serialize(a))];
    }

    /** The new annotation is listed whatever the list holds.  With a fresh id this is the Add
        move; an id that is listed already is listed once more. */
    method Add(now: nat, timestamp: real, title: string, description: string, kind: int, createdAt: string)
      returns (published: seq<Item>)
      modifies this
      ensures
        var a :=
          Annotation(NewId(now, old(nextId)), timestamp, title, description, kind, createdAt, "kv8scope", false);
        Takes(old(annotations), Adds(a), annotations) && published == [Item(a.id, Serialize(a))]
      ensures var id := NewId(now, old(nextId)); Count(annotations, id) == Count(old(annotations), id) + 1
      ensures Distinct(old(annotations)) && NewId(now, old(nextId)) !in old(View()) ==>
        Distinct(annotations)
        && Performs(Store(old(View()), 0, old(nextId)),
           Move.Add(0, now, timestamp, title, description, kind, createdAt),
                    Store(View(), 0, nextId), published)
      ensures Valid() && nextId == old(nextId) + 1 && pending == old(pending)
    {
      hide NewId, Serialize, ViewOf, SortedFrom, Count;
      ghost var was := annotations;
      var a := Annotation(NewId(now, nextId), timestamp, title, description, kind, createdAt, CREATOR, false);
      nextId := nextId + 1;
      published := Enter(a);
      ListedOnceMore(annotations, was, a);
      if Distinct(was) && a.id !in ViewOf(was) { ListedAsView(annotations, was, a); }
    }

    /** Editing concerns the first entry with the id, and publishes it. */
    method Edit(id: string, title: string, description: string, kind: int) returns (published: seq<Item>)
      requires Valid()
      modifies this`annotations
      ensures Valid() && Takes(old(annotations), Edits(id, title, description, kind), annotations)
      ensures var i := IndexOf(old(annotations), id);
        if i == |old(annotations)| then annotations == old(annotations) && published == []
        else
          var a := old(annotations)[i].(title := title, description := description, kind := kind);
          annotations == old(annotations)[i := a] && published == [Item(id, Serialize(a))]
      ensures Distinct(old(annotations)) ==>
        Distinct(annotations)
        && Performs(Store(old(View()), 0, nextId), Move.Edit(0, id, title, description, kind),
           Store(View(), 0, nextId), published)
    {
      hide Serialize, ViewOf, IndexOf;
      var i := Find(id);
      if Distinct(annotations) { IndexInView(annotations, id); }
      if i == |annotations| { return []; }
      var a := annotations[i].(title := title, description := description, kind := kind);
      if Distinct(annotations) { UpdateView(annotations, i, a); }
      annotations := annotations[i := a];
      published := [Item(id, Serialize(a))];
    }

    /** Soft deletion of the first entry with this id, if there is one. */
    method MarkDeleted(id: string)
      modifies this`annotations
      ensures annotations == ListApply(old(annotations), Mark(id))
    {
      var i := Find(id);
      if i < |annotations| { annotations := annotations[i := annotations[i].(deleted := true)]; }
    }

    method Delete(id: string) returns (published: seq<Item>)
      requires Valid()
      modifies this`annotations
      ensures Valid() && Takes(old(annotations), Deletes(id), annotations)
      ensures published == [Item(id, SerializeMarker(id))]
      ensures Distinct(old(annotations)) ==>
        Distinct(annotations)
        && Performs(Store(old(View()), 0, nextId), Move.Delete(0, id), Store(View(), 0, nextId), published)
    {
      hide SerializeMarker, ViewOf;
      if Distinct(annotations) { ListAppliesView(annotations, Mark(id)); }
      MarkDeleted(id);
      published := [Item(id, SerializeMarker(id))];
    }

    method PushFromKafka(item: Item)
      modifies this`pending
      ensures pending == old(pending) + [item]
    {
      pending := pending + [item];
    }

    /** One drained item. */
    method ApplyItem(item: Item)
      modifies this`annotations
      ensures annotations == ListApply(old(annotations), Decode(item))
    {
      if item.json == "" {
        if item.key != "" { MarkDeleted(item.key); }
        return;
      }
      var json := CStr(item.json);
      var deleted := JsonExtractBool(json, "deleted");
      var id := JsonExtractString(json, "id");
      if deleted {
        if id != "" { MarkDeleted(id); }
        return;
      }
      if id == "" { return; }
      var micros := JsonExtractInt64(json, "timestamp_us");
      var kind := JsonExtractInt64(json, "type");
      if kind < 0 || kind >= KINDS { kind := 0; }
      var title := JsonExtractString(json, "title");
      var description := JsonExtractString(json, "description");
      var createdAt := JsonExtractString(json, "created_at");
      var createdBy := JsonExtractString(json, "created_by");
      Upserted(Annotation(id, Seconds(micros), title, description, kind, createdAt, createdBy, false));
    }

    method Upserted(r: Annotation)
      requires !r.deleted
      modifies this`annotations
      ensures annotations == ListApply(old(annotations), Upsert(r))
    {
      var i := Find(r.id);
      if i < |annotations| {
        var a := annotations[i].(title := r.title, description := r.description, kind := r.kind,
                                 timestamp := r.timestamp, createdAt := r.createdAt, createdBy := r.createdBy);
        assert a == r.(deleted := annotations[i].deleted);
        annotations := annotations[i := a];
      } else {
        assert r.(deleted := false) == r;
        annotations := annotations + [r];
      }
    }

    /** The list becomes the replay of the pending items, in order of time. */
    method DrainPending()
      requires Valid()
      modifies this
      ensures Valid() && pending == [] && nextId == old(nextId)
      ensures Takes(old(annotations), Drains(Ops(old(pending))), annotations)
      ensures Distinct(old(annotations)) ==> Distinct(annotations) && View() == Replay(old(View()), Ops(old(pending)))
    {
      if pending == [] {
        AlreadySorted(annotations);
        return;
      }
      hide ViewOf, ListApply, ListReplay, Decode, Replay, SortedFrom;
      ghost var was := annotations;
      var batch := pending;
      pending := [];
      var ops := Ops(batch);
      NothingReplayed(was);
      assert ops[..0] == [];
      for i := 0 to |batch|
        invariant pending == [] && nextId == old(nextId) && annotations == ListReplay(was, ops[..i])
      {
        ReplayedOneMore(was, ops, i);
        ApplyItem(batch[i]);
      }
      assert ops[..|batch|] == ops;
      SortByTimestamp();
      if Distinct(was) {
        ListReplaysView(was, ops);
        SortedKeepsView(annotations, ListReplay(was, ops));
      }
    }
  }

  lemma AlreadySorted(s: seq<Annotation>)
    requires Sorted(s)
    ensures SortedFrom(s, ListReplay(s, []))
  {
  }

  lemma NothingToSort()
    ensures SortedFrom([], [])
  {
  }

  lemma SortedIsSorted(t: seq<Annotation>, s: seq<Annotation>)
    requires SortedFrom(t, s)
    ensures Sorted(t)
  {
  }

  lemma SortedKeepsView(t: seq<Annotation>, s: seq<Annotation>)
    requires SortedFrom(t, s) && Distinct(s)
    ensures Distinct(t) && ViewOf(t) == ViewOf(s)
  {
  }

  lemma ListedOnceMore(t: seq<Annotation>, s: seq<Annotation>, a: Annotation)
    requires SortedFrom(t, s + [a])
    ensures Count(t, a.id) == Count(s, a.id) + 1
  {
    CountSplits(s, [a], a.id);
  }

  lemma ListedAsView(t: seq<Annotation>, s: seq<Annotation>, a: Annotation)
    requires SortedFrom(t, s + [a]) && Distinct(s) && a.id !in ViewOf(s)
    ensures Distinct(t) && ViewOf(t) == ViewOf(s)[a.id := a]
  {
    AppendView(s, a);
  }

  lemma NothingReplayed(s: seq<Annotation>)
    ensures ListReplay(s, []) == s
  {
  }

  lemma ReplayedOneMore(s: seq<Annotation>, ops: seq<Op>, i: nat)
    requires i < |ops|
    ensures ListReplay(s, ops[..i + 1]) == ListApply(ListReplay(s, ops[..i]), ops[i])
  {
    assert ops[..i + 1][..i] == ops[..i];
  }

  /** An id clash shows at once and never heals: a store that adds an annotation whose id it
      lists already lists it twice, and at least twice whatever calls follow, while a store
      that only drains lists it at most once. */
  lemma ClashNeverHeals(s: seq<Annotation>, a: Annotation, lists: seq<seq<Annotation>>, calls: seq<Call>,
                        others: seq<seq<Annotation>>, drains: seq<Call>)
    requires Distinct(s) && a.id in ViewOf(s)
    requires History(lists, calls) && SortedFrom(lists[0], s + [a])
    requires History(others, drains) && others[0] == [] && forall c :: c in drains ==> c.Drains?
    ensures Count(lists[0], a.id) == 2 && Count(lists[|calls|], a.id) >= 2 && !Distinct(lists[|calls|])
    ensures Distinct(others[|drains|]) && Count(others[|drains|], a.id) <= 1
  {
    hide SortedFrom, ViewOf, Takes, Count;
    ClashIsListedTwice(s, lists[0], a);
    CountNeverFalls(lists, calls, a.id);
    if Distinct(lists[|calls|]) { CountAtMostOnce(lists[|calls|], a.id); }
    DrainsKeepDistinct(others, drains);
    CountAtMostOnce(others[|drains|], a.id);
  }

  lemma ClashIsListedTwice(s: seq<Annotation>, t: seq<Annotation>, a: Annotation)
    requires Distinct(s) && a.id in ViewOf(s) && SortedFrom(t, s + [a])
    ensures Count(t, a.id) == 2
  {
    hide SortedFrom, ViewOf;
    IndexInView(s, a.id);
    ListedOnceMore(t, s, a);
    CountAtMostOnce(s, a.id);
    assert HasId(s, a.id);
  }

  /** Both lists hold every id once at most, and the same entries. */
  ghost predicate Agree(s: seq<Annotation>, t: seq<Annotation>) {
    Distinct(s) && Distinct(t) && ViewOf(s) == ViewOf(t)
  }

  /** A store that adds `a` while `ops` are still to be drained agrees with one that does not,
      once both have drained them and the record of `a`, exactly when the id was not listed
      yet and `ops` do not mark it before its first record, or mark it again. */
  lemma ListAddConvergesIff(s: seq<Annotation>, t: seq<Annotation>, a: Annotation, r: Annotation, ops: seq<Op>)
    requires Distinct(s) && SortedFrom(t, s + [a]) && r.id == a.id && !a.deleted
    ensures Agree(ListReplay(t, ops + [Upsert(r)]), ListReplay(s, ops + [Upsert(r)]))
       <==> a.id !in ViewOf(s) && (MarkedEarly(ops, a.id) ==> MarkedLater(ops, a.id))
  {
    hide SortedFrom, ViewOf, Count, ListReplay, Distinct, Replay, MarkedEarly, MarkedLater;
    var all := ops + [Upsert(r)];
    ListReplaysView(s, all);
    if a.id in ViewOf(s) {
      ClashIsListedTwice(s, t, a);
      ReplayCount(t, all, a.id);
      if Distinct(ListReplay(t, all)) { CountAtMostOnce(ListReplay(t, all), a.id); }
    } else {
      ListedAsView(t, s, a);
      ListReplaysView(t, all);
      AddConvergesIff(ViewOf(s), a, r, ops);
    }
  }

  /** An entry holds the record, but for the mark. */
  ghost predicate Shows(s: seq<Annotation>, r: Annotation) {
    exists i :: 0 <= i < |s| && s[i] == r.(deleted := s[i].deleted)
  }

  lemma UpsertShows(s: seq<Annotation>, r: Annotation)
    ensures Shows(ListApply(s, Upsert(r)), r)
  {
    var u, i := ListApply(s, Upsert(r)), IndexOf(s, r.id);
    assert u[i] == r.(deleted := u[i].deleted);
  }

  lemma SortedShows(t: seq<Annotation>, s: seq<Annotation>, r: Annotation)
    requires SortedFrom(t, s) && Shows(s, r)
    ensures Shows(t, r)
  {
    var i :| 0 <= i < |s| && s[i] == r.(deleted := s[i].deleted);
    assert s[i] in multiset(t);
    assert s[i] in t;
  }

  /** The record drained last is listed by any store, and alone under its id unless the store
      listed that id more than once before. */
  lemma LastRecordIsListed(s: seq<Annotation>, t: seq<Annotation>, ops: seq<Op>, r: Annotation)
    requires SortedFrom(t, ListReplay(s, ops + [Upsert(r)]))
    ensures Shows(t, r) && Count(t, r.id) == if Count(s, r.id) == 0 then 1 else Count(s, r.id)
  {
    hide Count, ListReplay, ListApply, Shows, Sorted, ViewOf;
    var all := ops + [Upsert(r)];
    ReplayCount(s, all, r.id);
    assert Records(all[|ops|], r.id);
    assert all[..|ops|] == ops && all[..|ops| + 1] == all;
    ReplayedOneMore(s, all, |ops|);
    UpsertShows(ListReplay(s, ops), r);
    SortedShows(t, ListReplay(s, all), r);
  }
}
