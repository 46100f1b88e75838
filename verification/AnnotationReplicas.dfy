/**
 Annotation stores as replicas of one totally ordered log.  A local Add, Edit or Delete
 changes the local view and appends to the log; draining applies log items to the view.
 */
module AnnotationReplicas {
  import opened Options
  import opened JsonEscape
  import opened AnnotationCodec
  import opened Bits
  import opened Numerals

  type View = map<string, Annotation>

  /** What draining one item does to a store: deletion is a sticky mark, a record updates
      everything but the mark. */
  function Apply(v: View, op: Op): View {
    match op
    case Ignore => v
    case Mark(id) => if id in v then v[id := v[id].(deleted := true)] else v
    case Upsert(r) => if r.id in v then v[r.id := r.(deleted := v[r.id].deleted)] else v[r.id := r.(deleted := false)]
  }

  function Replay(v: View, ops: seq<Op>): View
    decreases |ops|
  {
    if ops == [] then v else Replay(Apply(v, ops[0]), ops[1..])
  }

  function Ops(items: seq<Item>): (r: seq<Op>)
    ensures |r| == |items| && forall i :: 0 <= i < |r| ==> r[i] == Decode(items[i])
  {
    seq(|items|, i requires 0 <= i < |items| => Decode(items[i]))
  }

  /** How arrivals are split into batches does not matter. */
  lemma {:induction false} ReplayAppend(v: View, a: seq<Op>, b: seq<Op>)
    ensures Replay(v, a + b) == Replay(Replay(v, a), b)
    decreases |a|
  {
    if a == [] {
      assert a + b == b;
    } else {
      assert (a + b)[1..] == a[1..] + b;
      ReplayAppend(Apply(v, a[0]), a[1..], b);
    }
  }

  /** Deletion never reverts. */
  lemma {:induction false} ReplayKeepsMarks(v: View, ops: seq<Op>, id: string)
    requires id in v && v[id].deleted
    ensures id in Replay(v, ops) && Replay(v, ops)[id].deleted
    decreases |ops|
  {
    if ops != [] { ReplayKeepsMarks(Apply(v, ops[0]), ops[1..], id); }
  }

  // ----- Local changes that a later record makes good ---------------------------------------

  /** Equal but for the contents, not the mark, of annotation `x`. */
  ghost predicate EqualBut(v: View, w: View, x: string) {
    && v.Keys == w.Keys
    && (forall k :: k in v && k != x ==> v[k] == w[k])
    && (x in v ==> v[x].deleted == w[x].deleted)
  }

  lemma {:induction false} EqualButReplay(v: View, w: View, ops: seq<Op>, x: string)
    requires EqualBut(v, w, x)
    ensures EqualBut(Replay(v, ops), Replay(w, ops), x)
    decreases |ops|
  {
    if ops != [] {
      hide EqualBut, Apply;
      EqualButApply(v, w, ops[0], x);
      EqualButReplay(Apply(v, ops[0]), Apply(w, ops[0]), ops[1..], x);
    }
  }

  lemma EqualButApply(v: View, w: View, op: Op, x: string)
    requires EqualBut(v, w, x)
    ensures EqualBut(Apply(v, op), Apply(w, op), x)
  {
    var v', w' := Apply(v, op), Apply(w, op);
    assert v'.Keys == w'.Keys;
    assert x in v' ==> v'[x].deleted == w'[x].deleted;
    forall k | k in v' && k != x ensures v'[k] == w'[k] { assert k in v ==> v[k] == w[k]; }
  }

  lemma EqualButHeals(v: View, w: View, ops: seq<Op>, r: Annotation)
    requires EqualBut(v, w, r.id)
    ensures Replay(v, ops + [Upsert(r)]) == Replay(w, ops + [Upsert(r)])
  {
    ReplayAppend(v, ops, [Upsert(r)]);
    ReplayAppend(w, ops, [Upsert(r)]);
    EqualButReplay(v, w, ops, r.id);
  }

  /** Marking early changes nothing once the marker is replayed. */
  lemma {:induction false} MarkHeals(v: View, ops: seq<Op>, x: string)
    requires x in v
    ensures Replay(Apply(v, Mark(x)), ops + [Mark(x)]) == Replay(v, ops + [Mark(x)])
    decreases |ops|
  {
    var m := Apply(v, Mark(x));
    if ops == [] {
      assert [Mark(x)][1..] == [] && ops + [Mark(x)] == [Mark(x)];
      assert Replay(m, [Mark(x)]) == Apply(m, Mark(x)) && Replay(v, [Mark(x)]) == Apply(v, Mark(x));
    } else {
      assert (ops + [Mark(x)])[1..] == ops[1..] + [Mark(x)];
      assert Apply(m, ops[0]) == Apply(Apply(v, ops[0]), Mark(x));
      MarkHeals(Apply(v, ops[0]), ops[1..], x);
    }
  }

  // ----- Adding while items are still to be drained --------------------------------------------

  /** `x` is marked before its first record. */
  predicate MarkedEarly(ops: seq<Op>, x: string) {
    ops != [] && (ops[0] == Mark(x) || (!(ops[0].Upsert? && ops[0].record.id == x) && MarkedEarly(ops[1..], x)))
  }

  /** `x` is marked after its first record. */
  predicate MarkedLater(ops: seq<Op>, x: string) {
    ops != [] && (if ops[0].Upsert? && ops[0].record.id == x then Mark(x) in ops[1..] else MarkedLater(ops[1..], x))
  }

  lemma {:induction false} MarkAfterRecord(v: View, ops: seq<Op>, x: string)
    requires x in v
    ensures x in Replay(v, ops) && Replay(v, ops)[x].deleted == (v[x].deleted || Mark(x) in ops)
    decreases |ops|
  {
    if ops != [] {
      MarkAfterRecord(Apply(v, ops[0]), ops[1..], x);
      assert Mark(x) in ops <==> ops[0] == Mark(x) || Mark(x) in ops[1..];
    }
  }

  /** The local copy of a new annotation and the same view without it, replayed: they differ
      in the mark of `x` exactly when `x` is marked early and never again. */
  lemma {:induction false} AddThenReplay(v: View, a: Annotation, ops: seq<Op>, x: string)
    requires x !in v
    ensures var p, q := Replay(v[x := a], ops), Replay(v, ops);
      && x in p && (forall k :: k != x ==> (k in p <==> k in q) && (k in q ==> p[k] == q[k]))
      && p[x].deleted == (a.deleted || MarkedEarly(ops, x) || MarkedLater(ops, x))
      && (x in q ==> q[x].deleted == MarkedLater(ops, x))
      && (x !in q ==> !MarkedLater(ops, x))
    decreases |ops|
  {
    if ops != [] {
      var op := ops[0];
      if op == Mark(x) {
        AddThenReplay(v, a.(deleted := true), ops[1..], x);
        assert Apply(v[x := a], op) == v[x := a.(deleted := true)];
      } else if op.Upsert? && op.record.id == x {
        var w := v[x := op.record.(deleted := a.deleted)];
        assert Apply(v[x := a], op) == w && Apply(v, op) == v[x := op.record.(deleted := false)];
        MarkAfterRecord(w, ops[1..], x);
        MarkAfterRecord(Apply(v, op), ops[1..], x);
        SameElsewhere(w, Apply(v, op), ops[1..], x);
      } else {
        assert Apply(v[x := a], op) == Apply(v, op)[x := a];
        AddThenReplay(Apply(v, op), a, ops[1..], x);
      }
    }
  }

  lemma {:induction false} SameElsewhere(v: View, w: View, ops: seq<Op>, x: string)
    requires v.Keys == w.Keys && forall k :: k in v && k != x ==> v[k] == w[k]
    ensures var p, q := Replay(v, ops), Replay(w, ops);
      p.Keys == q.Keys && forall k :: k in p && k != x ==> p[k] == q[k]
    decreases |ops|
  {
    if ops != [] { SameElsewhere(Apply(v, ops[0]), Apply(w, ops[0]), ops[1..], x); }
  }

  /** A store that adds `a` while `ops` are still to be drained ends up like the others
      exactly when `ops` do not mark the new id before its first record, or mark it again. */
  lemma AddConvergesIff(v: View, a: Annotation, r: Annotation, ops: seq<Op>)
    requires a.id !in v && r.id == a.id && !a.deleted
    ensures Replay(v[a.id := a], ops + [Upsert(r)]) == Replay(v, ops + [Upsert(r)])
       <==> (MarkedEarly(ops, a.id) ==> MarkedLater(ops, a.id))
  {
    var x, p, q := a.id, Replay(v[a.id := a], ops), Replay(v, ops);
    ReplayAppend(v[x := a], ops, [Upsert(r)]);
    ReplayAppend(v, ops, [Upsert(r)]);
    AddThenReplay(v, a, ops, x);
    var p', q' := Apply(p, Upsert(r)), Apply(q, Upsert(r));
    assert Replay(p, [Upsert(r)]) == p' && Replay(q, [Upsert(r)]) == q';
    assert p'[x].deleted == q'[x].deleted ==> p' == q';
  }

  // ----- Identifiers -----------------------------------------------------------------------------

  const SECONDS := 0x1_0000_0000  // the clock is printed as 32 bits
  const SERIALS := 0x1_0000_0000_0000_0000

  /** `<creation time in hex>-<sequence number>`. */
  function NewId(now: nat, serial: nat): string { Hex(now, 8) + "-" + Decimal(serial) }

  /** An id whose delete marker fits and that needs no escaping. */
  ghost predicate GoodId(id: string) { Plain(id) && id != "" && |id| + 24 <= MARKER_ROOM }

  lemma {:induction false} DecimalLength(n: nat, k: nat)
    requires k >= 1 && n < Pow10(k)
    ensures |Decimal(n)| <= k
    decreases k
  {
    if n >= 10 { DecimalLength(n / 10, k - 1); }
  }

  lemma TwentyPlaces()
    ensures SERIALS < Pow10(20)
  {
    assert Pow10(8) == 100000000;
    assert Pow10(14) == 1000000 * Pow10(8);
    assert Pow10(20) == 1000000 * Pow10(14);
  }

  lemma NewIdIsGood(now: nat, serial: nat)
    requires serial < SERIALS
    ensures GoodId(NewId(now, serial))
  {
    TwentyPlaces();
    DecimalLength(serial, 20);
    DecimalIsPlain(serial);
    HexIsPlain(now);
    hide Pow10, Decimal, Hex, Plain;
    PlainJoins(Hex(now, 8), "-", Decimal(serial));
  }

  lemma DecimalIsPlain(n: nat)
    ensures Plain(Decimal(n))
  {
    assert forall c :: c in Decimal(n) ==> Digit(c);
  }

  lemma HexIsPlain(n: nat)
    ensures Plain(Hex(n, 8))
  {
    assert forall c :: c in HEX ==> c != '"' && c != '\\' && c != '\0';
  }

  lemma PlainJoins(a: string, b: string, c: string)
    requires Plain(a) && Plain(c) && b == "-"
    ensures Plain(a + b + c)
  {
  }

  lemma {:induction false} HexInjective(m: nat, n: nat, width: nat)
    requires m < Pow16(width) && n < Pow16(width) && Hex(m, width) == Hex(n, width)
    ensures m == n
    decreases width
  {
    if width > 0 {
      var a, b := Hex(m, width), Hex(n, width);
      assert a[..width - 1] == Hex(m / 16, width - 1) && b[..width - 1] == Hex(n / 16, width - 1);
      HexInjective(m / 16, n / 16, width - 1);
      assert HEX[m % 16] == a[width - 1] == HEX[n % 16];
      HexTells(m % 16, n % 16);
    }
  }

  lemma HexTells(m: nat, n: nat)
    requires m < 16 && n < 16 && HEX[m] == HEX[n]
    ensures m == n
  {
  }

  lemma {:induction false} DecimalInjective(m: nat, n: nat)
    requires Decimal(m) == Decimal(n)
    ensures m == n
  {
    DecimalScale(m, 0, "");
    DecimalScale(n, 0, "");
  }

  /** The eight printed digits are those of the clock's low 32 bits. */
  lemma {:induction false} HexWraps(n: nat, width: nat)
    ensures Pow16(width) > 0 && Hex(n, width) == Hex(n % Pow16(width), width)
    decreases width
  {
    if width > 0 {
      var p := Pow16(width - 1);
      HexWraps(n / 16, width - 1);
      HexWraps((n % (16 * p)) / 16, width - 1);
      LowDigits(n, p);
    }
  }

  lemma LowDigits(n: nat, p: nat)
    requires p > 0
    ensures n % (16 * p) % 16 == n % 16 && n % (16 * p) / 16 == n / 16 % p
  {
    var q, r := n / (16 * p), n % (16 * p);
    assert n == 16 * (p * q) + r;
    assert r / 16 < p && n / 16 == q * p + r / 16;
    ModUnique(n / 16, p, q, r / 16);
  }

  lemma EightDigits()
    ensures Pow16(8) == SECONDS
  {
    assert Pow16(4) == 0x1_0000;
    assert Pow16(6) == 256 * Pow16(4);
  }

  /** Eight hexadecimal digits of the clock, a dash, and the sequence number. */
  lemma NewIdText(now: nat, serial: nat, k: nat)
    requires k < 8
    ensures var id := NewId(now, serial);
      |id| > 9 && id[7 - k] == HEX[now / Pow16(k) % 16] && id[8] == '-' && id[9..] == Decimal(serial)
  {
    HexPlaces(now, 8, k);
    hide Hex, Decimal;
  }

  /** Two creations share an id exactly when clock second, as printed, and sequence number coincide. */
  lemma IdsUnique(now: nat, serial: nat, now': nat, serial': nat)
    ensures NewId(now, serial) == NewId(now', serial') <==> now % SECONDS == now' % SECONDS && serial == serial'
  {
    EightDigits();
    HexWraps(now, 8);
    HexWraps(now', 8);
    var h, h' := Hex(now % SECONDS, 8), Hex(now' % SECONDS, 8);
    if NewId(now, serial) == NewId(now', serial') {
      var a, b := NewId(now, serial), NewId(now', serial');
      assert a[..8] == h && b[..8] == h';
      assert a[9..] == Decimal(serial) && b[9..] == Decimal(serial');
      HexInjective(now % SECONDS, now' % SECONDS, 8);
      DecimalInjective(serial, serial');
    }
  }

  // ----- The cluster ----------------------------------------------------------------------------------

  /** A store: its view, how much of the log it has drained, and its next sequence number. */
  datatype Store = Store(view: View, offset: nat, nextId: nat)

  /** An id handed out: by which store, in which second of the clock, with which number. */
  datatype Stamp = Stamp(store: nat, second: nat, serial: nat) {
    function Id(): string { NewId(second, serial) }
  }

  datatype Cluster = Cluster(stores: seq<Store>, log: seq<Item>, issued: set<Stamp>)

  datatype Move =
    | Add(s: nat, now: nat, timestamp: real, title: string, description: string, kind: int, createdAt: string)
    | Edit(s: nat, id: string, title: string, description: string, kind: int)
    | Delete(s: nat, id: string)
    | Drain(s: nat, count: nat)

  const CREATOR := "kv8scope"

  /** No other store has handed out this sequence number in this second. */
  ghost predicate NoClash(issued: set<Stamp>, s: nat, now: nat, serial: nat) {
    forall t :: t in issued && t.store != s ==> !(t.second == now % SECONDS && t.serial == serial)
  }

  /** The moves as the program offers them.  Every store counts its annotations from 1, so
      two stores must not annotate in the same second with the same number; an annotation is
      deleted once its record was published, which holds for all that a store lists. */
  ghost predicate Allowed(c: Cluster, m: Move) {
    m.s < |c.stores| &&
    var st := c.stores[m.s];
    match m
    case Add(_, now, _, _, _, kind, createdAt) =>
      0 <= kind < KINDS && Plain(createdAt) && st.nextId < SERIALS && NoClash(c.issued, m.s, now, st.nextId)
    case Edit(_, _, _, _, kind) => 0 <= kind < KINDS
    case Delete(_, id) => Recorded(Ops(c.log), |c.log|, id)
    case Drain(_, count) => st.offset + count <= |c.log|
  }

  function Added(m: Move, serial: nat): Annotation
    requires m.Add?
  {
    Annotation(NewId(m.now, serial), m.timestamp, m.title, m.description, m.kind, m.createdAt, CREATOR, false)
  }

  function Edited(a: Annotation, m: Move): Annotation
    requires m.Edit?
  {
    a.(title := m.title, description := m.description, kind := m.kind)
  }

  /** The local effect of a move, and what it publishes. */
  function Local(st: Store, log: seq<Item>, m: Move): (Store, seq<Item>) {
    match m
    case Add(_, _, _, _, _, _, _) =>
      var a := Added(m, st.nextId);
      (st.(view := st.view[a.id := a], nextId := st.nextId + 1), [Item(a.id, Serialize(a))])
    case Edit(_, id, _, _, _) =>
      if id in st.view then
        var a := Edited(st.view[id], m);
        (st.(view := st.view[id := a]), [Item(a.id, Serialize(a))])
      else (st, [])
    case Delete(_, id) =>
      (st.(view := Apply(st.view, Mark(id))), [Item(id, SerializeMarker(id))])
    case Drain(_, count) =>
      if st.offset + count <= |log| then
        (st.(view := Replay(st.view, Ops(log[st.offset..st.offset + count])), offset := st.offset + count), [])
      else (st, [])
  }

  /** The stamps a move hands out. */
  function Stamps(c: Cluster, m: Move): set<Stamp>
    requires m.s < |c.stores|
  {
    if m.Add? then {Stamp(m.s, m.now % SECONDS, c.stores[m.s].nextId)} else {}
  }

  function Do(c: Cluster, m: Move): Cluster
    requires Allowed(c, m)
  {
    var (st, published) := Local(c.stores[m.s], c.log, m);
    Cluster(c.stores[m.s := st], c.log + published, c.issued + Stamps(c, m))
  }

  ghost function Run(c: Cluster, moves: seq<Move>): Option<Cluster>
    decreases |moves|
  {
    if moves == [] then Some(c)
    else if Allowed(c, moves[0]) then Run(Do(c, moves[0]), moves[1..])
    else None
  }

  function Initial(n: nat): Cluster { Cluster(seq(n, _ => Store(map[], 0, 1)), [], {}) }

  // ----- The invariant -----------------------------------------------------------------------------------

  predicate Records(op: Op, id: string) { op.Upsert? && op.record.id == id }

  ghost predicate Recorded(ops: seq<Op>, n: nat, id: string)
    requires n <= |ops|
  {
    exists q :: 0 <= q < n && Records(ops[q], id)
  }

  ghost predicate EntryOk(ops: seq<Op>, n: nat, op: Op)
    requires n <= |ops|
  {
    match op
    case Ignore => false
    case Mark(id) => Recorded(ops, n, id)
    case Upsert(r) => Printable(r) && GoodId(r.id) && !r.deleted
  }

  /** Every logged item is a printable record, or marks an annotation recorded before. */
  ghost predicate LogOk(ops: seq<Op>) {
    forall p :: 0 <= p < |ops| ==> EntryOk(ops, p, ops[p])
  }

  /** A store is as far as its view and the rest of the log say. */
  ghost predicate CaughtUp(st: Store, ops: seq<Op>) {
    st.offset <= |ops| && Replay(st.view, ops[st.offset..]) == Replay(map[], ops)
  }

  ghost predicate ViewOk(view: View, ops: seq<Op>) {
    forall id :: id in view ==> view[id].id == id && GoodId(id) && Printable(view[id]) && Recorded(ops, |ops|, id)
  }

  /** A store holds what it drained, and nothing that was never recorded. */
  ghost predicate Holds(st: Store, ops: seq<Op>)
    requires st.offset <= |ops|
  {
    && ViewOk(st.view, ops)
    && (forall p :: 0 <= p < st.offset && ops[p].Upsert? ==> ops[p].record.id in st.view)
  }

  ghost predicate StoreOk(st: Store, ops: seq<Op>) { CaughtUp(st, ops) && Holds(st, ops) }

  /** The id was handed out. */
  ghost predicate Issued(issued: set<Stamp>, id: string) { exists t :: t in issued && t.Id() == id }

  /** Numbers grow at each store, no second and number were handed out twice, and whatever the
      log records carries an id that was handed out. */
  ghost predicate StampsOk(c: Cluster) {
    && (forall t :: t in c.issued ==> t.store < |c.stores| && t.serial < c.stores[t.store].nextId && t.second < SECONDS)
    && (forall t, u :: t in c.issued && u in c.issued && t.second == u.second && t.serial == u.serial ==> t == u)
  }

  ghost predicate LogIssued(ops: seq<Op>, issued: set<Stamp>) {
    forall p :: 0 <= p < |ops| && ops[p].Upsert? ==> Issued(issued, ops[p].record.id)
  }

  ghost predicate StoresOk(stores: seq<Store>, ops: seq<Op>) {
    forall i :: 0 <= i < |stores| ==> StoreOk(stores[i], ops)
  }

  ghost predicate Inv(c: Cluster) {
    && LogOk(Ops(c.log)) && StoresOk(c.stores, Ops(c.log))
    && StampsOk(c) && LogIssued(Ops(c.log), c.issued)
  }

  lemma InitialInv(n: nat)
    ensures Inv(Initial(n))
  {
  }

  // ----- New ids are new ----------------------------------------------------------------------------------

  /** Different stamps are different ids. */
  lemma StampsTell(c: Cluster, t: Stamp, u: Stamp)
    requires StampsOk(c) && t in c.issued && u in c.issued && t.Id() == u.Id()
    ensures t == u
  {
    IdsUnique(t.second, t.serial, u.second, u.serial);
    SmallSecond(t.second);
    SmallSecond(u.second);
  }

  lemma SmallSecond(second: nat)
    requires second < SECONDS
    ensures second % SECONDS == second
  {
  }

  lemma NewIdNotIssued(c: Cluster, m: Move)
    requires StampsOk(c) && m.Add? && Allowed(c, m)
    ensures !Issued(c.issued, NewId(m.now, c.stores[m.s].nextId))
  {
    var id := NewId(m.now, c.stores[m.s].nextId);
    if Issued(c.issued, id) {
      var t :| t in c.issued && t.Id() == id;
      IdsUnique(t.second, t.serial, m.now, c.stores[m.s].nextId);
      SmallSecond(t.second);
    }
  }

  /** The id of a new annotation is in no record of the log, and no store lists it. */
  lemma NewIdIsFresh(c: Cluster, m: Move)
    requires Inv(c) && m.Add? && Allowed(c, m)
    ensures var id := NewId(m.now, c.stores[m.s].nextId);
      && !Recorded(Ops(c.log), |c.log|, id)
      && forall i :: 0 <= i < |c.stores| ==> id !in c.stores[i].view
  {
    var id, ops := NewId(m.now, c.stores[m.s].nextId), Ops(c.log);
    if Recorded(ops, |ops|, id) { RecordedIsIssued(ops, c.issued, id); }
    assert c.issued + {} == c.issued;
    NewIdNotIssued(c, m);
    forall i | 0 <= i < |c.stores| ensures id !in c.stores[i].view { assert StoreOk(c.stores[i], ops); }
  }

  /** Everything a store lists was published, so it may be deleted. */
  lemma ListedMayBeDeleted(c: Cluster, s: nat, id: string)
    requires Inv(c) && s < |c.stores| && id in c.stores[s].view
    ensures Allowed(c, Delete(s, id))
  {
    assert StoreOk(c.stores[s], Ops(c.log));
  }

  /** Only an Add counts, at its own store. */
  lemma CountersAfter(c: Cluster, m: Move)
    requires Allowed(c, m)
    ensures |Do(c, m).stores| == |c.stores| && Do(c, m).issued == c.issued + Stamps(c, m)
    ensures forall i ::
      0 <= i < |c.stores| ==> Do(c, m).stores[i].nextId == c.stores[i].nextId + if m.Add? && i == m.s then 1 else 0
  {
    hide NoClash, Recorded, Plain, NewId, Serialize, SerializeMarker, Replay, Ops, Apply, Stamps;
  }

  lemma StampsKeepOk(c: Cluster, m: Move)
    requires StampsOk(c) && Allowed(c, m)
    ensures StampsOk(Do(c, m))
  {
    hide Do, Ops, Recorded, Plain;
    CountersAfter(c, m);
    var d := Do(c, m);
    if m.Add? {
      var n := Stamp(m.s, m.now % SECONDS, c.stores[m.s].nextId);
      forall t | t in c.issued ensures !(t.second == n.second && t.serial == n.serial) {
        if t.store == m.s { assert t.serial < n.serial; }
      }
    } else {
      assert d.issued == c.issued;
    }
  }

  // ----- One log entry more --------------------------------------------------------------------------------

  lemma AppendKeepsStore(st: Store, ops: seq<Op>, op: Op)
    requires StoreOk(st, ops)
    ensures StoreOk(st, ops + [op])
  {
    assert (ops + [op])[st.offset..] == ops[st.offset..] + [op];
    ReplayAppend(st.view, ops[st.offset..], [op]);
    ReplayAppend(map[], ops, [op]);
    forall id | Recorded(ops, |ops|, id) ensures Recorded(ops + [op], |ops| + 1, id) {
      var q :| 0 <= q < |ops| && Records(ops[q], id);
      assert Records((ops + [op])[q], id);
    }
  }

  lemma AppendKeepsLog(ops: seq<Op>, op: Op)
    requires LogOk(ops) && EntryOk(ops, |ops|, op)
    ensures LogOk(ops + [op])
  {
    var l := ops + [op];
    forall p, id | 0 <= p <= |ops| && Recorded(ops, p, id) ensures Recorded(l, p, id) {
      var q :| 0 <= q < p && Records(ops[q], id);
      assert Records(l[q], id);
    }
  }

  /** No id a store does not hold is marked early in what it still has to drain. */
  lemma {:induction false} NotMarkedEarly(ops: seq<Op>, i: nat, x: string)
    requires i <= |ops| && LogOk(ops) && !Recorded(ops, i, x)
    ensures !MarkedEarly(ops[i..], x)
    decreases |ops| - i
  {
    if i < |ops| {
      assert ops[i..][1..] == ops[i + 1..] && ops[i..][0] == ops[i];
      if !Records(ops[i], x) { NotMarkedEarly(ops, i + 1, x); }
    }
  }

  // ----- The moves ---------------------------------------------------------------------------------------------

  /** A store that publishes `op` and ends up where the whole log leads. */
  lemma PublisherOk(st: Store, st': Store, ops: seq<Op>, op: Op)
    requires StoreOk(st, ops) && st'.offset == st.offset
    requires Replay(st'.view, ops[st.offset..] + [op]) == Replay(st.view, ops[st.offset..] + [op])
    requires st.view.Keys <= st'.view.Keys
    requires forall id :: id in st'.view ==>
      st'.view[id].id == id && GoodId(id) && Printable(st'.view[id]) && (id in st.view || Records(op, id))
    ensures StoreOk(st', ops + [op])
  {
    AppendKeepsStore(st, ops, op);
    var l := ops + [op];
    assert l[st.offset..] == ops[st.offset..] + [op];
    forall id | id in st'.view ensures Recorded(l, |l|, id) {
      if id !in st.view { assert Records(l[|ops|], id); }
    }
  }

  lemma AddOk(st: Store, ops: seq<Op>, a: Annotation)
    requires StoreOk(st, ops) && LogOk(ops)
    requires Printable(a) && GoodId(a.id) && !a.deleted && a.id !in st.view
    ensures var op := Decode(Item(a.id, Serialize(a)));
      EntryOk(ops, |ops|, op) && StoreOk(st.(view := st.view[a.id := a], nextId := st.nextId + 1), ops + [op])
      && Records(op, a.id)
  {
    var op := Decode(Item(a.id, Serialize(a)));
    RecordStaysPrintable(a, a.id);
    forall q | 0 <= q < st.offset ensures !Records(ops[q], a.id) { }
    NotMarkedEarly(ops, st.offset, a.id);
    AddConvergesIff(st.view, a, op.record, ops[st.offset..]);
    PublisherOk(st, st.(view := st.view[a.id := a], nextId := st.nextId + 1), ops, op);
  }

  lemma EditOk(st: Store, ops: seq<Op>, m: Move)
    requires StoreOk(st, ops) && m.Edit? && 0 <= m.kind < KINDS && m.id in st.view
    ensures var a := Edited(st.view[m.id], m); var op := Decode(Item(a.id, Serialize(a)));
      EntryOk(ops, |ops|, op) && StoreOk(st.(view := st.view[m.id := a]), ops + [op]) && Records(op, m.id)
  {
    hide Serialize, Decode, Replay, Recorded;
    var a := Edited(st.view[m.id], m);
    var op := Decode(Item(a.id, Serialize(a)));
    RecordStaysPrintable(a, a.id);
    EqualButHeals(st.view[m.id := a], st.view, ops[st.offset..], op.record);
    PublisherOk(st, st.(view := st.view[m.id := a]), ops, op);
  }

  lemma DeleteOk(st: Store, ops: seq<Op>, id: string)
    requires StoreOk(st, ops) && Recorded(ops, |ops|, id) && GoodId(id)
    ensures var op := Decode(Item(id, SerializeMarker(id)));
      op == Mark(id) && EntryOk(ops, |ops|, op) && StoreOk(st.(view := Apply(st.view, Mark(id))), ops + [op])
  {
    var op := Decode(Item(id, SerializeMarker(id)));
    MarkerRoundTrip(id, id);
    if id in st.view {
      MarkHeals(st.view, ops[st.offset..], id);
      PublisherOk(st, st.(view := Apply(st.view, Mark(id))), ops, op);
    } else {
      assert st.(view := st.view) == st;
      AppendKeepsStore(st, ops, op);
    }
  }

  /** One drained item. */
  lemma ApplyHolds(view: View, all: seq<Op>, p: nat)
    requires p < |all| && EntryOk(all, p, all[p]) && ViewOk(view, all)
    ensures ViewOk(Apply(view, all[p]), all) && view.Keys <= Apply(view, all[p]).Keys
    ensures all[p].Upsert? ==> all[p].record.id in Apply(view, all[p])
  {
    hide GoodId, Printable;
    var op := all[p];
    if op.Upsert? { assert Records(all[p], op.record.id); }
    PrintableWithMark(view, op);
  }

  lemma PrintableWithMark(view: View, op: Op)
    ensures op.Mark? && op.id in view && Printable(view[op.id]) ==> Printable(view[op.id].(deleted := true))
    ensures op.Upsert? && Printable(op.record) ==> forall d :: Printable(op.record.(deleted := d))
  {
  }

  lemma {:induction false} DrainHolds(view: View, all: seq<Op>, from: nat, end: nat)
    requires from <= end <= |all| && LogOk(all) && ViewOk(view, all)
    ensures ViewOk(Replay(view, all[from..end]), all) && view.Keys <= Replay(view, all[from..end]).Keys
    ensures forall p :: from <= p < end && all[p].Upsert? ==> all[p].record.id in Replay(view, all[from..end])
    decreases end - from
  {
    if from < end {
      hide EntryOk, ViewOk, Apply;
      var op := all[from];
      assert EntryOk(all, from, op);
      assert all[from..end][1..] == all[from + 1..end];
      ApplyHolds(view, all, from);
      DrainHolds(Apply(view, op), all, from + 1, end);
    }
  }

  lemma DrainOk(st: Store, ops: seq<Op>, count: nat)
    requires StoreOk(st, ops) && LogOk(ops) && st.offset + count <= |ops|
    ensures StoreOk(st.(view := Replay(st.view, ops[st.offset..st.offset + count]), offset := st.offset + count), ops)
  {
    hide Replay, LogOk, ViewOk;
    var end := st.offset + count;
    assert ops[st.offset..] == ops[st.offset..end] + ops[end..];
    ReplayAppend(st.view, ops[st.offset..end], ops[end..]);
    DrainHolds(st.view, ops, st.offset, end);
  }

  lemma OpsAppend(items: seq<Item>, item: Item)
    ensures Ops(items + [item]) == Ops(items) + [Decode(item)]
  {
  }

  /** One more item in the log, and store `s` in its new state. */
  lemma PublishKeepsStores(c: Cluster, s: nat, st': Store, item: Item)
    requires LogOk(Ops(c.log)) && StoresOk(c.stores, Ops(c.log)) && s < |c.stores|
    requires EntryOk(Ops(c.log), |c.log|, Decode(item)) && StoreOk(st', Ops(c.log) + [Decode(item)])
    ensures LogOk(Ops(c.log + [item])) && Ops(c.log + [item]) == Ops(c.log) + [Decode(item)]
    ensures StoresOk(c.stores[s := st'], Ops(c.log + [item]))
  {
    var ops := Ops(c.log);
    OpsAppend(c.log, item);
    AppendKeepsLog(ops, Decode(item));
    forall i | 0 <= i < |c.stores| && i != s ensures StoreOk(c.stores[i], ops + [Decode(item)]) {
      AppendKeepsStore(c.stores[i], ops, Decode(item));
    }
  }

  lemma IssuedMore(ops: seq<Op>, issued: set<Stamp>, more: set<Stamp>, op: Op)
    requires LogIssued(ops, issued) && (op.Upsert? ==> Issued(issued + more, op.record.id))
    ensures LogIssued(ops + [op], issued + more)
  {
    forall p | 0 <= p < |ops| && ops[p].Upsert? ensures Issued(issued + more, ops[p].record.id) {
      IssuedStays(issued, more, ops[p].record.id);
    }
  }

  lemma IssuedStays(issued: set<Stamp>, more: set<Stamp>, id: string)
    requires Issued(issued, id)
    ensures Issued(issued + more, id)
  {
    var t :| t in issued && t.Id() == id;
    assert t in issued + more;
  }

  lemma AddPublishes(c: Cluster, m: Move)
    requires m.Add? && Allowed(c, m)
    ensures var st, a := c.stores[m.s], Added(m, c.stores[m.s].nextId);
      Do(c, m) == Cluster(c.stores[m.s := st.(view := st.view[a.id := a], nextId := st.nextId + 1)],
                          c.log + [Item(a.id, Serialize(a))], c.issued + {Stamp(m.s, m.now % SECONDS, st.nextId)})
  {
    hide Serialize, NewId, NoClash, Replay, Ops, Apply;
  }

  /** The stamp's id is the annotation's. */
  lemma StampNamesIt(issued: set<Stamp>, s: nat, now: nat, serial: nat)
    ensures Issued(issued + {Stamp(s, now % SECONDS, serial)}, NewId(now, serial))
  {
    var t := Stamp(s, now % SECONDS, serial);
    IdsUnique(now % SECONDS, serial, now, serial);
    SmallSecond(now % SECONDS);
    hide NewId;
    assert t in issued + {t} && t.Id() == NewId(now, serial);
  }

  lemma AddKeepsInv(c: Cluster, m: Move)
    requires Inv(c) && m.Add? && Allowed(c, m)
    ensures Inv(Do(c, m))
  {
    hide Serialize, Decode, StoreOk, LogOk, EntryOk, Printable, GoodId, Ops, Do, StampsOk, LogIssued, Issued,
         Recorded, NoClash;
    var st, a := c.stores[m.s], Added(m, c.stores[m.s].nextId);
    var op := Decode(Item(a.id, Serialize(a)));
    NewIdIsFresh(c, m);
    NewIdIsGood(m.now, st.nextId);
    AddedIsPrintable(m, st.nextId);
    AddOk(st, Ops(c.log), a);
    PublishKeepsStores(c, m.s, st.(view := st.view[a.id := a], nextId := st.nextId + 1), Item(a.id, Serialize(a)));
    StampNamesIt(c.issued, m.s, m.now, st.nextId);
    IssuedMore(Ops(c.log), c.issued, {Stamp(m.s, m.now % SECONDS, st.nextId)}, op);
    StampsKeepOk(c, m);
    AddPublishes(c, m);
  }

  lemma AddedIsPrintable(m: Move, serial: nat)
    requires m.Add? && 0 <= m.kind < KINDS && Plain(m.createdAt) && GoodId(NewId(m.now, serial))
    ensures Printable(Added(m, serial)) && !Added(m, serial).deleted
  {
  }

  lemma EditPublishes(c: Cluster, m: Move)
    requires m.Edit? && Allowed(c, m) && m.id in c.stores[m.s].view && c.stores[m.s].view[m.id].id == m.id
    ensures var st, a := c.stores[m.s], Edited(c.stores[m.s].view[m.id], m);
      Do(c, m) == Cluster(c.stores[m.s := st.(view := st.view[m.id := a])], c.log + [Item(a.id, Serialize(a))],
         c.issued + {})
  {
  }

  lemma RecordedIsIssued(ops: seq<Op>, issued: set<Stamp>, id: string)
    requires LogIssued(ops, issued) && Recorded(ops, |ops|, id)
    ensures Issued(issued + {}, id)
  {
    var q :| 0 <= q < |ops| && Records(ops[q], id);
    assert issued + {} == issued;
  }

  lemma EditKeepsInv(c: Cluster, m: Move)
    requires Inv(c) && m.Edit? && Allowed(c, m)
    ensures Inv(Do(c, m))
  {
    var st := c.stores[m.s];
    assert StoreOk(st, Ops(c.log));
    if m.id in st.view {
      EditedKeepsInv(c, m);
    } else {
      assert c.stores[m.s := st] == c.stores && c.log + [] == c.log && c.issued + {} == c.issued;
      assert Do(c, m) == c;
    }
  }

  lemma EditedKeepsInv(c: Cluster, m: Move)
    requires Inv(c) && m.Edit? && Allowed(c, m) && m.id in c.stores[m.s].view
    requires Holds(c.stores[m.s], Ops(c.log))
    ensures Inv(Do(c, m))
  {
    hide Serialize, Decode, StoreOk, LogOk, EntryOk, Printable, GoodId, Ops, Do, StampsOk, LogIssued, Issued, Recorded;
    var st := c.stores[m.s];
    var a := Edited(st.view[m.id], m);
    EditOk(st, Ops(c.log), m);
    PublishKeepsStores(c, m.s, st.(view := st.view[m.id := a]), Item(a.id, Serialize(a)));
    RecordedIsIssued(Ops(c.log), c.issued, m.id);
    IssuedMore(Ops(c.log), c.issued, {}, Decode(Item(a.id, Serialize(a))));
    StampsKeepOk(c, m);
    EditPublishes(c, m);
  }

  lemma DeletePublishes(c: Cluster, m: Move)
    requires m.Delete? && Allowed(c, m)
    ensures var st := c.stores[m.s];
      Do(c, m) == Cluster(c.stores[m.s := st.(view := Apply(st.view, Mark(m.id)))],
         c.log + [Item(m.id, SerializeMarker(m.id))], c.issued + {})
  {
  }

  lemma RecordedIsGood(ops: seq<Op>, id: string)
    requires LogOk(ops) && Recorded(ops, |ops|, id)
    ensures GoodId(id)
  {
    var q :| 0 <= q < |ops| && Records(ops[q], id);
    assert EntryOk(ops, q, ops[q]);
  }

  lemma DeleteKeepsInv(c: Cluster, m: Move)
    requires Inv(c) && m.Delete? && Allowed(c, m)
    ensures Inv(Do(c, m))
  {
    hide SerializeMarker, Decode, StoreOk, LogOk, EntryOk, GoodId, Ops, Do, StampsOk, LogIssued, Issued, Recorded,
         Apply;
    var st := c.stores[m.s];
    RecordedIsGood(Ops(c.log), m.id);
    DeleteOk(st, Ops(c.log), m.id);
    PublishKeepsStores(c, m.s, st.(view := Apply(st.view, Mark(m.id))), Item(m.id, SerializeMarker(m.id)));
    IssuedMore(Ops(c.log), c.issued, {}, Mark(m.id));
    StampsKeepOk(c, m);
    DeletePublishes(c, m);
  }

  lemma DrainAdvances(c: Cluster, m: Move)
    requires m.Drain? && Allowed(c, m)
    ensures var st := c.stores[m.s]; var upto := st.offset + m.count;
      Do(c, m) == Cluster(c.stores[m.s := st.(view := Replay(st.view, Ops(c.log)[st.offset..upto]), offset := upto)],
         c.log, c.issued)
  {
    var st := c.stores[m.s];
    assert Ops(c.log[st.offset..st.offset + m.count]) == Ops(c.log)[st.offset..st.offset + m.count];
    assert c.log + [] == c.log && c.issued + {} == c.issued;
  }

  lemma DrainKeepsInv(c: Cluster, m: Move)
    requires Inv(c) && m.Drain? && Allowed(c, m)
    ensures Inv(Do(c, m))
  {
    hide LogOk, StoreOk, Ops, Do, StampsOk, LogIssued, Replay;
    DrainOk(c.stores[m.s], Ops(c.log), m.count);
    StampsKeepOk(c, m);
    DrainAdvances(c, m);
  }

  lemma MoveKeepsInv(c: Cluster, m: Move)
    requires Inv(c) && Allowed(c, m)
    ensures Inv(Do(c, m))
  {
    hide Inv, Do;
    match m
    case Add(_, _, _, _, _, _, _) => AddKeepsInv(c, m);
    case Edit(_, _, _, _, _) => EditKeepsInv(c, m);
    case Delete(_, _) => DeleteKeepsInv(c, m);
    case Drain(_, _) => DrainKeepsInv(c, m);
  }

  lemma {:induction false} RunKeepsInv(c: Cluster, moves: seq<Move>)
    requires Inv(c) && Run(c, moves).Some?
    ensures Inv(Run(c, moves).value)
    decreases |moves|
  {
    if moves != [] {
      MoveKeepsInv(c, moves[0]);
      RunKeepsInv(Do(c, moves[0]), moves[1..]);
    }
  }

  /** Convergence: after any run, every store that has drained the whole log holds exactly
      what replaying the log into an empty store gives, so any two of them agree. */
  lemma StoresConverge(n: nat, moves: seq<Move>, i: nat)
    requires Run(Initial(n), moves).Some?
    ensures var c := Run(Initial(n), moves).value;
      i < |c.stores| && c.stores[i].offset == |c.log| ==> c.stores[i].view == Replay(map[], Ops(c.log))
  {
    InitialInv(n);
    RunKeepsInv(Initial(n), moves);
  }

  /** After any run different stamps are different ids, and every listed id was handed out. */
  lemma IdsStayUnique(n: nat, moves: seq<Move>)
    requires Run(Initial(n), moves).Some?
    ensures var c := Run(Initial(n), moves).value;
      && (forall t, u :: t in c.issued && u in c.issued && t.Id() == u.Id() ==> t == u)
      && (forall i, id :: 0 <= i < |c.stores| && id in c.stores[i].view ==> Issued(c.issued, id))
  {
    InitialInv(n);
    RunKeepsInv(Initial(n), moves);
    AllUnique(Run(Initial(n), moves).value);
    AllIssued(Run(Initial(n), moves).value);
  }

  lemma AllUnique(c: Cluster)
    requires StampsOk(c)
    ensures forall t, u :: t in c.issued && u in c.issued && t.Id() == u.Id() ==> t == u
  {
    hide NewId, StampsOk;
    forall t, u | t in c.issued && u in c.issued && t.Id() == u.Id() ensures t == u { StampsTell(c, t, u); }
  }

  lemma AllIssued(c: Cluster)
    requires Inv(c)
    ensures forall i, id :: 0 <= i < |c.stores| && id in c.stores[i].view ==> Issued(c.issued, id)
  {
    hide NewId, StampsOk, Ops, Issued, Recorded, GoodId, Printable, CaughtUp;
    assert c.issued + {} == c.issued;
    forall i, id | 0 <= i < |c.stores| && id in c.stores[i].view ensures Issued(c.issued, id) {
      assert StoreOk(c.stores[i], Ops(c.log));
      RecordedIsIssued(Ops(c.log), c.issued, id);
    }
  }

  /** The latest record of an id decides what a drained store shows for it, but for the mark. */
  lemma LastRecordWins(v: View, ops: seq<Op>, r: Annotation)
    ensures var w := Replay(v, ops + [Upsert(r)]); r.id in w && w[r.id] == r.(deleted := w[r.id].deleted)
  {
    ReplayAppend(v, ops, [Upsert(r)]);
    assert [Upsert(r)][1..] == [];
    assert Replay(Replay(v, ops), [Upsert(r)]) == Apply(Replay(v, ops), Upsert(r));
  }

  /** If two stores do annotate in the same second with the same number, the later record
      replaces the earlier annotation in every store that drains both and lists no id twice. */
  lemma ClashLosesOne(v: View, ops: seq<Op>, between: seq<Op>, now: nat, serial: nat, first: Annotation,
                      second: Annotation)
    requires first.id == second.id == NewId(now, serial)
    ensures var w := Replay(v, ops + [Upsert(first)] + between + [Upsert(second)]);
      first.id in w && w[first.id] == second.(deleted := w[first.id].deleted)
  {
    LastRecordWins(v, ops + [Upsert(first)] + between, second);
  }

  lemma LocalKeepsMarks(st: Store, log: seq<Item>, m: Move, id: string)
    requires id in st.view && st.view[id].deleted
    requires m.Add? ==> NewId(m.now, st.nextId) !in st.view
    ensures id in Local(st, log, m).0.view && Local(st, log, m).0.view[id].deleted
  {
    if m.Drain? && st.offset + m.count <= |log| {
      ReplayKeepsMarks(st.view, Ops(log[st.offset..st.offset + m.count]), id);
    }
  }

  /** No move of anyone takes back a deletion. */
  lemma DeletionNeverReverts(c: Cluster, m: Move, i: nat, id: string)
    requires Inv(c) && Allowed(c, m) && i < |c.stores| && id in c.stores[i].view && c.stores[i].view[id].deleted
    ensures id in Do(c, m).stores[i].view && Do(c, m).stores[i].view[id].deleted
  {
    hide Inv, Allowed, Local, NewId;
    if m.Add? { NewIdIsFresh(c, m); }
    if i == m.s { LocalKeepsMarks(c.stores[i], c.log, m, id); }
  }

  lemma ReplayTwo(v: View, p: Op, q: Op)
    ensures Replay(v, [p, q]) == Apply(Apply(v, p), q)
  {
    assert [p, q][1..] == [q] && [q][1..] == [];
    assert Replay(Apply(v, p), [q]) == Apply(Apply(v, p), q);
  }

  /** Without the guard on Delete stores can part for good: here the log marks `a` before
      its record, and the store that added it has not drained yet. */
  lemma EarlyMarkDiverges(a: Annotation)
    requires !a.deleted
    ensures var ops := [Mark(a.id), Upsert(a)];
      Replay(map[a.id := a], ops) == map[a.id := a.(deleted := true)] && Replay(map[], ops) == map[a.id := a]
  {
    ReplayTwo(map[a.id := a], Mark(a.id), Upsert(a));
    ReplayTwo(map[], Mark(a.id), Upsert(a));
  }
}
