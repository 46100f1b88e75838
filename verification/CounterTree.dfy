/**
 The path tree of a counter group: names are split at '/', every level becomes a node, and a
 folder's check boxes are the conjunction over the counters below it. Nodes live in one list
 and a pointer to a node is its index there.
 */
module CounterTree {
  import opened Sequences

  type Path = seq<string>

  /** Index of the first '/', or the length when there is none. */
  function Slash(s: string): (k: nat)
    ensures k <= |s| && (k < |s| ==> s[k] == '/') && forall i :: 0 <= i < k ==> s[i] != '/'
  {
    if s == [] || s[0] == '/' then 0 else 1 + Slash(s[1..])
  }

  function Split(s: string): (r: Path)
    ensures r != []
    decreases |s|
  {
    var k := Slash(s);
    if k == |s| then [s] else [s[..k]] + Split(s[k + 1..])
  }

  function Join(p: Path): string
    requires p != []
  {
    if |p| == 1 then p[0] else p[0] + ("/" + Join(p[1..]))
  }

  /** The segments joined by '/' give back the name, and none of them holds a '/'. */
  lemma {:induction false} JoinSplit(s: string)
    ensures Join(Split(s)) == s && forall seg :: seg in Split(s) ==> '/' !in seg
    decreases |s|
  {
    var k := Slash(s);
    if k < |s| {
      JoinSplit(s[k + 1..]);
      assert Split(s)[1..] == Split(s[k + 1..]);
      assert s == s[..k] + ("/" + s[k + 1..]);
    }
  }

  lemma SlashAfter(seg: string, rest: string)
    requires '/' !in seg && (rest == [] || rest[0] == '/')
    ensures Slash(seg + rest) == |seg|
  {
    var s := seg + rest;
    var k := Slash(s);
    assert forall i :: 0 <= i < |seg| ==> s[i] == seg[i] && seg[i] in seg;
    if rest != [] { assert s[|seg|] == '/'; }
  }

  lemma SplitFirst(seg: string, rest: string)
    requires '/' !in seg
    ensures Split(seg + ("/" + rest)) == [seg] + Split(rest)
  {
    var s := seg + ("/" + rest);
    SlashAfter(seg, "/" + rest);
    assert s[|seg| + 1..] == rest && s[..|seg|] == seg;
  }

  lemma SplitWhole(seg: string)
    requires '/' !in seg
    ensures Split(seg) == [seg]
  {
    SlashAfter(seg, "");
    assert seg + "" == seg;
  }

  lemma JoinStep(p: Path)
    requires p != []
    ensures Join(p) == if |p| == 1 then p[0] else p[0] + ("/" + Join(p[1..]))
  {
  }

  /** Splitting is the only way to read a name as segments. */
  lemma {:induction false} SplitJoin(p: Path)
    requires p != [] && forall seg :: seg in p ==> '/' !in seg
    ensures Split(Join(p)) == p
    decreases |p|
  {
    hide Split, Slash, Join;
    assert p[0] in p;
    JoinStep(p);
    if |p| == 1 {
      SplitWhole(p[0]);
      assert [p[0]] == p;
    } else {
      SplitJoin(p[1..]);
      SplitFirst(p[0], Join(p[1..]));
      assert [p[0]] + p[1..] == p;
    }
  }

  // ----- The tree ---------------------------------------------------------------------------

  datatype Node = Node(seg: string, children: seq<nat>, leaves: seq<nat>)

  /** The nodes, the path of each, and the node of each path. */
  datatype Tree = Tree(nodes: seq<Node>, paths: seq<Path>, at: map<Path, nat>)

  ghost predicate Located(t: Tree) {
    && |t.paths| == |t.nodes| > 0 && t.paths[0] == []
    && (forall i :: 0 <= i < |t.paths| ==> t.paths[i] in t.at && t.at[t.paths[i]] == i)
    && (forall p :: p in t.at ==> t.at[p] < |t.paths| && t.paths[t.at[p]] == p)
  }

  ghost predicate Edge(t: Tree, i: nat, c: nat)
    requires |t.paths| == |t.nodes|
  {
    i < c < |t.nodes| && t.paths[c] == t.paths[i] + [t.nodes[c].seg]
  }

  predicate Increasing(cs: seq<nat>) { forall k, l :: 0 <= k < l < |cs| ==> cs[k] < cs[l] }

  ghost predicate Linked(t: Tree)
    requires |t.paths| == |t.nodes|
  {
    forall i: nat :: i < |t.nodes|
      ==> Increasing(t.nodes[i].children) && forall c :: c in t.nodes[i].children ==> Edge(t, i, c)
  }

  ghost predicate HasParent(t: Tree, j: nat) {
    exists i: nat :: i < j && i < |t.nodes| && j in t.nodes[i].children
  }

  ghost predicate Sound(t: Tree) {
    && Located(t) && Linked(t)
    && forall j: nat :: 0 < j < |t.nodes| ==> HasParent(t, j)
  }

  /** The positions in `splits` that hold `p`, in ascending order. */
  function Having(splits: seq<Path>, p: Path): seq<nat> {
    if splits == [] then []
    else
      var n := |splits| - 1;
      Having(splits[..n], p) + if splits[n] == p then [n] else []
  }

  /** Every name has its node, and a node lists exactly the counters that end there. */
  ghost predicate Filled(t: Tree, splits: seq<Path>) {
    && |t.paths| == |t.nodes|
    && (forall i :: 0 <= i < |t.nodes| ==> t.nodes[i].leaves == Having(splits, t.paths[i]))
    && (forall ci :: 0 <= ci < |splits| ==> splits[ci] in t.at)
  }

  ghost predicate NoDup(s: seq<nat>) { forall i, j :: 0 <= i < j < |s| ==> s[i] != s[j] }

  lemma NoDupJoin(a: seq<nat>, b: seq<nat>)
    requires NoDup(a) && NoDup(b) && forall x :: x in a ==> x !in b
    ensures NoDup(a + b)
  {
    forall i, j | 0 <= i < j < |a + b| ensures (a + b)[i] != (a + b)[j] {
      if i < |a| <= j { assert a[i] in a && b[j - |a|] in b; }
    }
  }

  lemma {:induction false} HavingExact(splits: seq<Path>, p: Path)
    ensures NoDup(Having(splits, p))
    ensures forall ci: nat :: ci in Having(splits, p) <==> ci < |splits| && splits[ci] == p
  {
    if splits != [] {
      var n := |splits| - 1;
      var before := Having(splits[..n], p);
      HavingExact(splits[..n], p);
      assert n !in before;
      NoDupJoin(before, if splits[n] == p then [n] else []);
      forall ci: nat ensures ci in Having(splits, p) <==> ci < |splits| && splits[ci] == p {
        if ci < n { assert splits[..n][ci] == splits[ci]; }
      }
    }
  }

  /** Siblings have distinct segments, and equal paths mean the same node. */
  lemma SiblingsDiffer(t: Tree, i: nat, c: nat, d: nat)
    requires Sound(t) && i < |t.nodes| && c in t.nodes[i].children && d in t.nodes[i].children && c != d
    ensures t.nodes[c].seg != t.nodes[d].seg
  {
    assert Edge(t, i, c) && Edge(t, i, d);
  }

  /** A leaf's path, joined by '/', is the counter's name. */
  lemma LeafSpellsName(t: Tree, names: seq<string>, splits: seq<Path>, i: nat, ci: nat)
    requires Filled(t, splits) && |splits| == |names| && (forall k :: 0 <= k < |names| ==> splits[k] == Split(names[k]))
    requires i < |t.nodes| && ci in t.nodes[i].leaves
    ensures ci < |names| && t.paths[i] != [] && Join(t.paths[i]) == names[ci]
  {
    HavingExact(splits, t.paths[i]);
    JoinSplit(names[ci]);
  }

  /** The child of `i` with a given path is among its children. */
  lemma ChildOfPath(t: Tree, i: nat, q: Path)
    requires Sound(t) && i < |t.nodes| && q in t.at && q != [] && q[..|q| - 1] == t.paths[i]
    ensures t.at[q] in t.nodes[i].children && t.nodes[t.at[q]].seg == q[|q| - 1]
  {
    var j := t.at[q];
    assert j > 0 && HasParent(t, j);
    var p: nat :| p < j && p < |t.nodes| && j in t.nodes[p].children;
    assert Edge(t, p, j);
    assert q == t.paths[p] + [t.nodes[j].seg];
    assert t.paths[p] == q[..|q| - 1];
    assert p == i;
  }

  lemma {:induction false} PrefixIn(t: Tree, p: Path, k: nat)
    requires Sound(t) && p in t.at && k <= |p|
    ensures p[..k] in t.at
    decreases |p|
  {
    if k == |p| {
      assert p[..k] == p;
    } else {
      var j := t.at[p];
      assert HasParent(t, j);
      var i: nat :| i < j && i < |t.nodes| && j in t.nodes[i].children;
      assert Edge(t, i, j);
      var up := t.paths[i];
      assert p == up + [t.nodes[j].seg];
      PrefixIn(t, up, k);
      assert up[..k] == p[..k];
    }
  }

  /** A path strictly below a node goes through one of its children. */
  lemma StepDown(t: Tree, i: nat, s: Path) returns (c: nat)
    requires Sound(t) && i < |t.nodes| && s in t.at && t.paths[i] <= s && s != t.paths[i]
    ensures c in t.nodes[i].children && c < |t.nodes| && t.paths[c] <= s
  {
    var k := |t.paths[i]|;
    var q := s[..k + 1];
    PrefixIn(t, s, k + 1);
    assert q[..k] == t.paths[i];
    ChildOfPath(t, i, q);
    c := t.at[q];
  }

  // ----- Collecting the leaves below a node -----------------------------------------------------

  ghost predicate Forward(nodes: seq<Node>) {
    forall i, k :: 0 <= i < |nodes| && 0 <= k < |nodes[i].children| ==> i < nodes[i].children[k] < |nodes|
  }

  /** Depth first: a node's own leaves, then those below its children in order. */
  ghost function Under(nodes: seq<Node>, i: nat): seq<nat>
    requires Forward(nodes) && i < |nodes|
    decreases |nodes| - i, 0
  {
    nodes[i].leaves + UnderAll(nodes, nodes[i].children, i)
  }

  ghost function UnderAll(nodes: seq<Node>, cs: seq<nat>, above: nat): seq<nat>
    requires Forward(nodes) && above < |nodes| && forall k :: 0 <= k < |cs| ==> above < cs[k] < |nodes|
    decreases |nodes| - above - 1, |cs| + 1
  {
    if cs == [] then []
    else UnderAll(nodes, cs[..|cs| - 1], above) + Under(nodes, cs[|cs| - 1])
  }

  lemma SoundIsForward(t: Tree)
    requires Sound(t)
    ensures Forward(t.nodes)
  {
    forall i, k | 0 <= i < |t.nodes| && 0 <= k < |t.nodes[i].children| ensures i < t.nodes[i].children[k] < |t.nodes| {
      assert Edge(t, i, t.nodes[i].children[k]);
    }
  }

  /** `s` lists exactly the counters whose split name starts with `p`, each once. */
  ghost predicate Lists(s: seq<nat>, splits: seq<Path>, p: Path) {
    NoDup(s) && forall ci: nat :: ci in s <==> ci < |splits| && p <= splits[ci]
  }

  /** The same for the counters below any of the nodes `cs`. */
  ghost predicate ListsAll(s: seq<nat>, splits: seq<Path>, t: Tree, cs: seq<nat>) {
    && NoDup(s)
    && forall ci: nat :: ci in s <==> ci < |splits| && BelowSome(t, cs, splits[ci])
  }

  ghost predicate BelowSome(t: Tree, cs: seq<nat>, s: Path) {
    exists c :: c in cs && c < |t.paths| && t.paths[c] <= s
  }

  lemma BelowMore(t: Tree, cs: seq<nat>, c: nat, s: Path)
    requires c < |t.paths|
    ensures BelowSome(t, cs + [c], s) <==> BelowSome(t, cs, s) || t.paths[c] <= s
  {
    if BelowSome(t, cs, s) {
      var d :| d in cs && d < |t.paths| && t.paths[d] <= s;
      assert d in cs + [c];
    }
    if t.paths[c] <= s { assert c in cs + [c]; }
  }

  /** Two children of one node have no counter below both. */
  lemma ChildrenApart(t: Tree, i: nat, c: nat, d: nat, s: Path)
    requires Sound(t) && i < |t.nodes| && c in t.nodes[i].children && d in t.nodes[i].children
    requires c < |t.paths| && d < |t.paths| && t.paths[c] <= s && t.paths[d] <= s
    ensures c == d
  {
    assert Edge(t, i, c) && Edge(t, i, d);
    var k := |t.paths[i]|;
    assert t.paths[c] == s[..k + 1] && t.paths[d] == s[..k + 1];
  }

  lemma ListsMore(t: Tree, splits: seq<Path>, i: nat, cs: seq<nat>, c: nat, a: seq<nat>, b: seq<nat>)
    requires Sound(t) && i < |t.nodes| && c in t.nodes[i].children && c < |t.paths| && c !in cs
    requires forall d :: d in cs ==> d in t.nodes[i].children
    requires ListsAll(a, splits, t, cs) && Lists(b, splits, t.paths[c])
    ensures ListsAll(a + b, splits, t, cs + [c])
  {
    forall x | x in a ensures x !in b {
      if x in b {
        var d :| d in cs && d < |t.paths| && t.paths[d] <= splits[x];
        ChildrenApart(t, i, c, d, splits[x]);
      }
    }
    NoDupJoin(a, b);
    forall ci: nat | ci < |splits| ensures BelowSome(t, cs + [c], splits[ci]) <==> ci in a + b {
      BelowMore(t, cs, c, splits[ci]);
    }
  }

  /** Collecting at a node gives exactly the counters whose split name starts with its path. */
  lemma {:induction false} UnderExact(t: Tree, splits: seq<Path>, i: nat)
    requires Sound(t) && Filled(t, splits) && i < |t.nodes|
    ensures Forward(t.nodes) && Lists(Under(t.nodes, i), splits, t.paths[i])
    decreases |t.nodes| - i, 0
  {
    SoundIsForward(t);
    var own, cs := t.nodes[i].leaves, t.nodes[i].children;
    UnderAllExact(t, splits, i, cs);
    HavingExact(splits, t.paths[i]);
    OwnAndBelow(t, splits, i, UnderAll(t.nodes, cs, i));
  }

  lemma OwnAndBelow(t: Tree, splits: seq<Path>, i: nat, below: seq<nat>)
    requires Sound(t) && Filled(t, splits) && i < |t.nodes|
    requires ListsAll(below, splits, t, t.nodes[i].children)
    ensures Lists(t.nodes[i].leaves + below, splits, t.paths[i])
  {
    var own, cs := t.nodes[i].leaves, t.nodes[i].children;
    HavingExact(splits, t.paths[i]);
    forall ci: nat | ci < |splits|
      ensures BelowSome(t, cs, splits[ci]) <==> t.paths[i] <= splits[ci] && splits[ci] != t.paths[i]
    {
      if BelowSome(t, cs, splits[ci]) {
        var c :| c in cs && c < |t.paths| && t.paths[c] <= splits[ci];
        assert Edge(t, i, c);
        assert t.paths[i] == t.paths[c][..|t.paths[i]|];
      } else if t.paths[i] <= splits[ci] && splits[ci] != t.paths[i] {
        var c := StepDown(t, i, splits[ci]);
      }
    }
    NoDupJoin(own, below);
  }

  lemma {:induction false} UnderAllExact(t: Tree, splits: seq<Path>, i: nat, cs: seq<nat>)
    requires Sound(t) && Filled(t, splits) && Forward(t.nodes) && i < |t.nodes| && Increasing(cs)
    requires forall k :: 0 <= k < |cs| ==> i < cs[k] < |t.nodes| && cs[k] in t.nodes[i].children
    ensures ListsAll(UnderAll(t.nodes, cs, i), splits, t, cs)
    decreases |t.nodes| - i - 1, |cs| + 1
  {
    if cs != [] {
      var n := |cs| - 1;
      var c := cs[n];
      UnderAllExact(t, splits, i, cs[..n]);
      UnderExact(t, splits, c);
      ListsMore(t, splits, i, cs[..n], c, UnderAll(t.nodes, cs[..n], i), Under(t.nodes, c));
      assert cs[..n] + [c] == cs;
    }
  }

  /** The whole tree holds every counter exactly once. */
  lemma EachCounterOnce(t: Tree, splits: seq<Path>)
    requires Sound(t) && Filled(t, splits)
    ensures Forward(t.nodes) && NoDup(Under(t.nodes, 0))
    ensures forall ci: nat :: ci in Under(t.nodes, 0) <==> ci < |splits|
  {
    UnderExact(t, splits, 0);
  }

  // ----- Growing the tree --------------------------------------------------------------------

  /** The tree with one more node below `i`. */
  function Grown(t: Tree, i: nat, seg: string): Tree
    requires i < |t.nodes| && |t.paths| == |t.nodes|
  {
    var n, q := |t.nodes|, t.paths[i] + [seg];
    Tree(t.nodes[i := t.nodes[i].(children := t.nodes[i].children + [n])] + [Node(seg, [], [])],
         t.paths + [q], t.at[q := n])
  }

  /** No child carries the segment: the path is new. */
  lemma PathIsNew(t: Tree, i: nat, seg: string)
    requires Sound(t) && i < |t.nodes|
    requires forall c :: c in t.nodes[i].children ==> c < |t.nodes| && t.nodes[c].seg != seg
    ensures t.paths[i] + [seg] !in t.at
  {
    var q := t.paths[i] + [seg];
    if q in t.at {
      assert q[..|q| - 1] == t.paths[i];
      ChildOfPath(t, i, q);
    }
  }

  lemma GrownLocated(t: Tree, i: nat, seg: string)
    requires Located(t) && i < |t.nodes| && t.paths[i] + [seg] !in t.at
    ensures Located(Grown(t, i, seg))
  {
  }

  lemma GrownEdges(t: Tree, i: nat, seg: string, j: nat, c: nat)
    requires |t.paths| == |t.nodes| && i < |t.nodes| && j < |t.nodes| && Edge(t, j, c)
    ensures Edge(Grown(t, i, seg), j, c)
  {
  }

  lemma GrownLinked(t: Tree, i: nat, seg: string)
    requires |t.paths| == |t.nodes| && Linked(t) && i < |t.nodes|
    ensures Linked(Grown(t, i, seg))
  {
    var g := Grown(t, i, seg);
    forall j: nat, c | j < |g.nodes| && c in g.nodes[j].children ensures Edge(g, j, c) {
      if j == i && c == |t.nodes| {
        assert g.nodes[c].seg == seg;
      } else {
        assert c in t.nodes[j].children;
        GrownEdges(t, i, seg, j, c);
      }
    }
    var cs := t.nodes[i].children;
    forall k | 0 <= k < |cs| ensures cs[k] < |t.nodes| { assert Edge(t, i, cs[k]); }
    forall j: nat | j < |g.nodes| ensures Increasing(g.nodes[j].children) {
      if j != i && j < |t.nodes| { assert g.nodes[j].children == t.nodes[j].children; }
    }
  }

  lemma GrownSound(t: Tree, i: nat, seg: string)
    requires Sound(t) && i < |t.nodes| && t.paths[i] + [seg] !in t.at
    ensures Sound(Grown(t, i, seg))
  {
    var g := Grown(t, i, seg);
    GrownLocated(t, i, seg);
    GrownLinked(t, i, seg);
    forall j: nat | 0 < j < |g.nodes| ensures HasParent(g, j) {
      if j < |t.nodes| {
        assert HasParent(t, j);
        var p: nat :| p < j && p < |t.nodes| && j in t.nodes[p].children;
        assert j in g.nodes[p].children;
      } else {
        assert j in g.nodes[i].children;
      }
    }
  }

  lemma GrownFilled(t: Tree, i: nat, seg: string, splits: seq<Path>)
    requires Filled(t, splits) && i < |t.nodes| && t.paths[i] + [seg] !in t.at
    ensures Filled(Grown(t, i, seg), splits)
  {
    HavingNone(splits, t.paths[i] + [seg]);
  }

  lemma {:induction false} HavingNone(splits: seq<Path>, p: Path)
    requires forall ci :: 0 <= ci < |splits| ==> splits[ci] != p
    ensures Having(splits, p) == []
  {
    if splits != [] { HavingNone(splits[..|splits| - 1], p); }
  }

  function WithLeaf(t: Tree, i: nat, ci: nat): Tree
    requires i < |t.nodes|
  {
    t.(nodes := t.nodes[i := t.nodes[i].(leaves := t.nodes[i].leaves + [ci])])
  }

  lemma LeafKeepsSound(t: Tree, i: nat, ci: nat)
    requires Sound(t) && i < |t.nodes|
    ensures Sound(WithLeaf(t, i, ci))
  {
    var g := WithLeaf(t, i, ci);
    assert forall j ::
      0 <= j < |t.nodes| ==> g.nodes[j].children == t.nodes[j].children && g.nodes[j].seg == t.nodes[j].seg;
    forall j: nat, c | j < |g.nodes| && c in g.nodes[j].children ensures Edge(g, j, c) { assert Edge(t, j, c); }
    forall j: nat | 0 < j < |g.nodes| ensures HasParent(g, j) {
      assert HasParent(t, j);
      var p: nat :| p < j && p < |t.nodes| && j in t.nodes[p].children;
      assert j in g.nodes[p].children;
    }
  }

  lemma LeafFills(t: Tree, i: nat, splits: seq<Path>)
    requires Located(t) && Filled(t, splits) && i < |t.nodes|
    ensures Filled(WithLeaf(t, i, |splits|), splits + [t.paths[i]])
  {
    var p := t.paths[i];
    assert (splits + [p])[..|splits|] == splits;
    forall j | 0 <= j < |t.nodes| && j != i ensures t.paths[j] != p { assert t.at[t.paths[j]] == j; }
  }

  /** The path walked down so far and the segments from position `p` on. */
  ghost function Whole(name: string, p: nat, above: Path): Path
    requires p <= |name|
  {
    above + Split(name[p..])
  }

  /** Having walked down `above`, the segments from `p` on are left. */
  ghost predicate OnTrack(name: string, p: nat, above: Path) { p <= |name| && Whole(name, p, above) == Split(name) }

  lemma RootPath(t: Tree)
    requires Sound(t)
    ensures 0 < |t.nodes| == |t.paths| && t.paths[0] == []
  {
  }

  lemma WholeStarts(name: string)
    ensures OnTrack(name, 0, [])
  {
    assert name[0..] == name;
  }

  lemma LastSegment(name: string, p: nat, seg: string, above: Path)
    requires p <= |name| && p + Slash(name[p..]) == |name| && seg == name[p..|name|]
    ensures Whole(name, p, above) == above + [seg]
  {
    assert name[p..|name|] == name[p..];
  }

  lemma NextSegment(name: string, p: nat, sl: nat, seg: string, above: Path)
    requires p <= |name| && sl == p + Slash(name[p..]) < |name| && seg == name[p..sl]
    ensures Whole(name, sl + 1, above + [seg]) == Whole(name, p, above)
  {
    assert name[p..][..sl - p] == seg;
    assert name[p..][sl - p + 1..] == name[sl + 1..];
    Regroup(above, [seg], Split(name[sl + 1..]));
  }

  lemma UnderMore(nodes: seq<Node>, cs: seq<nat>, k: nat, above: nat)
    requires Forward(nodes) && above < |nodes| && k < |cs| && forall l :: 0 <= l < |cs| ==> above < cs[l] < |nodes|
    ensures UnderAll(nodes, cs[..k + 1], above) == UnderAll(nodes, cs[..k], above) + Under(nodes, cs[k])
  {
    assert cs[..k + 1][..k] == cs[..k];
  }

  function Splits(names: seq<string>): (r: seq<Path>)
    ensures |r| == |names| && forall k :: 0 <= k < |r| ==> r[k] == Split(names[k])
  {
    seq(|names|, k requires 0 <= k < |names| => Split(names[k]))
  }

  datatype Display = Display(visible: bool, enabled: bool)

  /** The counter has a display state, and it is visible (enabled). */
  predicate Shown(keys: seq<int>, states: map<int, Display>, ci: nat) {
    ci < |keys| && keys[ci] in states && states[keys[ci]].visible
  }

  predicate Enabled(keys: seq<int>, states: map<int, Display>, ci: nat) {
    ci < |keys| && keys[ci] in states && states[keys[ci]].enabled
  }

  ghost predicate AllShown(keys: seq<int>, states: map<int, Display>, splits: seq<Path>, p: Path) {
    forall ci: nat :: ci < |splits| && p <= splits[ci] ==> Shown(keys, states, ci)
  }

  ghost predicate AllEnabled(keys: seq<int>, states: map<int, Display>, splits: seq<Path>, p: Path) {
    forall ci: nat :: ci < |splits| && p <= splits[ci] ==> Enabled(keys, states, ci)
  }

  lemma AllListed(leaves: seq<nat>, splits: seq<Path>, p: Path, keys: seq<int>, states: map<int, Display>)
    requires Lists(leaves, splits, p)
    ensures AllShown(keys, states, splits, p) <==> forall l :: 0 <= l < |leaves| ==> Shown(keys, states, leaves[l])
    ensures AllEnabled(keys, states, splits, p) <==> forall l :: 0 <= l < |leaves| ==> Enabled(keys, states, leaves[l])
  {
    forall l | 0 <= l < |leaves| ensures leaves[l] < |splits| && p <= splits[leaves[l]] { assert leaves[l] in leaves; }
    forall ci: nat | ci < |splits| && p <= splits[ci] ensures exists l :: 0 <= l < |leaves| && leaves[l] == ci {
      assert ci in leaves;
    }
  }

  method CountSet(leaves: seq<nat>, keys: seq<int>, states: map<int, Display>)
    returns (allVisible: bool, allEnabled: bool)
    ensures allVisible <==> forall l :: 0 <= l < |leaves| ==> Shown(keys, states, leaves[l])
    ensures allEnabled <==> forall l :: 0 <= l < |leaves| ==> Enabled(keys, states, leaves[l])
  {
    var nVisible, nEnabled := 0, 0;
    for k := 0 to |leaves|
      invariant 0 <= nVisible <= k && 0 <= nEnabled <= k
      invariant nVisible == k <==> forall l :: 0 <= l < k ==> Shown(keys, states, leaves[l])
      invariant nEnabled == k <==> forall l :: 0 <= l < k ==> Enabled(keys, states, leaves[l])
    {
      if Shown(keys, states, leaves[k]) { nVisible := nVisible + 1; }
      if Enabled(keys, states, leaves[k]) { nEnabled := nEnabled + 1; }
    }
    return nVisible == |leaves|, nEnabled == |leaves|;
  }

  class PathTree {
    var nodes: seq<Node>
    ghost var paths: seq<Path>
    ghost var at: map<Path, nat>

    ghost function Shape(): Tree
      reads this
    {
      Tree(nodes, paths, at)
    }

    constructor ()
      ensures Sound(Shape()) && Filled(Shape(), [])
    {
      nodes, paths, at := [Node("", [], [])], [[]], map[[] := 0];
    }

    /** The first child of `pN` with this segment. */
    method ChildNamed(pN: nat, seg: string) returns (found: bool, pC: nat)
      requires Sound(Shape()) && pN < |nodes|
      ensures found ==> pC in nodes[pN].children && pC < |nodes| && nodes[pC].seg == seg
      ensures !found ==> forall c :: c in nodes[pN].children ==> c < |nodes| && nodes[c].seg != seg
    {
      SoundIsForward(Shape());
      var cs := nodes[pN].children;
      for k := 0 to |cs|
        invariant forall l :: 0 <= l < k ==> cs[l] < |nodes| && nodes[cs[l]].seg != seg
      {
        assert cs[k] in cs;
        if nodes[cs[k]].seg == seg { return true, cs[k]; }
      }
      return false, 0;
    }

    /** One level down, creating the node when it is missing. */
    method Descend(pN: nat, seg: string, ghost splits: seq<Path>) returns (pC: nat)
      requires Sound(Shape()) && Filled(Shape(), splits) && pN < |nodes|
      modifies this
      ensures Sound(Shape()) && Filled(Shape(), splits)
      ensures pC < |nodes| == |paths| && paths[pC] == old(paths)[pN] + [seg]
    {
      var found;
      found, pC := ChildNamed(pN, seg);
      if found {
        assert Edge(Shape(), pN, pC);
      } else {
        PathIsNew(Shape(), pN, seg);
        GrownSound(Shape(), pN, seg);
        GrownFilled(Shape(), pN, seg, splits);
        pC := |nodes|;
        nodes := nodes[pN := nodes[pN].(children := nodes[pN].children + [pC])] + [Node(seg, [], [])];
        at := at[paths[pN] + [seg] := pC];
        paths := paths + [paths[pN] + [seg]];
        assert Shape() == old(Grown(Shape(), pN, seg));
      }
    }

    /** Leave a counter at the end of its path. */
    method PushLeaf(pC: nat, ci: nat, ghost splits: seq<Path>)
      requires Sound(Shape()) && Filled(Shape(), splits) && ci == |splits| && pC < |nodes|
      modifies this
      ensures Sound(Shape()) && Filled(Shape(), splits + [old(paths)[pC]])
    {
      LeafFills(Shape(), pC, splits);
      LeafKeepsSound(Shape(), pC, ci);
      nodes := nodes[pC := nodes[pC].(leaves := nodes[pC].leaves + [ci])];
      assert Shape() == old(WithLeaf(Shape(), pC, ci));
    }

    /** The segment that starts at `p`, and where it ends. */
    static method ReadSegment(name: string, p: nat, ghost above: Path) returns (seg: string, sl: nat)
      requires p <= |name|
      ensures p <= sl <= |name|
      ensures sl == |name| ==> Whole(name, p, above) == above + [seg]
      ensures sl < |name| ==> Whole(name, sl + 1, above + [seg]) == Whole(name, p, above)
    {
      hide Whole, Split;
      sl := p + Slash(name[p..]);
      seg := name[p..sl];
      if sl == |name| { LastSegment(name, p, seg, above); } else { NextSegment(name, p, sl, seg, above); }
    }

    /** One segment read and one level down. */
    method WalkSegment(name: string, p: nat, pN: nat, ghost splits: seq<Path>) returns (pC: nat, sl: nat)
      requires p <= |name| && pN < |nodes| == |paths| && OnTrack(name, p, paths[pN])
      requires Sound(Shape()) && Filled(Shape(), splits)
      modifies this
      ensures Sound(Shape()) && Filled(Shape(), splits)
      ensures pC < |nodes| == |paths| && p <= sl <= |name|
      ensures if sl == |name| then paths[pC] == Split(name) else OnTrack(name, sl + 1, paths[pC])
    {
      hide Sound, Filled, Whole, Split, Slash;
      ghost var above := paths[pN];
      var seg;
      seg, sl := ReadSegment(name, p, above);
      pC := Descend(pN, seg, splits);
      assert paths[pC] == above + [seg];
    }

    /** Split one name at its slashes while walking down to its node. */
    method Walk(name: string, ghost splits: seq<Path>) returns (pC: nat)
      requires Sound(Shape()) && Filled(Shape(), splits)
      modifies this
      ensures Sound(Shape()) && Filled(Shape(), splits)
      ensures pC < |nodes| == |paths| && paths[pC] == Split(name)
    {
      hide Sound, Filled, OnTrack, Split;
      var pN: nat, p: nat := 0, 0;
      RootPath(Shape());
      WholeStarts(name);
      while true
        invariant p <= |name| && pN < |nodes| == |paths| && OnTrack(name, p, paths[pN])
        invariant Sound(Shape()) && Filled(Shape(), splits)
        decreases |name| - p
      {
        var sl;
        pC, sl := WalkSegment(name, p, pN, splits);
        if sl == |name| { return; }
        p, pN := sl + 1, pC;
      }
    }

    method Insert(name: string, ci: nat, ghost splits: seq<Path>)
      requires Sound(Shape()) && Filled(Shape(), splits) && ci == |splits|
      modifies this
      ensures Sound(Shape()) && Filled(Shape(), splits + [Split(name)])
    {
      var pC := Walk(name, splits);
      PushLeaf(pC, ci, splits);
    }

    /** A node's leaves, then those of its children, appended to `out`. */
    method CollectLeaves(i: nat, out: seq<nat>) returns (r: seq<nat>)
      requires Forward(nodes) && i < |nodes|
      ensures r == out + Under(nodes, i)
      decreases |nodes| - i
    {
      r := out;
      for k := 0 to |nodes[i].leaves|
        invariant r == out + nodes[i].leaves[..k]
      {
        r := r + [nodes[i].leaves[k]];
      }
      var cs := nodes[i].children;
      for k := 0 to |cs|
        invariant r == out + nodes[i].leaves + UnderAll(nodes, cs[..k], i)
      {
        UnderMore(nodes, cs, k, i);
        Regroup(out + nodes[i].leaves, UnderAll(nodes, cs[..k], i), Under(nodes, cs[k]));
        r := CollectLeaves(cs[k], r);
      }
      assert cs[..|cs|] == cs;
      Regroup(out, nodes[i].leaves, UnderAll(nodes, cs, i));
    }

    /** What the check boxes of a folder row show: ticked when every counter below it is. */
    method Aggregate(i: nat, keys: seq<int>, states: map<int, Display>, ghost splits: seq<Path>)
      returns (allVisible: bool, allEnabled: bool)
      requires Sound(Shape()) && Filled(Shape(), splits) && i < |nodes| && |keys| == |splits|
      ensures allVisible <==> forall ci: nat :: ci < |splits| && paths[i] <= splits[ci] ==>
                keys[ci] in states && states[keys[ci]].visible
      ensures allEnabled <==> forall ci: nat :: ci < |splits| && paths[i] <= splits[ci] ==>
                keys[ci] in states && states[keys[ci]].enabled
    {
      assert i < |paths|;
      hide Sound, Filled, Under;
      UnderExact(Shape(), splits, i);
      var leaves := CollectLeaves(i, []);
      assert leaves == Under(nodes, i);
      allVisible, allEnabled := CountSet(leaves, keys, states);
      AllListed(leaves, splits, paths[i], keys, states);
    }
  }

  /** The tree of a whole group, counter by counter. */
  method BuildTree(names: seq<string>) returns (tree: PathTree)
    ensures fresh(tree) && Sound(tree.Shape()) && Filled(tree.Shape(), Splits(names))
  {
    hide Sound, Filled, Split;
    tree := new PathTree();
    assert Splits(names[..0]) == [];
    for ci := 0 to |names|
      invariant fresh(tree) && Sound(tree.Shape()) && Filled(tree.Shape(), Splits(names[..ci]))
    {
      tree.Insert(names[ci], ci, Splits(names[..ci]));
      assert Splits(names[..ci + 1]) == Splits(names[..ci]) + [Split(names[ci])];
    }
    assert names[..|names|] == names;
  }
}
