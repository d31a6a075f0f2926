/** What the subscription tree means. A tree is read as a prefix-closed map from the path of a node
    to its callbacks; a run of calls is compared with the plain list of live (filter, callback) pairs. */
module SubscriptionSpec {
  import opened Topics

  /** A user callback, opaque: only its identity and its order matter. */
  type Callback = nat

  type Contents = map<Path, seq<Callback>>

  predicate Rooted(c: Contents) {
    forall p :: p in c ==> p != [] && (|p| > 1 ==> p[..|p| - 1] in c)
  }

  function Get(c: Contents, p: Path): seq<Callback> {
    if p in c then c[p] else []
  }

  predicate IsChild(q: Path, p: Path) {
    |q| == |p| + 1 && q[..|p|] == p
  }

  predicate HasChild(c: Contents, p: Path) {
    exists q :: q in c && IsChild(q, p)
  }

  /** A node with no callback and no child. */
  predicate Dead(c: Contents, p: Path) {
    p in c && c[p] == [] && !HasChild(c, p)
  }

  lemma {:induction false} RootedPrefix(c: Contents, p: Path, k: nat)
    requires Rooted(c) && p in c && 1 <= k <= |p|
    ensures p[..k] in c
    decreases |p|
  {
    if k < |p| {
      var parent := p[..|p| - 1];
      RootedPrefix(c, parent, k);
      assert parent[..k] == p[..k];
    } else {
      assert p[..k] == p;
    }
  }

  // ---- The three operations ----------------------------------------------------

  function Prefixes(p: Path): set<Path> {
    set k | 1 <= k <= |p| :: p[..k]
  }

  /** The tree with a node on every prefix of `p`. */
  function Grow(c: Contents, p: Path): Contents {
    map q | q in c.Keys + Prefixes(p) :: Get(c, q)
  }

  function Insert(c: Contents, p: Path, cb: Callback): Contents {
    Grow(c, p)[p := Get(c, p) + [cb]]
  }

  /** Erase dead nodes from `p` upwards; a node for the empty level is never erased. */
  function Prune(c: Contents, p: Path): Contents
    decreases |p|
  {
    if p != [] && Dead(c, p) && p[|p| - 1] != "" then Prune(c - {p}, p[..|p| - 1]) else c
  }

  function Remove(c: Contents, p: Path): Contents {
    Prune(c[p := []], p)
  }

  /** Every dead node stands for an empty level. */
  ghost predicate OnlyEmptyLevelsDead(c: Contents) {
    forall p :: p != [] && Dead(c, p) ==> p[|p| - 1] == ""
  }

  lemma InsertKeys(c: Contents, p: Path, cb: Callback)
    requires p != []
    ensures forall q :: q in Insert(c, p, cb) <==> q in c || (q != [] && q <= p)
  {
    forall q ensures q in Prefixes(p) <==> q != [] && q <= p {
      if q != [] && q <= p {
        assert q == p[..|q|];
      }
    }
    assert p <= p;
  }

  lemma NewNodeNotDead(c: Contents, p: Path, cb: Callback, q: Path)
    requires p != [] && q !in c && q in Insert(c, p, cb)
    ensures !Dead(Insert(c, p, cb), q)
  {
    InsertKeys(c, p, cb);
    if q != p {
      var child := p[..|q| + 1];
      assert child in Insert(c, p, cb) && IsChild(child, q);
    }
  }

  lemma InsertRooted(c: Contents, p: Path, cb: Callback)
    requires Rooted(c) && p != []
    ensures Rooted(Insert(c, p, cb))
  {
    InsertKeys(c, p, cb);
    hide Insert;
  }

  lemma InsertDead(c: Contents, p: Path, cb: Callback)
    requires p != [] && OnlyEmptyLevelsDead(c)
    ensures OnlyEmptyLevelsDead(Insert(c, p, cb))
  {
    var d := Insert(c, p, cb);
    InsertKeys(c, p, cb);
    forall q | q in d && q !in c ensures !Dead(d, q) {
      NewNodeNotDead(c, p, cb, q);
    }
    forall q | q in c && Dead(d, q) ensures Dead(c, q) {
      forall r | r in c ensures !IsChild(r, q) {
        assert r in d;
      }
    }
  }

  /** Subscribing adds the callback at its own path, changes no other path, and leaves no dead node. */
  lemma InsertSpec(c: Contents, p: Path, cb: Callback)
    requires Rooted(c) && p != []
    ensures Rooted(Insert(c, p, cb))
    ensures forall q :: Get(Insert(c, p, cb), q) == if q == p then Get(c, p) + [cb] else Get(c, q)
    ensures OnlyEmptyLevelsDead(c) ==> OnlyEmptyLevelsDead(Insert(c, p, cb))
  {
    InsertRooted(c, p, cb);
    if OnlyEmptyLevelsDead(c) {
      InsertDead(c, p, cb);
    }
    hide OnlyEmptyLevelsDead, Rooted;
  }

  lemma {:induction false} PruneSpec(c: Contents, p: Path)
    requires Rooted(c)
    ensures Rooted(Prune(c, p))
    ensures Prune(c, p).Keys <= c.Keys
    ensures forall q :: Get(Prune(c, p), q) == Get(c, q)
    ensures (forall q :: q != [] && q != p && Dead(c, q) ==> q[|q| - 1] == "") ==> OnlyEmptyLevelsDead(Prune(c, p))
    decreases |p|
  {
    if p != [] && Dead(c, p) && p[|p| - 1] != "" {
      var d, parent := c - {p}, p[..|p| - 1];
      forall q | q in d && |q| > 1 ensures q[..|q| - 1] in d {
        assert !IsChild(q, p);
      }
      PruneSpec(d, parent);
      forall q | q != [] && q != parent && Dead(d, q) ensures Dead(c, q) && q != p {
        forall r | r in c ensures !IsChild(r, q) {
          assert IsChild(p, q) ==> q == parent;
          assert r in d || r == p;
        }
      }
    }
  }

  /** Unsubscribing removes exactly the callbacks of that filter and leaves no new dead node,
      except for empty levels. */
  lemma RemoveSpec(c: Contents, p: Path)
    requires Rooted(c) && p in c
    ensures Rooted(Remove(c, p))
    ensures forall q :: Get(Remove(c, p), q) == if q == p then [] else Get(c, q)
    ensures OnlyEmptyLevelsDead(c) ==> OnlyEmptyLevelsDead(Remove(c, p))
  {
    var d := c[p := []];
    assert d.Keys == c.Keys;
    PruneSpec(d, p);
    forall q | q != [] && q != p && Dead(d, q) ensures Dead(c, q) {
      forall r | r in c ensures !IsChild(r, q) {
        assert r in d;
      }
    }
  }

  // ---- Delivery ---------------------------------------------------------------------

  /** The callbacks run at `node` and below for the topic levels `rest`, `rest[0]` being the node's. */
  function Branch(c: Contents, node: Path, rest: Path): seq<Callback>
    requires rest != []
    decreases |rest|, 0
  {
    if node !in c then []
    else c[node] + if |rest| > 1 then Deliver(c, node, rest[1..]) else []
  }

  /** The walk of `findSubscriptionMatch` below `prefix`: the literal branch, "+", then "#". */
  function Deliver(c: Contents, prefix: Path, rest: Path): seq<Callback>
    requires rest != []
    decreases |rest|, 1
  {
    Branch(c, prefix + [rest[0]], rest) + Branch(c, prefix + [SINGLE], rest) + Get(c, prefix + [MULTI])
  }

  // ---- The plain list of live pairs ---------------------------------------------------

  datatype Pair = Pair(filter: string, callback: Callback)

  /** Callbacks registered for exactly the path `p`, oldest first. */
  function Of(live: seq<Pair>, p: Path): seq<Callback> {
    if live == [] then []
    else
      var last := live[|live| - 1];
      Of(live[..|live| - 1], p) + if Split(last.filter) == p then [last.callback] else []
  }

  /** Callbacks of the pairs whose filter fits the topic, oldest first. */
  function Matching(live: seq<Pair>, topic: Path): seq<Callback> {
    if live == [] then []
    else
      var last := live[|live| - 1];
      Matching(live[..|live| - 1], topic) + if Fits(Split(last.filter), topic) then [last.callback] else []
  }

  function Without(live: seq<Pair>, filter: string): seq<Pair> {
    if live == [] then []
    else
      var last := live[|live| - 1];
      Without(live[..|live| - 1], filter) + if last.filter == filter then [] else [last]
  }

  /** The tree holds, for every path, the callbacks of the list, in order. */
  ghost predicate Agrees(c: Contents, live: seq<Pair>) {
    Rooted(c) && forall p :: Get(c, p) == Of(live, p)
  }

  lemma {:induction false} OfWithout(live: seq<Pair>, filter: string, p: Path)
    ensures Of(Without(live, filter), p) == if p == Split(filter) then [] else Of(live, p)
  {
    if live != [] {
      var init, last := live[..|live| - 1], live[|live| - 1];
      OfWithout(init, filter, p);
      if last.filter != filter {
        assert Without(live, filter)[..|Without(live, filter)| - 1] == Without(init, filter);
        if Split(last.filter) == Split(filter) {
          SplitInjective(last.filter, filter);
        }
      } else {
        assert Without(live, filter) == Without(init, filter);
      }
    }
  }

  lemma {:induction false} OfAppend(live: seq<Pair>, f: string, cb: Callback, p: Path)
    ensures Of(live + [Pair(f, cb)], p) == if Split(f) == p then Of(live, p) + [cb] else Of(live, p)
  {
    var live' := live + [Pair(f, cb)];
    assert live'[..|live'| - 1] == live;
  }

  lemma {:induction false} OfContains(live: seq<Pair>, i: nat)
    requires i < |live|
    ensures Of(live, Split(live[i].filter)) != []
  {
    if i < |live| - 1 {
      OfContains(live[..|live| - 1], i);
    }
  }

  /** Visits of path `p` by a walk that stands at `prefix` with topic levels `rest` to go. */
  function VisitsFrom(prefix: Path, p: Path, rest: Path): nat {
    if |p| > |prefix| && p[..|prefix|] == prefix then Visits(p[|prefix|..], rest) else 0
  }

  function Tail(prefix: Path, p: Path, rest: Path): nat {
    if |rest| > 1 then VisitsFrom(prefix, p, rest[1..]) else 0
  }

  lemma EndsAt(prefix: Path, level: string, p: Path)
    ensures p == prefix + [level] <==> |p| == |prefix| + 1 && p[..|prefix|] == prefix && p[|prefix|] == level
  {
  }

  lemma VisitsBelow(prefix: Path, level: string, p: Path, rest: Path)
    requires rest != []
    ensures Tail(prefix + [level], p, rest) ==
            if |p| > |prefix| + 1 && p[..|prefix|] == prefix && p[|prefix|] == level && |rest| > 1
            then Visits(p[|prefix| + 1..], rest[1..]) else 0
  {
    if |p| > |prefix| + 1 {
      var front := p[..|prefix| + 1];
      EndsAt(prefix, level, front);
      assert front[..|prefix|] == p[..|prefix|];
    }
  }

  /** One level of the walk, counted for one path. */
  lemma VisitsFromUnfolds(prefix: Path, p: Path, rest: Path)
    requires rest != []
    ensures VisitsFrom(prefix, p, rest) ==
            One(p == prefix + [rest[0]]) + Tail(prefix + [rest[0]], p, rest)
            + One(p == prefix + [SINGLE]) + Tail(prefix + [SINGLE], p, rest)
            + One(p == prefix + [MULTI])
  {
    VisitsBelow(prefix, rest[0], p, rest);
    VisitsBelow(prefix, SINGLE, p, rest);
    EndsAt(prefix, rest[0], p);
    EndsAt(prefix, SINGLE, p);
    EndsAt(prefix, MULTI, p);
    if |p| > |prefix| && p[..|prefix|] == prefix {
      var f := p[|prefix|..];
      assert f[1..] == p[|prefix| + 1..];
      if |rest| == 1 {
        assert rest[1..] == [];
        assert Visits(f[1..], rest[1..]) == 0;
      }
    }
  }

  function Occ(s: seq<Callback>, x: Callback): nat {
    multiset(s)[x]
  }

  lemma OccOfConcat(a: seq<Callback>, b: seq<Callback>, c: seq<Callback>, x: Callback)
    ensures Occ(a + b + c, x) == Occ(a, x) + Occ(b, x) + Occ(c, x)
  {
  }

  /** How often the walk below `prefix` runs callback `x`, counted over the list. */
  function Sum(live: seq<Pair>, prefix: Path, rest: Path, x: Callback): nat {
    if live == [] then 0
    else
      var last := live[|live| - 1];
      Sum(live[..|live| - 1], prefix, rest, x)
      + if last.callback == x then VisitsFrom(prefix, Split(last.filter), rest) else 0
  }

  function BranchSum(live: seq<Pair>, node: Path, rest: Path, x: Callback): nat {
    Occ(Of(live, node), x) + if |rest| > 1 then Sum(live, node, rest[1..], x) else 0
  }

  lemma OccOfStep(live: seq<Pair>, p: Path, x: Callback)
    requires live != []
    ensures var last := live[|live| - 1];
            Occ(Of(live, p), x) == Occ(Of(live[..|live| - 1], p), x)
                                   + One(last.callback == x && Split(last.filter) == p)
  {
  }

  lemma BranchSumStep(live: seq<Pair>, node: Path, rest: Path, x: Callback)
    requires live != []
    ensures var last := live[|live| - 1];
            BranchSum(live, node, rest, x) ==
            BranchSum(live[..|live| - 1], node, rest, x)
            + if last.callback == x then One(Split(last.filter) == node) + Tail(node, Split(last.filter), rest) else 0
  {
    OccOfStep(live, node, x);
    hide Of, Occ, VisitsFrom, Split;
  }

  lemma {:induction false} SumUnfolds(live: seq<Pair>, prefix: Path, rest: Path, x: Callback)
    requires rest != []
    ensures Sum(live, prefix, rest, x) ==
            BranchSum(live, prefix + [rest[0]], rest, x) + BranchSum(live, prefix + [SINGLE], rest, x)
            + Occ(Of(live, prefix + [MULTI]), x)
  {
    if live != [] {
      SumUnfolds(live[..|live| - 1], prefix, rest, x);
      VisitsFromUnfolds(prefix, Split(live[|live| - 1].filter), rest);
      BranchSumStep(live, prefix + [rest[0]], rest, x);
      BranchSumStep(live, prefix + [SINGLE], rest, x);
      OccOfStep(live, prefix + [MULTI], x);
      hide Of, Occ, VisitsFrom, Split, BranchSum, Tail;
    }
  }

  lemma {:induction false} SumOfAbsent(c: Contents, live: seq<Pair>, k: nat, node: Path, rest: Path, x: Callback)
    requires Agrees(c, live) && k <= |live| && node !in c && node != []
    ensures Sum(live[..k], node, rest, x) == 0
  {
    if k > 0 {
      SumOfAbsent(c, live, k - 1, node, rest, x);
      assert live[..k][..k - 1] == live[..k - 1];
      var p := Split(live[k - 1].filter);
      OfContains(live, k - 1);
      assert Get(c, p) != [];
      if |p| > |node| {
        RootedPrefix(c, p, |node|);
      }
    }
  }

  lemma GetIsOf(c: Contents, live: seq<Pair>, p: Path)
    requires Agrees(c, live)
    ensures Get(c, p) == Of(live, p)
  {
  }

  lemma DeliverOcc(c: Contents, prefix: Path, rest: Path, x: Callback)
    requires rest != []
    ensures Occ(Deliver(c, prefix, rest), x) ==
            Occ(Branch(c, prefix + [rest[0]], rest), x) + Occ(Branch(c, prefix + [SINGLE], rest), x)
            + Occ(Get(c, prefix + [MULTI]), x)
  {
    hide Branch, Get, Occ;
    OccOfConcat(Branch(c, prefix + [rest[0]], rest), Branch(c, prefix + [SINGLE], rest), Get(c, prefix + [MULTI]), x);
  }

  /** Walking the tree runs what the list says, for every topic, wildcard levels included. */
  lemma {:induction false} DeliverIsSum(c: Contents, live: seq<Pair>, prefix: Path, rest: Path, x: Callback)
    requires Agrees(c, live) && rest != []
    ensures Occ(Deliver(c, prefix, rest), x) == Sum(live, prefix, rest, x)
    decreases |rest|, 1
  {
    hide Agrees, Branch, Deliver, Sum, BranchSum, Of, Get, Occ;
    DeliverOcc(c, prefix, rest, x);
    SumUnfolds(live, prefix, rest, x);
    BranchIsSum(c, live, prefix + [rest[0]], rest, x);
    BranchIsSum(c, live, prefix + [SINGLE], rest, x);
    GetIsOf(c, live, prefix + [MULTI]);
  }

  lemma {:induction false} BranchIsSum(c: Contents, live: seq<Pair>, node: Path, rest: Path, x: Callback)
    requires Agrees(c, live) && rest != [] && node != []
    ensures Occ(Branch(c, node, rest), x) == BranchSum(live, node, rest, x)
    decreases |rest|, 0
  {
    if node in c {
      if |rest| > 1 {
        DeliverIsSum(c, live, node, rest[1..], x);
      }
    } else {
      assert Of(live, node) == Get(c, node);
      SumOfAbsent(c, live, |live|, node, rest[1..], x);
      assert live[..|live|] == live;
    }
  }

  lemma {:induction false} SumIsMatching(live: seq<Pair>, topic: Path, x: Callback)
    requires NoWildcard(topic)
    ensures Sum(live, [], topic, x) == Occ(Matching(live, topic), x)
  {
    if live != [] {
      var p := Split(live[|live| - 1].filter);
      SumIsMatching(live[..|live| - 1], topic, x);
      VisitsIsFits(p, topic);
      assert p[0..] == p;
    }
  }

  /** A tree that agrees with a list delivers what the list says. */
  lemma DeliverIsMatching(c: Contents, live: seq<Pair>, topic: Path)
    requires Agrees(c, live) && topic != [] && NoWildcard(topic)
    ensures multiset(Deliver(c, [], topic)) == multiset(Matching(live, topic))
  {
    var run, list := Deliver(c, [], topic), Matching(live, topic);
    forall x ensures multiset(run)[x] == multiset(list)[x] {
      DeliverIsSum(c, live, [], topic, x);
      SumIsMatching(live, topic, x);
      assert Occ(run, x) == Occ(list, x);
    }
  }

  predicate BlockAt(s: seq<Callback>, at: nat, block: seq<Callback>) {
    at + |block| <= |s| && s[at..at + |block|] == block
  }

  lemma BlockInside(before: seq<Callback>, s: seq<Callback>, after: seq<Callback>, at: nat, block: seq<Callback>)
    requires BlockAt(s, at, block)
    ensures BlockAt(before + s + after, |before| + at, block)
  {
    var whole := before + s + after;
    assert whole[|before|..|before| + |s|] == s;
    assert whole[|before| + at..|before| + at + |block|] == s[at..at + |block|];
  }

  /** The branch of any fitting level is a part of the walk. */
  lemma BranchInDeliver(c: Contents, prefix: Path, rest: Path, level: string, at: nat, block: seq<Callback>)
    returns (at': nat)
    requires rest != [] && LevelFits(level, rest[0])
    requires BlockAt(Branch(c, prefix + [level], rest), at, block)
    ensures BlockAt(Deliver(c, prefix, rest), at', block)
  {
    var literal, single := Branch(c, prefix + [rest[0]], rest), Branch(c, prefix + [SINGLE], rest);
    var multi := Get(c, prefix + [MULTI]);
    assert literal + single + multi == [] + literal + (single + multi);
    if level == rest[0] {
      BlockInside([], literal, single + multi, at, block);
      at' := at;
    } else {
      BlockInside(literal, single, multi, at, block);
      at' := |literal| + at;
    }
  }

  /** The walk runs the callbacks of one fitting filter as one block, oldest first. */
  lemma {:induction false} DeliverHasBlock(c: Contents, prefix: Path, p: Path, rest: Path) returns (at: nat)
    requires Rooted(c) && rest != [] && p in c
    requires |p| > |prefix| && p[..|prefix|] == prefix && Fits(p[|prefix|..], rest)
    ensures BlockAt(Deliver(c, prefix, rest), at, c[p])
    decreases |rest|
  {
    var f := p[|prefix|..];
    var node := prefix + [f[0]];
    assert p[..|node|] == node;
    RootedPrefix(c, p, |node|);
    if |f| == 1 {
      assert p == node;
      var tail := if |rest| > 1 then Deliver(c, node, rest[1..]) else [];
      if LevelFits(f[0], rest[0]) {
        BlockInside([], c[p], tail, 0, c[p]);
        assert [] + c[p] + tail == Branch(c, node, rest);
        at := BranchInDeliver(c, prefix, rest, f[0], 0, c[p]);
      } else {
        var front := Branch(c, prefix + [rest[0]], rest) + Branch(c, prefix + [SINGLE], rest);
        BlockInside(front, c[p], [], 0, c[p]);
        assert front + c[p] + [] == Deliver(c, prefix, rest);
        at := |front|;
      }
    } else {
      assert p[|node|..] == f[1..];
      FitsUnfolds(f, rest);
      var below := DeliverHasBlock(c, node, p, rest[1..]);
      var d := Deliver(c, node, rest[1..]);
      BlockInside(c[node], d, [], below, c[p]);
      assert c[node] + d + [] == Branch(c, node, rest);
      at := BranchInDeliver(c, prefix, rest, f[0], |c[node]| + below, c[p]);
    }
  }

  // ---- Which filter's callbacks come first -----------------------------------------------------------

  /** A literal level comes before "+", and "+" before "#". */
  function Rank(level: string): nat {
    if level == MULTI then 2 else if level == SINGLE then 1 else 0
  }

  /** A filter comes before those below it, and otherwise the first level where two filters differ decides. */
  predicate Earlier(f: Path, g: Path) {
    f < g || exists i :: 0 <= i < |f| && i < |g| && f[..i] == g[..i] && Rank(f[i]) < Rank(g[i])
  }

  lemma EarlierUnfolds(f: Path, g: Path)
    requires f != [] && g != [] && Earlier(f, g)
    ensures f[0] != g[0] ==> Rank(f[0]) < Rank(g[0])
    ensures f[0] == g[0] ==> |g| > 1 && (|f| == 1 || Earlier(f[1..], g[1..]))
  {
    if f < g {
      assert f[0] == g[0] && (|f| > 1 ==> f[1..] < g[1..]);
    } else {
      var i :| 0 <= i < |f| && i < |g| && f[..i] == g[..i] && Rank(f[i]) < Rank(g[i]);
      if i > 0 {
        assert f[..i][0] == g[..i][0];
        assert f[1..][..i - 1] == f[..i][1..] && g[1..][..i - 1] == g[..i][1..];
        assert Rank(f[1..][i - 1]) < Rank(g[1..][i - 1]);
      }
    }
  }

  lemma EarlierBelow(f: Path, g: Path)
    requires |f| > 1 && |g| > 1 && f[0] == g[0]
    ensures Earlier(f[1..], g[1..]) ==> Earlier(f, g)
  {
    if f[1..] < g[1..] {
      assert f < g;
    } else if Earlier(f[1..], g[1..]) {
      var i :| 0 <= i < |f[1..]| && i < |g[1..]| && f[1..][..i] == g[1..][..i] && Rank(f[1..][i]) < Rank(g[1..][i]);
      assert f[..i + 1] == [f[0]] + f[1..][..i] == [g[0]] + g[1..][..i] == g[..i + 1];
      assert Rank(f[i + 1]) < Rank(g[i + 1]);
    }
  }

  /** Of two filters that fit the same topic, one comes first and the other does not. */
  lemma {:induction false} EarlierDecides(f: Path, g: Path, topic: Path)
    requires NoWildcard(topic) && Fits(f, topic) && Fits(g, topic) && f != g
    ensures Earlier(f, g) <==> !Earlier(g, f)
    decreases |topic|
  {
    assert topic[0] in topic;
    if f[0] != g[0] {
      assert f[..0] == g[..0];
      if Earlier(f, g) { EarlierUnfolds(f, g); }
      if Earlier(g, f) { EarlierUnfolds(g, f); }
    } else if |f| == 1 || |g| == 1 {
      if Earlier(f, g) { EarlierUnfolds(f, g); }
      if Earlier(g, f) { EarlierUnfolds(g, f); }
      assert if |f| == 1 then f < g else g < f;
    } else {
      FitsUnfolds(f, topic);
      FitsUnfolds(g, topic);
      assert NoWildcard(topic[1..]);
      assert f == [f[0]] + f[1..] && g == [g[0]] + g[1..];
      EarlierDecides(f[1..], g[1..], topic[1..]);
      EarlierBelow(f, g);
      EarlierBelow(g, f);
      if Earlier(f, g) { EarlierUnfolds(f, g); }
      if Earlier(g, f) { EarlierUnfolds(g, f); }
    }
  }

  /** The callbacks of `p` inside the branch of the node it lies at or below. */
  lemma BranchHasBlock(c: Contents, node: Path, p: Path, rest: Path) returns (at: nat)
    requires Rooted(c) && rest != [] && p in c && node != [] && |p| >= |node| && p[..|node|] == node
    requires p == node || (|rest| > 1 && Fits(p[|node|..], rest[1..]))
    ensures BlockAt(Branch(c, node, rest), at, c[p])
    ensures node in c && (if p == node then at == 0 else at >= |c[node]|)
  {
    RootedPrefix(c, p, |node|);
    var tail := if |rest| > 1 then Deliver(c, node, rest[1..]) else [];
    if p == node {
      BlockInside([], c[p], tail, 0, c[p]);
      assert [] + c[p] + tail == Branch(c, node, rest);
      at := 0;
    } else {
      var below := DeliverHasBlock(c, node, p, rest[1..]);
      BlockInside(c[node], tail, [], below, c[p]);
      assert c[node] + tail + [] == Branch(c, node, rest);
      at := |c[node]| + below;
    }
  }

  /** Block `b` at `i` and block `d` at `j`, `b` before `d`. */
  predicate InOrder(s: seq<Callback>, i: nat, b: seq<Callback>, j: nat, d: seq<Callback>) {
    BlockAt(s, i, b) && BlockAt(s, j, d) && i + |b| <= j
  }
  /** Two blocks in order stay in order inside a longer walk. */
  lemma InOrderInside(before: seq<Callback>, s: seq<Callback>, after: seq<Callback>,
                      i: nat, b: seq<Callback>, j: nat, d: seq<Callback>)
    requires InOrder(s, i, b, j, d)
    ensures InOrder(before + s + after, |before| + i, b, |before| + j, d)
  {
    BlockInside(before, s, after, i, b);
    BlockInside(before, s, after, j, d);
  }

  /** How many callbacks run before the branch of `level`. */
  function StartOf(c: Contents, prefix: Path, rest: Path, level: string): nat
    requires rest != []
  {
    if level == rest[0] then 0
    else
      |Branch(c, prefix + [rest[0]], rest)| + if level == SINGLE then 0 else |Branch(c, prefix + [SINGLE], rest)|
  }

  /** What runs at the node of a fitting level and below. */
  function Part(c: Contents, prefix: Path, rest: Path, level: string): seq<Callback>
    requires rest != []
  {
    if level == MULTI then Get(c, prefix + [MULTI]) else Branch(c, prefix + [level], rest)
  }

  lemma PartInDeliver(c: Contents, prefix: Path, rest: Path, level: string)
    returns (before: seq<Callback>, after: seq<Callback>)
    requires rest != [] && rest[0] != SINGLE && rest[0] != MULTI && (LevelFits(level, rest[0]) || level == MULTI)
    ensures Deliver(c, prefix, rest) == before + Part(c, prefix, rest, level) + after
    ensures |before| == StartOf(c, prefix, rest, level)
  {
    var literal, single := Branch(c, prefix + [rest[0]], rest), Branch(c, prefix + [SINGLE], rest);
    var multi := Get(c, prefix + [MULTI]);
    if level == rest[0] {
      before, after := [], single + multi;
    } else if level == SINGLE {
      before, after := literal, multi;
    } else {
      before, after := literal + single, [];
    }
    hide Branch, Get;
    assert literal + single + multi == before + Part(c, prefix, rest, level) + after;
  }

  lemma PartsInOrder(c: Contents, prefix: Path, rest: Path, l: string, m: string)
    requires rest != [] && rest[0] != SINGLE && rest[0] != MULTI
    requires (LevelFits(l, rest[0]) || l == MULTI) && (LevelFits(m, rest[0]) || m == MULTI) && Rank(l) < Rank(m)
    ensures StartOf(c, prefix, rest, l) + |Part(c, prefix, rest, l)| <= StartOf(c, prefix, rest, m)
  {
    hide Branch;
  }

  /** `p` lies below `prefix` and its levels from there on fit `rest`. */
  predicate Under(prefix: Path, p: Path, rest: Path) {
    |p| > |prefix| && p[..|prefix|] == prefix && Fits(p[|prefix|..], rest)
  }

  lemma FirstLevelFits(prefix: Path, p: Path, rest: Path)
    requires Under(prefix, p, rest) && NoWildcard(rest)
    ensures rest != [] && rest[0] != SINGLE && rest[0] != MULTI
    ensures LevelFits(p[|prefix|], rest[0]) || p[|prefix|] == MULTI
  {
    assert p[|prefix|..][0] == p[|prefix|] && rest[0] in rest;
  }

  lemma NextLevelFits(prefix: Path, p: Path, rest: Path)
    requires Under(prefix, p, rest) && |p| > |prefix| + 1 && NoWildcard(rest)
    ensures |rest| > 1 && NoWildcard(rest[1..]) && LevelFits(p[|prefix|], rest[0]) && p[|prefix|] != MULTI
    ensures Under(prefix + [p[|prefix|]], p, rest[1..])
  {
    var node := prefix + [p[|prefix|]];
    FitsUnfolds(p[|prefix|..], rest);
    assert p[..|node|] == node && p[|node|..] == p[|prefix|..][1..];
    assert rest[0] in rest;
  }

  /** The callbacks of `p` inside the part of its first level below `prefix`. */
  lemma PartHasBlock(c: Contents, prefix: Path, p: Path, rest: Path) returns (at: nat)
    requires Rooted(c) && rest != [] && NoWildcard(rest) && p in c && Under(prefix, p, rest)
    ensures BlockAt(Part(c, prefix, rest, p[|prefix|]), at, c[p])
  {
    var node := prefix + [p[|prefix|]];
    if |p| == |prefix| + 1 {
      assert p == node && p[..|node|] == node;
      if p[|prefix|] == MULTI { at := 0; } else { at := BranchHasBlock(c, node, p, rest); }
    } else {
      NextLevelFits(prefix, p, rest);
      at := BranchHasBlock(c, node, p, rest);
    }
  }

  /** The callbacks of `p` inside the walk, between the bounds of the part of its next level. */
  lemma PlaceInDeliver(c: Contents, prefix: Path, p: Path, rest: Path) returns (at: nat)
    requires Rooted(c) && rest != [] && NoWildcard(rest) && p in c && Under(prefix, p, rest)
    ensures BlockAt(Deliver(c, prefix, rest), at, c[p])
    ensures StartOf(c, prefix, rest, p[|prefix|]) <= at
    ensures at + |c[p]| <= StartOf(c, prefix, rest, p[|prefix|]) + |Part(c, prefix, rest, p[|prefix|])|
  {
    var level := p[|prefix|];
    FirstLevelFits(prefix, p, rest);
    at := PartHasBlock(c, prefix, p, rest);
    var before, after := PartInDeliver(c, prefix, rest, level);
    hide Deliver, Part, StartOf, Under, NoWildcard, LevelFits, Rooted;
    BlockInside(before, Part(c, prefix, rest, level), after, at, c[p]);
    at := |before| + at;
  }

  /** Filters that differ at the next level run in the order of these levels. */
  lemma ApartInOrder(c: Contents, prefix: Path, p: Path, q: Path, rest: Path) returns (i: nat, j: nat)
    requires Rooted(c) && rest != [] && NoWildcard(rest) && p in c && q in c
    requires Under(prefix, p, rest) && Under(prefix, q, rest) && Rank(p[|prefix|]) < Rank(q[|prefix|])
    ensures InOrder(Deliver(c, prefix, rest), i, c[p], j, c[q])
  {
    FirstLevelFits(prefix, p, rest);
    FirstLevelFits(prefix, q, rest);
    i := PlaceInDeliver(c, prefix, p, rest);
    j := PlaceInDeliver(c, prefix, q, rest);
    PartsInOrder(c, prefix, rest, p[|prefix|], q[|prefix|]);
    hide Deliver, Part, StartOf, Under, NoWildcard, LevelFits, BlockAt, Rank, Rooted;
  }

  /** Two blocks in order inside a branch stay so in the walk. */
  lemma TogetherInOrder(c: Contents, prefix: Path, p: Path, q: Path, rest: Path, i: nat, j: nat)
    returns (i': nat, j': nat)
    requires NoWildcard(rest) && p in c && q in c && Under(prefix, p, rest)
    requires rest != [] && InOrder(Part(c, prefix, rest, p[|prefix|]), i, c[p], j, c[q])
    ensures InOrder(Deliver(c, prefix, rest), i', c[p], j', c[q])
  {
    FirstLevelFits(prefix, p, rest);
    var before, after := PartInDeliver(c, prefix, rest, p[|prefix|]);
    InOrderInside(before, Part(c, prefix, rest, p[|prefix|]), after, i, c[p], j, c[q]);
    i', j' := |before| + i, |before| + j;
  }

  /** Two blocks in order below a node stay so in its branch. */
  lemma BelowInOrder(c: Contents, node: Path, rest: Path, i: nat, b: seq<Callback>, j: nat, d: seq<Callback>)
    returns (i': nat, j': nat)
    requires node in c && |rest| > 1 && InOrder(Deliver(c, node, rest[1..]), i, b, j, d)
    ensures InOrder(Branch(c, node, rest), i', b, j', d)
  {
    var below := Deliver(c, node, rest[1..]);
    InOrderInside(c[node], below, [], i, b, j, d);
    assert Branch(c, node, rest) == c[node] + below + [];
    i', j' := |c[node]| + i, |c[node]| + j;
  }

  /** Of two filters that fit, the callbacks of the earlier one run first. */
  lemma {:induction false} DeliverInOrder(c: Contents, prefix: Path, p: Path, q: Path, rest: Path)
    returns (i: nat, j: nat)
    requires Rooted(c) && rest != [] && NoWildcard(rest) && p in c && q in c
    requires Under(prefix, p, rest) && Under(prefix, q, rest) && Earlier(p[|prefix|..], q[|prefix|..])
    ensures InOrder(Deliver(c, prefix, rest), i, c[p], j, c[q])
    decreases |rest|, 1
  {
    EarlierUnfolds(p[|prefix|..], q[|prefix|..]);
    if p[|prefix|] != q[|prefix|] {
      i, j := ApartInOrder(c, prefix, p, q, rest);
    } else {
      assert |p| > |prefix| + 1 ==> Earlier(p[|prefix| + 1..], q[|prefix| + 1..]) by {
        assert p[|prefix| + 1..] == p[|prefix|..][1..] && q[|prefix| + 1..] == q[|prefix|..][1..];
      }
      hide Under, Earlier, NoWildcard, Deliver, Part, InOrder, Rooted;
      i, j := BranchInOrder(c, prefix, p, q, rest);
      i, j := TogetherInOrder(c, prefix, p, q, rest, i, j);
    }
  }

  lemma {:induction false} BranchInOrder(c: Contents, prefix: Path, p: Path, q: Path, rest: Path)
    returns (i: nat, j: nat)
    requires Rooted(c) && rest != [] && NoWildcard(rest) && p in c && q in c
    requires Under(prefix, p, rest) && Under(prefix, q, rest) && p[|prefix|] == q[|prefix|] && |q| > |prefix| + 1
    requires |p| == |prefix| + 1 || Earlier(p[|prefix| + 1..], q[|prefix| + 1..])
    ensures InOrder(Part(c, prefix, rest, p[|prefix|]), i, c[p], j, c[q])
    decreases |rest|, 0
  {
    var node := prefix + [p[|prefix|]];
    NextLevelFits(prefix, q, rest);
    assert p[..|node|] == node && q[..|node|] == node;
    if |p| == |prefix| + 1 {
      assert p == node;
      i := BranchHasBlock(c, node, p, rest);
      j := BranchHasBlock(c, node, q, rest);
    } else {
      NextLevelFits(prefix, p, rest);
      RootedPrefix(c, p, |node|);
      hide Under, Earlier, NoWildcard, Rooted, InOrder, Deliver, Branch;
      i, j := DeliverInOrder(c, node, p, q, rest[1..]);
      i, j := BelowInOrder(c, node, rest, i, c[p], j, c[q]);
    }
  }

  // ---- Runs of calls -----------------------------------------------------------------

  /** The tree and the flat set `m_subscription_topics` beside it. */
  datatype Subs = Subs(tree: Contents, topics: set<string>)

  datatype Op =
    | Subscribe(filter: string, callback: Callback)
    | Unsubscribe(filter: string)
    | Clear  // Impl::disconnect: the tree goes, the flat set stays

  /** `Undefined` is the walk of `unsubscribe` following a child that does not exist. */
  datatype Outcome = Done(subs: Subs) | Undefined

  const EMPTY := Subs(map[], {})

  function Step(s: Subs, op: Op): Outcome {
    match op
    case Subscribe(f, cb) => Done(Subs(Insert(s.tree, Split(f), cb), s.topics + {f}))
    case Unsubscribe(f) =>
      if f !in s.topics then Done(s)
      else if Split(f) !in s.tree then Undefined
      else Done(Subs(Remove(s.tree, Split(f)), s.topics - {f}))
    case Clear => Done(Subs(map[], s.topics))
  }

  function Run(ops: seq<Op>): Outcome {
    if ops == [] then Done(EMPTY)
    else
      match Run(ops[..|ops| - 1])
      case Done(s) => Step(s, ops[|ops| - 1])
      case Undefined => Undefined
  }

  function NextLive(live: seq<Pair>, op: Op): seq<Pair> {
    match op
    case Subscribe(f, cb) => live + [Pair(f, cb)]
    case Unsubscribe(f) => Without(live, f)
    case Clear => []
  }

  function Live(ops: seq<Op>): seq<Pair> {
    if ops == [] then []
    else NextLive(Live(ops[..|ops| - 1]), ops[|ops| - 1])
  }

  lemma RunAppend(ops: seq<Op>, op: Op)
    ensures Run(ops + [op]) == match Run(ops) case Done(s) => Step(s, op) case Undefined => Undefined
    ensures Live(ops + [op]) == NextLive(Live(ops), op)
  {
    assert (ops + [op])[..|ops|] == ops;
  }

  predicate InSet(s: Subs, f: string) {
    f in s.topics
  }

  predicate HasCallback(s: Subs, f: string) {
    Get(s.tree, Split(f)) != []
  }

  /** Every filter with a callback is in the flat set. */
  ghost predicate TreeWithinSet(s: Subs) {
    forall f :: HasCallback(s, f) ==> InSet(s, f)
  }

  ghost predicate SetWithinTree(s: Subs) {
    forall f :: InSet(s, f) ==> HasCallback(s, f)
  }

  ghost predicate Consistent(s: Subs, live: seq<Pair>) {
    Agrees(s.tree, live) && TreeWithinSet(s) && OnlyEmptyLevelsDead(s.tree)
  }

  lemma SubscribeKeeps(s: Subs, f: string, cb: Callback, live: seq<Pair>)
    requires Consistent(s, live)
    ensures var t := Step(s, Subscribe(f, cb)).subs;
            Consistent(t, live + [Pair(f, cb)]) && (SetWithinTree(s) ==> SetWithinTree(t))
  {
    var p := Split(f);
    InsertSpec(s.tree, p, cb);
    var t := Step(s, Subscribe(f, cb)).subs;
    forall q ensures Get(t.tree, q) == Of(live + [Pair(f, cb)], q) {
      OfAppend(live, f, cb, q);
      assert Get(s.tree, q) == Of(live, q);
    }
    forall g ensures HasCallback(t, g) <==> HasCallback(s, g) || g == f {
      if Split(g) == p { SplitInjective(g, f); }
    }
    forall g ensures InSet(t, g) <==> InSet(s, g) || g == f {
    }
  }

  /** Unsubscribing a filter without live pairs changes no list. */
  lemma {:induction false} WithoutAbsent(live: seq<Pair>, f: string)
    requires Of(live, Split(f)) == []
    ensures Without(live, f) == live
  {
    if live != [] {
      var init, last := live[..|live| - 1], live[|live| - 1];
      assert live == init + [last];
      assert last.filter != f;
      WithoutAbsent(init, f);
    }
  }

  lemma RemovedAgrees(c: Contents, live: seq<Pair>, f: string)
    requires Agrees(c, live) && Split(f) in c
    ensures Agrees(Remove(c, Split(f)), Without(live, f))
  {
    RemoveSpec(c, Split(f));
    forall q ensures Of(Without(live, f), q) == if q == Split(f) then [] else Of(live, q) {
      OfWithout(live, f, q);
    }
    hide Split, Of, Without, Remove, Rooted;
  }

  /** The filters with a callback, and those in the flat set, lose just this one. */
  lemma RemovedSets(s: Subs, f: string)
    requires Rooted(s.tree) && f in s.topics && Split(f) in s.tree
    ensures var t := Step(s, Unsubscribe(f)).subs;
            && (forall g :: HasCallback(t, g) <==> HasCallback(s, g) && g != f)
            && (forall g :: InSet(t, g) <==> InSet(s, g) && g != f)
  {
    var t := Step(s, Unsubscribe(f)).subs;
    RemoveSpec(s.tree, Split(f));
    hide Remove, Rooted, Split;
    forall g ensures HasCallback(t, g) <==> HasCallback(s, g) && g != f {
      if Split(g) == Split(f) { SplitInjective(g, f); }
    }
  }

  lemma UnsubscribeKeeps(s: Subs, f: string, live: seq<Pair>)
    requires Consistent(s, live)
    ensures SetWithinTree(s) ==> Step(s, Unsubscribe(f)).Done?
    ensures Step(s, Unsubscribe(f)).Done? ==>
              var t := Step(s, Unsubscribe(f)).subs;
              Consistent(t, Without(live, f)) && (SetWithinTree(s) ==> SetWithinTree(t))
  {
    GetIsOf(s.tree, live, Split(f));
    assert InSet(s, f) == (f in s.topics);
    assert HasCallback(s, f) == (Get(s.tree, Split(f)) != []);
    if f !in s.topics {
      WithoutAbsent(live, f);
    } else if Split(f) in s.tree {
      RemovedAgrees(s.tree, live, f);
      RemovedSets(s, f);
      RemoveSpec(s.tree, Split(f));
      hide Split, Of, Without, Remove, Agrees, OnlyEmptyLevelsDead, HasCallback, InSet;
    }
  }

  /** One step keeps the agreement of tree, list and set. */
  lemma StepKeeps(s: Subs, op: Op, live: seq<Pair>)
    requires Consistent(s, live)
    ensures Step(s, op).Done? ==> Consistent(Step(s, op).subs, NextLive(live, op))
    ensures SetWithinTree(s) && op != Clear ==> Step(s, op).Done? && SetWithinTree(Step(s, op).subs)
  {
    match op
    case Subscribe(f, cb) => SubscribeKeeps(s, f, cb, live);
    case Unsubscribe(f) => UnsubscribeKeeps(s, f, live);
    case Clear =>
  }

  /** After every run that stays defined: the tree agrees with the list of live pairs, every live filter
      is in the flat set, and only nodes for empty levels are ever left behind. A run without a
      disconnect is always defined, and its flat set holds exactly the filters with a callback. */
  lemma {:induction false} RunAgrees(ops: seq<Op>)
    ensures Run(ops).Done? ==> Consistent(Run(ops).subs, Live(ops))
    ensures Clear !in ops ==> Run(ops).Done? && SetWithinTree(Run(ops).subs)
  {
    if ops != [] {
      var init := ops[..|ops| - 1];
      RunAgrees(init);
      if Run(init).Done? {
        StepKeeps(Run(init).subs, ops[|ops| - 1], Live(init));
      }
    }
  }

  /** Delivery refines the list: after every run, and for every topic without a wildcard level, the
      callbacks run are those of the live pairs whose filter fits the topic, each once. */
  lemma DeliveryRefinesList(ops: seq<Op>, topic: string)
    requires Run(ops).Done? && NoWildcard(Split(topic))
    ensures multiset(Deliver(Run(ops).subs.tree, [], Split(topic))) == multiset(Matching(Live(ops), Split(topic)))
  {
    RunAgrees(ops);
    DeliverIsMatching(Run(ops).subs.tree, Live(ops), Split(topic));
  }

  /** The callbacks of one filter that fits run in the order of their subscriptions, as one block. */
  lemma DeliveryKeepsOrder(ops: seq<Op>, filter: string, topic: string) returns (at: nat)
    requires Run(ops).Done? && Fits(Split(filter), Split(topic))
    ensures BlockAt(Deliver(Run(ops).subs.tree, [], Split(topic)), at, Of(Live(ops), Split(filter)))
  {
    RunAgrees(ops);
    var c, p := Run(ops).subs.tree, Split(filter);
    assert Get(c, p) == Of(Live(ops), p);
    if p in c {
      assert p[0..] == p;
      at := DeliverHasBlock(c, [], p, Split(topic));
    } else {
      at := 0;
    }
  }

  /** The same for filters with or without callbacks. */
  lemma AnyInOrder(c: Contents, p: Path, q: Path, topic: Path) returns (i: nat, j: nat)
    requires Rooted(c) && topic != [] && NoWildcard(topic) && Fits(p, topic) && Fits(q, topic) && Earlier(p, q)
    ensures InOrder(Deliver(c, [], topic), i, Get(c, p), j, Get(c, q))
  {
    assert p[0..] == p && q[0..] == q;
    hide Earlier, NoWildcard, Deliver, Rooted;
    i, j := 0, 0;
    if p in c && q in c {
      i, j := DeliverInOrder(c, [], p, q, topic);
    } else if p in c {
      i := DeliverHasBlock(c, [], p, topic);
      j := i + |c[p]|;
    } else if q in c {
      j := DeliverHasBlock(c, [], q, topic);
    }
  }

  /** After every run, of two filters that fit a topic without wildcard levels, all callbacks of the earlier one run
      before those of the other: a filter before those below it, and a literal level before "+" before "#". */
  lemma DeliveryOrdersFilters(ops: seq<Op>, first: string, second: string, topic: string) returns (i: nat, j: nat)
    requires Run(ops).Done? && NoWildcard(Split(topic))
    requires Fits(Split(first), Split(topic)) && Fits(Split(second), Split(topic))
    requires Earlier(Split(first), Split(second))
    ensures InOrder(Deliver(Run(ops).subs.tree, [], Split(topic)),
                    i, Of(Live(ops), Split(first)), j, Of(Live(ops), Split(second)))
  {
    RunAgrees(ops);
    hide Split, Run, Live, Fits, Earlier, Get, Of, Deliver, InOrder, NoWildcard;
    var c := Run(ops).subs.tree;
    assert Get(c, Split(first)) == Of(Live(ops), Split(first)) && Get(c, Split(second)) == Of(Live(ops), Split(second));
    i, j := AnyInOrder(c, Split(first), Split(second), Split(topic));
  }

  /** The law above fails as soon as the topic has a wildcard level: topic "+" runs filter "+" twice. */
  lemma WildcardTopicRunsTwice()
    ensures var ops := [Subscribe("+", 7)];
            && Run(ops).Done?
            && Deliver(Run(ops).subs.tree, [], Split("+")) == [7, 7]
            && Matching(Live(ops), Split("+")) == [7]
  {
    var ops := [Subscribe("+", 7)];
    assert ops[..|ops| - 1] == [];
    assert Run(ops) == Step(EMPTY, ops[0]);
    assert Split("+") == ["+"];
    var c := Run(ops).subs.tree;
    assert ["+"][..1] == ["+"];
    assert Prefixes(["+"]) == {["+"]};
    assert c == Insert(map[], ["+"], 7);
    assert c[["+"]] == Get(map[], ["+"]) + [7] == [7];
    assert c == map[["+"] := [7]];
    assert [] + ["+"] == ["+"];
  }

  lemma OneSubscription(f: string, cb: Callback)
    ensures Run([Subscribe(f, cb)]).Done? && Live([Subscribe(f, cb)]) == [Pair(f, cb)]
  {
    assert [Subscribe(f, cb)] == [] + [Subscribe(f, cb)];
    RunAppend([], Subscribe(f, cb));
  }

  lemma OneFilterSum(f: string, cb: Callback, topic: Path)
    ensures Sum([Pair(f, cb)], [], topic, cb) == Visits(Split(f), topic)
    ensures |Matching([Pair(f, cb)], topic)| <= 1
  {
    var live := [Pair(f, cb)];
    assert live[..0] == [];
    assert Split(f)[0..] == Split(f);
  }

  /** With one callback on the filter that ends at a wildcard level of the topic, it runs at least twice. */
  lemma RunsTwice(topic: string, k: nat) returns (ops: seq<Op>)
    requires k < |Split(topic)| && Split(topic)[k] in {SINGLE, MULTI}
    ensures Run(ops).Done? && |Matching(Live(ops), Split(topic))| <= 1
    ensures Occ(Deliver(Run(ops).subs.tree, [], Split(topic)), 7) >= 2
  {
    var levels := Split(topic);
    var path := levels[..k + 1];
    LevelsHaveNoSlash(topic);
    SplitJoin(path);
    var f := Join(path);
    hide Split, Join, Run, Live, Visits, Matching, Sum, Deliver;
    ops := [Subscribe(f, 7)];
    OneSubscription(f, 7);
    RunAgrees(ops);
    VisitedTwice(levels, k);
    OneFilterSum(f, 7, levels);
    DeliverIsSum(Run(ops).subs.tree, Live(ops), [], levels, 7);
  }

  /** Every callback of a fitting pair runs exactly once, in every run, exactly for the topics without a
      wildcard level. */
  lemma DeliveryRefinesListIff(topic: string)
    ensures NoWildcard(Split(topic)) <==>
            forall ops :: Run(ops).Done? ==>
              multiset(Deliver(Run(ops).subs.tree, [], Split(topic))) == multiset(Matching(Live(ops), Split(topic)))
  {
    if NoWildcard(Split(topic)) {
      forall ops | Run(ops).Done?
        ensures multiset(Deliver(Run(ops).subs.tree, [], Split(topic))) == multiset(Matching(Live(ops), Split(topic)))
      {
        DeliveryRefinesList(ops, topic);
      }
    } else {
      var k :| 0 <= k < |Split(topic)| && Split(topic)[k] in {SINGLE, MULTI};
      var ops := RunsTwice(topic, k);
      var list := Matching(Live(ops), Split(topic));
      assert Occ(list, 7) <= |list|;
    }
  }

  // ---- Which nodes exist: empty levels and stale filters ------------------------------

  /** The filters subscribed since the last disconnect, unsubscribed ones included. */
  function Since(ops: seq<Op>): set<string> {
    if ops == [] then {}
    else
      match ops[|ops| - 1]
      case Subscribe(f, _) => Since(ops[..|ops| - 1]) + {f}
      case Unsubscribe(_) => Since(ops[..|ops| - 1])
      case Clear => {}
  }

  /** A live filter lies at or below `p`. */
  predicate LiveBelow(live: seq<Pair>, p: Path) {
    exists i :: 0 <= i < |live| && p <= Split(live[i].filter)
  }

  /** `q` is the path of a level of `p` up to the last empty one. */
  predicate UpToLastEmpty(p: Path, q: Path) {
    q != [] && q <= p && "" in p[|q| - 1..]
  }

  /** The node is held by an empty level, its own or one below, of a filter of `since`. */
  predicate LeftBelow(since: set<string>, p: Path) {
    exists f :: f in since && UpToLastEmpty(Split(f), p)
  }

  predicate EndsEmpty(p: Path) {
    p != [] && p[|p| - 1] == ""
  }

  predicate PrefixOfOne(since: set<string>, p: Path) {
    exists f :: f in since && p <= Split(f)
  }

  /** Every node lies on the path of some filter since the last disconnect, and the nodes for the empty
      levels of these filters are all still there. */
  ghost predicate Grown(c: Contents, since: set<string>) {
    && (forall p :: p in c ==> PrefixOfOne(since, p))
    && (forall p :: EndsEmpty(p) && PrefixOfOne(since, p) ==> p in c)
  }

  /** Pruning takes no node for an empty level. */
  lemma {:induction false} PruneKeepsEmpty(c: Contents, p: Path, q: Path)
    requires q in c && EndsEmpty(q)
    ensures q in Prune(c, p)
    decreases |p|
  {
    if p != [] && Dead(c, p) && p[|p| - 1] != "" {
      PruneKeepsEmpty(c - {p}, p[..|p| - 1], q);
    }
  }

  lemma InsertGrows(c: Contents, since: set<string>, f: string, cb: Callback)
    requires Grown(c, since)
    ensures Grown(Insert(c, Split(f), cb), since + {f})
  {
    var p, d := Split(f), Insert(c, Split(f), cb);
    InsertKeys(c, p, cb);
    hide Split, Insert;
    forall q | q in d ensures PrefixOfOne(since + {f}, q) {
      if q in c {
        var g :| g in since && q <= Split(g);
        assert g in since + {f};
      } else {
        assert f in since + {f} && q <= p;
      }
    }
    forall q | EndsEmpty(q) && PrefixOfOne(since + {f}, q) ensures q in d {
      var g :| g in since + {f} && q <= Split(g);
      if g in since {
        assert PrefixOfOne(since, q);
      }
    }
  }

  lemma RemoveKeepsGrown(c: Contents, since: set<string>, p: Path)
    requires Rooted(c) && p in c && Grown(c, since)
    ensures Grown(Remove(c, p), since)
  {
    var d := c[p := []];
    assert d.Keys == c.Keys;
    PruneSpec(d, p);
    forall q | EndsEmpty(q) && PrefixOfOne(since, q) ensures q in Remove(c, p) {
      PruneKeepsEmpty(d, p, q);
    }
  }

  lemma {:induction false} RunGrows(ops: seq<Op>)
    ensures Run(ops).Done? ==> Grown(Run(ops).subs.tree, Since(ops))
  {
    if ops != [] && Run(ops).Done? {
      var init, op := ops[..|ops| - 1], ops[|ops| - 1];
      RunGrows(init);
      RunAgrees(init);
      var s := Run(init).subs;
      if op.Subscribe? {
        InsertGrows(s.tree, Since(init), op.filter, op.callback);
      } else if op.Unsubscribe? && op.filter in s.topics {
        RemoveKeepsGrown(s.tree, Since(init), Split(op.filter));
      }
    }
  }

  function Deeper(c: Contents, n: nat): set<Path> {
    set r | r in c && |r| > n
  }

  lemma {:induction false} SubsetSize(a: set<Path>, b: set<Path>)
    requires a <= b
    ensures |a| <= |b|
  {
    if a != {} {
      var x :| x in a;
      SubsetSize(a - {x}, b - {x});
    }
  }

  /** Going down from a node ends at one with a callback, or at a dead one. */
  lemma {:induction false} EndBelow(c: Contents, p: Path) returns (q: Path)
    requires p in c
    ensures q in c && p <= q && (c[q] != [] || Dead(c, q))
    decreases |Deeper(c, |p|)|
  {
    if c[p] != [] || Dead(c, p) {
      q := p;
    } else {
      var child :| child in c && IsChild(child, p);
      var below, deeper := Deeper(c, |p|), Deeper(c, |child|);
      assert child in below && deeper <= below - {child};
      SubsetSize(deeper, below - {child});
      q := EndBelow(c, child);
    }
  }

  lemma {:induction false} OfHasPair(live: seq<Pair>, p: Path) returns (i: nat)
    requires Of(live, p) != []
    ensures i < |live| && Split(live[i].filter) == p
  {
    if Split(live[|live| - 1].filter) == p {
      i := |live| - 1;
    } else {
      i := OfHasPair(live[..|live| - 1], p);
    }
  }

  lemma NodeHasReason(c: Contents, live: seq<Pair>, since: set<string>, p: Path)
    requires Agrees(c, live) && OnlyEmptyLevelsDead(c) && Grown(c, since) && p in c && p != []
    ensures LiveBelow(live, p) || LeftBelow(since, p)
  {
    var q := EndBelow(c, p);
    if c[q] != [] {
      assert Get(c, q) == Of(live, q);
      var i := OfHasPair(live, q);
    } else {
      var f :| f in since && q <= Split(f);
      assert Split(f)[|p| - 1..][|q| - |p|] == Split(f)[|q| - 1] == q[|q| - 1] == "";
      assert UpToLastEmpty(Split(f), p);
    }
  }

  lemma LiveHasNode(c: Contents, live: seq<Pair>, p: Path)
    requires Agrees(c, live) && p != [] && LiveBelow(live, p)
    ensures p in c
  {
    var i :| 0 <= i < |live| && p <= Split(live[i].filter);
    var q := Split(live[i].filter);
    hide Split;
    OfContains(live, i);
    assert Get(c, q) == Of(live, q);
    assert q[..|p|] == p;
    RootedPrefix(c, q, |p|);
  }

  /** The path up to some empty level from level `n` on. */
  lemma UpToEmpty(s: Path, p: Path) returns (q: Path)
    requires UpToLastEmpty(s, p)
    ensures EndsEmpty(q) && p <= q <= s
  {
    var n := |p| - 1;
    var k :| 0 <= k < |s[n..]| && s[n..][k] == "";
    q := s[..n + k + 1];
  }

  lemma LeftHasNode(c: Contents, since: set<string>, p: Path)
    requires Rooted(c) && Grown(c, since) && LeftBelow(since, p)
    ensures p in c
  {
    var f :| f in since && UpToLastEmpty(Split(f), p);
    var q := UpToEmpty(Split(f), p);
    hide Split, EndsEmpty;
    assert PrefixOfOne(since, q);
    assert q[..|p|] == p;
    RootedPrefix(c, q, |p|);
  }

  /** Which nodes the tree has after any run: those with a live filter at or below them, and those left
      above (or for) an empty level of a filter subscribed since the last disconnect. */
  lemma NodeIff(ops: seq<Op>, p: Path)
    requires Run(ops).Done? && p != []
    ensures p in Run(ops).subs.tree <==> LiveBelow(Live(ops), p) || LeftBelow(Since(ops), p)
  {
    RunAgrees(ops);
    RunGrows(ops);
    hide Grown, LiveBelow, LeftBelow, Run;
    var c := Run(ops).subs.tree;
    if p in c {
      NodeHasReason(c, Live(ops), Since(ops), p);
    } else if LiveBelow(Live(ops), p) {
      LiveHasNode(c, Live(ops), p);
    } else if LeftBelow(Since(ops), p) {
      LeftHasNode(c, Since(ops), p);
    }
  }

  /** When everything has been unsubscribed, the tree is empty exactly when no filter subscribed since the
      last disconnect has an empty level. */
  lemma EmptyAgainIff(ops: seq<Op>)
    requires Run(ops).Done? && Live(ops) == []
    ensures Run(ops).subs.tree == map[] <==> forall f :: f in Since(ops) ==> "" !in Split(f)
  {
    var c := Run(ops).subs.tree;
    RunAgrees(ops);
    if f :| f in Since(ops) && "" in Split(f) {
      var p := Split(f)[..1];
      assert Split(f)[|p| - 1..] == Split(f);
      assert UpToLastEmpty(Split(f), p);
      NodeIff(ops, p);
    } else if c != map[] {
      var p :| p in c;
      NodeIff(ops, p);
    }
  }

  /** `unsubscribe` walks off the tree, after any run, exactly when the filter is still in the flat set while
      no live filter and no left node lies at or below it. */
  lemma UnsubscribeUndefinedIff(ops: seq<Op>, f: string)
    requires Run(ops).Done?
    ensures Step(Run(ops).subs, Unsubscribe(f)).Undefined? <==>
            f in Run(ops).subs.topics && !LiveBelow(Live(ops), Split(f)) && !LeftBelow(Since(ops), Split(f))
  {
    NodeIff(ops, Split(f));
  }

  lemma WithoutLast(live: seq<Pair>, f: string, cb: Callback)
    requires Of(live, Split(f)) == []
    ensures Without(live + [Pair(f, cb)], f) == live
  {
    var more := live + [Pair(f, cb)];
    assert more[..|live|] == live;
    WithoutAbsent(live, f);
  }

  /** Both calls, made after any run. */
  lemma BothCalls(ops: seq<Op>, f: string, cb: Callback)
    requires Run(ops).Done?
    ensures var both := ops + [Subscribe(f, cb)] + [Unsubscribe(f)];
            && Run(both).Done?
            && Run(both).subs.tree == Remove(Insert(Run(ops).subs.tree, Split(f), cb), Split(f))
            && Live(both) == Without(Live(ops) + [Pair(f, cb)], f) && Since(both) == Since(ops) + {f}
  {
    var one, p := ops + [Subscribe(f, cb)], Split(f);
    assert (one + [Unsubscribe(f)])[..|one|] == one;
    RunAppend(ops, Subscribe(f, cb));
    RunAppend(one, Unsubscribe(f));
    assert p in Run(one).subs.tree;
  }

  lemma RunCallbacks(ops: seq<Op>, q: Path)
    requires Run(ops).Done?
    ensures Get(Run(ops).subs.tree, q) == Of(Live(ops), q)
    ensures q in Run(ops).subs.tree ==> q != []
  {
    RunAgrees(ops);
  }

  /** The nodes and callbacks after both calls. */
  lemma NodesAfterBoth(ops: seq<Op>, f: string, cb: Callback, q: Path)
    requires Run(ops).Done? && Of(Live(ops), Split(f)) == []
    ensures var both := Run(ops + [Subscribe(f, cb)] + [Unsubscribe(f)]);
            && both.Done?
            && Get(both.subs.tree, q) == Get(Run(ops).subs.tree, q)
            && (q in both.subs.tree <==>
                q in Run(ops).subs.tree || UpToLastEmpty(Split(f), q))
  {
    var all := ops + [Subscribe(f, cb)] + [Unsubscribe(f)];
    BothCalls(ops, f, cb);
    WithoutLast(Live(ops), f, cb);
    hide Run, Split, Live, Since, LiveBelow, UpToLastEmpty, Insert, Remove, Of;
    RunCallbacks(ops, q);
    RunCallbacks(all, q);
    if q != [] {
      NodeIff(ops, q);
      NodeIff(all, q);
      assert LeftBelow(Since(ops) + {f}, q) <==> LeftBelow(Since(ops), q) || UpToLastEmpty(Split(f), q);
    }
  }

  lemma SameTree(c: Contents, d: Contents)
    requires forall q :: Get(c, q) == Get(d, q)
    ensures c == d <==> forall q :: q in c <==> q in d
  {
    if forall q :: q in c <==> q in d {
      forall q | q in c ensures c[q] == d[q] {
        assert Get(c, q) == Get(d, q);
      }
    }
  }

  lemma NothingNew(before: Contents, after: Contents, p: Path)
    requires forall q :: q in after <==> q in before || UpToLastEmpty(p, q)
    ensures (forall q :: q in after <==> q in before) <==>
            forall k :: 1 <= k <= |p| && "" in p[k - 1..] ==> p[..k] in before
  {
    if k :| 1 <= k <= |p| && "" in p[k - 1..] && p[..k] !in before {
      assert UpToLastEmpty(p, p[..k]);
    } else {
      forall q | UpToLastEmpty(p, q) ensures q in before {
        assert q == p[..|q|];
      }
    }
  }

  lemma LivePairsLost(ops: seq<Op>, f: string, cb: Callback)
    requires Run(ops).Done? && Of(Live(ops), Split(f)) != []
    ensures Run(ops + [Subscribe(f, cb)] + [Unsubscribe(f)]).Done?
    ensures Run(ops + [Subscribe(f, cb)] + [Unsubscribe(f)]).subs.tree != Run(ops).subs.tree
  {
    var c, p := Run(ops).subs.tree, Split(f);
    BothCalls(ops, f, cb);
    RunAgrees(ops);
    InsertSpec(c, p, cb);
    assert p in Insert(c, p, cb);
    RemoveSpec(Insert(c, p, cb), p);
    assert Get(c, p) == Of(Live(ops), p) && Get(Remove(Insert(c, p, cb), p), p) == [];
  }

  /** Subscribing and unsubscribing a filter, after any run, gives the same tree again exactly when the filter
      has no live pair and every node up to its last empty level had been there before. */
  lemma SubscribeThenUnsubscribe(ops: seq<Op>, f: string, cb: Callback)
    requires Run(ops).Done?
    ensures var both := Run(ops + [Subscribe(f, cb)] + [Unsubscribe(f)]);
            && both.Done?
            && (both.subs.tree == Run(ops).subs.tree <==>
                && Of(Live(ops), Split(f)) == []
                && forall k :: 1 <= k <= |Split(f)| && "" in Split(f)[k - 1..] ==> Split(f)[..k] in Run(ops).subs.tree)
  {
    hide Run, Split, Of, Live;
    if Of(Live(ops), Split(f)) != [] {
      LivePairsLost(ops, f, cb);
    } else {
      NodesAfterBoth(ops, f, cb, []);
      var before, after := Run(ops).subs.tree, Run(ops + [Subscribe(f, cb)] + [Unsubscribe(f)]).subs.tree;
      forall q ensures Get(after, q) == Get(before, q)
               ensures q in after <==> q in before || UpToLastEmpty(Split(f), q) {
        NodesAfterBoth(ops, f, cb, q);
      }
      SameTree(after, before);
      NothingNew(before, after, Split(f));
    }
  }

  /** The documentation says a disconnect cleans the subscriptions; the flat set keeps them. */
  lemma StaleFilter(f: string)
    ensures Run([Subscribe(f, 1)] + [Clear]) == Done(Subs(map[], {f}))
    ensures Live([Subscribe(f, 1)] + [Clear]) == []
  {
    OneSubscription(f, 1);
    assert [Subscribe(f, 1)] == [] + [Subscribe(f, 1)];
    RunAppend([], Subscribe(f, 1));
    RunAppend([Subscribe(f, 1)], Clear);
  }

  /** Every filter can be made stale, and unsubscribing it then walks off the tree. */
  lemma StaleFilterIsUndefined(f: string)
    ensures Run([Subscribe(f, 1)] + [Clear] + [Unsubscribe(f)]).Undefined?
  {
    StaleFilter(f);
    RunAppend([Subscribe(f, 1)] + [Clear], Unsubscribe(f));
  }

  /** Nodes outlive their filters: `a/` leaves the node of `a` behind, and a stale `a` then walks on that. */
  lemma LeftNodeHidesStaleFilter(a: string)
    requires '/' !in a
    ensures var ops := [Subscribe(a, 1)] + [Clear] + [Subscribe(a + "/", 2)] + [Unsubscribe(a + "/")];
            && Run(ops).Done? && Live(ops) == [] && a in Run(ops).subs.topics
            && Run(ops + [Unsubscribe(a)]).Done?
  {
    var start, f := [Subscribe(a, 1)] + [Clear], a + "/" + "";
    var ops := start + [Subscribe(f, 2)] + [Unsubscribe(f)];
    SplitOfOne(a);
    SplitOfTwo(a, "");
    assert f == a + "/";
    StaleFilter(a);
    BothCalls(start, f, 2);
    RunAppend(start, Subscribe(f, 2));
    RunAppend(start + [Subscribe(f, 2)], Unsubscribe(f));
    RunAppend(ops, Unsubscribe(a));
    hide Run, Split, Insert, Remove;
    WithoutLast([], f, 2);
    assert [a, ""][0..] == [a, ""];
    assert f in Since(ops) && UpToLastEmpty([a, ""], [a]);
    NodeIff(ops, [a]);
  }
}
