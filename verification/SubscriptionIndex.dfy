/** The subscription tree as the client keeps it: nodes on the heap, changed in place. Every method is
    proved against SubscriptionSpec. */
module SubscriptionIndex {
  import opened Topics
  import opened SubscriptionSpec

  class SubscriptionPart {
    var children: map<string, SubscriptionPart>
    var callbacks: seq<Callback>
    /** Where the node stands in its tree. */
    ghost const path: Path

    constructor (ghost p: Path)
      ensures children == map[] && callbacks == [] && path == p
    {
      children, callbacks, path := map[], [], p;
    }
  }

  datatype Unsubscribed = NotSubscribed | Removed | WalkedOff

  function Child(p: Path, l: string): Path {
    p + [l]
  }

  lemma ChildInjective(p: Path, l: string, q: Path, m: string)
    ensures Child(p, l) == Child(q, m) <==> p == q && l == m
  {
    if Child(p, l) == Child(q, m) {
      assert p == Child(p, l)[..|p|] && l == Child(p, l)[|p|];
    }
  }

  lemma ChildIsChild(p: Path, q: Path)
    ensures IsChild(q, p) <==> q != [] && q == Child(p, q[|q| - 1])
  {
  }

  /** The walk has passed the levels `at` of `path` and still has the text `rest` to cut. */
  ghost predicate Remaining(path: Path, at: Path, rest: string, last: bool) {
    if last then at == path else at + Split(rest) == path
  }

  lemma RemainingStep(path: Path, at: Path, rest: string)
    requires Remaining(path, at, rest, false)
    ensures var pos := FindSlash(rest);
            if pos < |rest|
            then && Remaining(path, Child(at, rest[..pos]), rest[pos + 1..], false)
                 && path[..|at| + 1] == Child(at, rest[..pos])
            else Remaining(path, Child(at, rest), rest, true) && path[..|at| + 1] == Child(at, rest)
    ensures |at| < |path|
  {
    var pos := FindSlash(rest);
    if pos < |rest| {
      assert at + Split(rest) == Child(at, rest[..pos]) + Split(rest[pos + 1..]);
    }
  }

  lemma GrowNothing(c: Contents)
    ensures Grow(c, []) == c
  {
  }

  lemma GrowReaches(c: Contents, p: Path)
    requires p != []
    ensures p in Grow(c, p) && Grow(c, p)[p] == Get(c, p)
  {
    assert p[..|p|] == p;
    assert p in Prefixes(p);
  }

  /** One more level grown. */
  lemma GrowByOne(c: Contents, at: Path, part: string)
    ensures var p := Child(at, part);
            Grow(c, p) == if p in Grow(c, at) then Grow(c, at) else Grow(c, at)[p := []]
  {
    var p := Child(at, part);
    forall q ensures q in Prefixes(p) <==> q in Prefixes(at) || q == p {
      if q in Prefixes(p) {
        var k :| 1 <= k <= |p| && q == p[..k];
        if k < |p| { assert q == at[..k]; }
      }
      if q in Prefixes(at) {
        var k :| 1 <= k <= |at| && q == at[..k];
        assert q == p[..k];
      }
      assert p == p[..|p|];
    }
  }

  lemma PruneStep(c: Contents, p: Path)
    requires p != [] && Dead(c, p) && p[|p| - 1] != ""
    ensures Prune(c, p) == Prune(c - {p}, p[..|p| - 1])
  {
  }

  class Index {
    var subscriptions: map<string, SubscriptionPart>
    var topics: set<string>
    /** The node standing at each path, and all nodes ever made. */
    ghost var nodes: map<Path, SubscriptionPart>
    ghost var repr: set<SubscriptionPart>

    ghost predicate NodesInRepr()
      reads this
    {
      forall p {:trigger nodes[p]} :: p in nodes ==> p != [] && nodes[p] in repr && nodes[p].path == p
    }

    /** The child map of the node at `p`; the root map for []. */
    ghost function Kids(p: Path): map<string, SubscriptionPart>
      requires NodesInRepr() && (p == [] || p in nodes)
      reads this, repr
    {
      if p == [] then subscriptions else nodes[p].children
    }

    ghost predicate Linked(p: Path, l: string)
      requires NodesInRepr()
      reads this, repr
    {
      if p == [] || p in nodes then
        (l in Kids(p) <==> Child(p, l) in nodes) && (l in Kids(p) ==> Kids(p)[l] == nodes[Child(p, l)])
      else Child(p, l) !in nodes
    }

    ghost predicate Valid()
      reads this, repr
      ensures Valid() ==> NodesInRepr()
    {
      && NodesInRepr()
      && forall p, l {:trigger Linked(p, l)} {:trigger Child(p, l)} :: Linked(p, l)
    }

    ghost function Contents(): Contents
      requires NodesInRepr()
      reads this, repr
    {
      map p | p in nodes :: nodes[p].callbacks
    }

    ghost function Value(): Subs
      requires NodesInRepr()
      reads this, repr
    {
      Subs(Contents(), topics)
    }

    constructor ()
      ensures Valid() && Value() == EMPTY && repr == {}
    {
      subscriptions, topics, nodes, repr := map[], {}, map[], {};
    }

    /** `cur` is the walk's pointer when it stands at `at`: null before the first level. */
    ghost predicate Stands(cur: SubscriptionPart?, at: Path)
      reads this
    {
      if at == [] then cur == null else at in nodes && cur == nodes[at]
    }

    /** A new, empty child below the node at `at`. */
    method AddChild(cur: SubscriptionPart?, part: string, ghost at: Path) returns (node: SubscriptionPart)
      requires Valid() && Stands(cur, at) && Child(at, part) !in nodes
      modifies this`subscriptions, this`nodes, this`repr, repr
      ensures Valid() && fresh(repr - old(repr))
      ensures Stands(node, Child(at, part)) && Contents() == old(Contents())[Child(at, part) := []]
    {
      ghost var p := Child(at, part);
      assert Linked(at, part);
      node := new SubscriptionPart(p);
      if cur == null {
        subscriptions := subscriptions[part := node];
      } else {
        cur.children := cur.children[part := node];
      }
      nodes, repr := nodes[p := node], repr + {node};
      forall q, l ensures Linked(q, l) {
        ChildInjective(at, part, q, l);
        assert old(Linked(q, l));
        assert old(Linked(p, l));
      }
    }

    /** `std::map::try_emplace` on the child map of the node at `at`. */
    method TryEmplace(cur: SubscriptionPart?, part: string, ghost at: Path) returns (node: SubscriptionPart)
      requires Valid() && Stands(cur, at)
      modifies this`subscriptions, this`nodes, this`repr, repr
      ensures Valid() && fresh(repr - old(repr))
      ensures Stands(node, Child(at, part))
      ensures Contents() == if Child(at, part) in old(nodes) then old(Contents())
                            else old(Contents())[Child(at, part) := []]
    {
      assert Linked(at, part);
      if cur == null && part in subscriptions {
        node := subscriptions[part];
      } else if cur != null && part in cur.children {
        node := cur.children[part];
      } else {
        node := AddChild(cur, part, at);
      }
    }

    /** Client::subscribe on the tree and the set: grow the path, append the callback, note the filter. */
    method Subscribe(topic: string, callback: Callback)
      requires Valid()
      modifies this, repr
      ensures Valid() && fresh(repr - old(repr))
      ensures Done(Value()) == Step(old(Value()), Op.Subscribe(topic, callback))
    {
      var cur: SubscriptionPart? := null;
      var rest, last := topic, false;
      hide Split, FindSlash, Grow;
      ghost var at: Path, path, c := [], Split(topic), Contents();
      GrowNothing(c);
      while !last
        invariant Valid() && fresh(repr - old(repr)) && topics == old(topics)
        invariant Stands(cur, at) && Contents() == Grow(c, at)
        invariant Remaining(path, at, rest, last)
        decreases !last, |rest|
      {
        var part, pos := rest, FindSlash(rest);
        RemainingStep(path, at, rest);
        if pos < |rest| {
          part, rest := rest[..pos], rest[pos + 1..];
        } else {
          last := true;
        }
        cur := TryEmplace(cur, part, at);
        GrowByOne(c, at, part);
        at := Child(at, part);
      }
      cur.callbacks := cur.callbacks + [callback];
      topics := topics + {topic};
      GrowReaches(c, path);
      assert Contents() == Grow(c, path)[path := Get(c, path) + [callback]];
      forall q, l ensures Linked(q, l) {
        assert Linked(q, l);
      }
    }

    /** `reverse` lists the parts of `path` with the nodes standing there. */
    ghost predicate OnPath(reverse: seq<(string, SubscriptionPart)>, path: Path)
      reads this
    {
      && |reverse| == |path|
      && forall i :: 0 <= i < |path| ==> reverse[i].0 == path[i] && Stands(reverse[i].1, path[..i + 1])
    }

    lemma OnPathExtends(reverse: seq<(string, SubscriptionPart)>, at: Path, part: string, node: SubscriptionPart)
      requires OnPath(reverse, at) && Stands(node, Child(at, part))
      ensures OnPath(reverse + [(part, node)], Child(at, part))
    {
      var p := Child(at, part);
      var more := reverse + [(part, node)];
      forall i | 0 <= i < |p| ensures more[i].0 == p[i] && Stands(more[i].1, p[..i + 1]) {
        assert p[..i + 1] == if i < |at| then at[..i + 1] else p;
      }
    }

    lemma {:induction false} NoNodeBelow(p: Path, k: nat)
      requires Valid() && 1 <= k <= |p| && p[..k] !in nodes
      ensures p !in nodes
      decreases |p| - k
    {
      if k < |p| {
        assert p[..k + 1] == Child(p[..k], p[k]);
        assert Linked(p[..k], p[k]);
        NoNodeBelow(p, k + 1);
      } else {
        assert p[..k] == p;
      }
    }

    /** Follow the path of `topic`, recording every part with its node. */
    method Walk(topic: string) returns (ok: bool, reverse: seq<(string, SubscriptionPart)>)
      requires Valid()
      ensures ok <==> Split(topic) in nodes
      ensures ok ==> OnPath(reverse, Split(topic))
    {
      var cur: SubscriptionPart? := null;
      var rest, last := topic, false;
      ghost var at: Path, path := [], Split(topic);
      reverse := [];
      while !last
        invariant Remaining(path, at, rest, last)
        invariant Stands(cur, at) && OnPath(reverse, at)
        decreases !last, |rest|
      {
        var part, pos := rest, FindSlash(rest);
        RemainingStep(path, at, rest);
        if pos < |rest| {
          part, rest := rest[..pos], rest[pos + 1..];
        } else {
          last := true;
        }
        assert Linked(at, part);
        if (if cur == null then part !in subscriptions else part !in cur.children) {
          NoNodeBelow(path, |at| + 1);
          return false, reverse;
        }
        cur := if cur == null then subscriptions[part] else cur.children[part];
        OnPathExtends(reverse, at, part, cur);
        reverse := reverse + [(part, cur)];
        at := Child(at, part);
      }
      ok := true;
    }

    lemma EmptyChildrenIffNoChild(p: Path)
      requires Valid() && p in nodes
      ensures nodes[p].children == map[] <==> !HasChild(Contents(), p)
    {
      if nodes[p].children != map[] {
        var l :| l in nodes[p].children;
        assert Linked(p, l);
        ChildIsChild(p, Child(p, l));
        assert Child(p, l) in Contents();
      }
      forall q | q in nodes && IsChild(q, p) ensures nodes[p].children != map[] {
        ChildIsChild(p, q);
        assert Linked(p, q[|q| - 1]);
      }
    }

    /** `children.erase(children.find(part))` on the node at `at`, for a childless node below it. */
    method Erase(cur: SubscriptionPart?, part: string, ghost at: Path)
      requires Valid() && Stands(cur, at)
      requires Child(at, part) in nodes && !HasChild(Contents(), Child(at, part))
      modifies this`subscriptions, this`nodes, repr
      ensures Valid() && nodes == old(nodes) - {Child(at, part)}
      ensures Contents() == old(Contents()) - {Child(at, part)}
    {
      ghost var p := Child(at, part);
      EmptyChildrenIffNoChild(p);
      assert Linked(at, part);
      assert if cur == null then part in subscriptions else part in cur.children;  // find never misses
      if cur == null {
        subscriptions := subscriptions - {part};
      } else {
        cur.children := cur.children - {part};
      }
      nodes := nodes - {p};
      forall q, l ensures Linked(q, l) {
        ChildInjective(at, part, q, l);
        assert old(Linked(q, l));
      }
    }

    /** What is left to erase when the nodes below depth `k` have been visited. */
    ghost predicate Pending(k: nat, removeNext: string, path: Path, target: Contents)
      requires NodesInRepr() && k <= |path|
      reads this, repr
    {
      if k == |path| then removeNext == "" && Prune(Contents(), path) == target
      else if removeNext == "" then Contents() == target && path[..k + 1] in nodes
      else removeNext == path[k] && Dead(Contents(), path[..k + 1]) && Prune(Contents(), path[..k + 1]) == target
    }

    /** One turn of the bookkeeping loop at depth `k`: erase the child found empty, look at the node itself. */
    method PruneAt(node: SubscriptionPart, part: string, removeNext: string, k: nat,
                   ghost path: Path, ghost target: Contents) returns (next: string)
      requires Valid() && k < |path| && part == path[k] && Stands(node, path[..k + 1])
      requires Pending(k + 1, removeNext, path, target)
      modifies this`subscriptions, this`nodes, repr
      ensures Valid() && nodes.Keys <= old(nodes.Keys)
      ensures old(nodes.Keys) <= nodes.Keys + (if k + 1 < |path| then {path[..k + 2]} else {})
      ensures forall p :: p in nodes ==> nodes[p] == old(nodes[p])
      ensures Pending(k, next, path, target)
    {
      ghost var at := path[..k + 1];
      if k + 1 < |path| {
        assert path[..k + 2] == Child(at, path[k + 1]);
        ChildIsChild(at, path[..k + 2]);
      } else {
        assert at == path;
      }
      if removeNext != "" {
        assert path[..k + 2][..|path[..k + 2]| - 1] == at;
        PruneStep(Contents(), path[..k + 2]);
        Erase(node, removeNext, at);
      }
      assert (k + 1 < |path| && removeNext == "") || Prune(Contents(), at) == target;
      EmptyChildrenIffNoChild(at);
      next := if node.callbacks == [] && node.children == map[] then part else "";
      assert at[|at| - 1] == part;
      if k + 1 < |path| && removeNext == "" {
        assert path[..k + 2] in Contents();
      }
    }

    /** The bookkeeping loop of unsubscribe: erase empty nodes from the leaf upwards, "" meaning none. */
    method PruneUpwards(reverse: seq<(string, SubscriptionPart)>, ghost path: Path)
      requires Valid() && path != [] && OnPath(reverse, path)
      modifies this`subscriptions, this`nodes, repr
      ensures Valid() && Contents() == Prune(old(Contents()), path)
    {
      var k, removeNext := |reverse|, "";
      ghost var target := Prune(Contents(), path);
      while k > 0
        invariant 0 <= k <= |path| && Valid()
        invariant forall i :: 0 <= i < k ==> reverse[i].0 == path[i] && Stands(reverse[i].1, path[..i + 1])
        invariant Pending(k, removeNext, path, target)
      {
        k := k - 1;
        removeNext := PruneAt(reverse[k].1, reverse[k].0, removeNext, k, path, target);
      }
      if removeNext != "" {
        assert path[..1] == Child([], removeNext);
        assert path[..1][..0] == [];
        PruneStep(Contents(), path[..1]);
        Erase(null, removeNext, []);
      }
    }

    /** The filter leaves the flat set; the tree stays as it is. */
    method Forget(topic: string)
      requires Valid()
      modifies this`topics
      ensures Valid() && Contents() == old(Contents()) && topics == old(topics) - {topic}
    {
      topics := topics - {topic};
      forall q, l ensures Linked(q, l) {
        assert old(Linked(q, l));
      }
    }

    method ClearLeaf(reverse: seq<(string, SubscriptionPart)>, ghost path: Path)
      requires Valid() && path != [] && OnPath(reverse, path)
      modifies repr
      ensures Valid() && OnPath(reverse, path)
      ensures Contents() == old(Contents())[path := []]
    {
      assert path[..|path|] == path;
      var leaf := reverse[|reverse| - 1].1;
      leaf.callbacks := [];
      forall q, l ensures Linked(q, l) {
        assert old(Linked(q, l));
      }
    }

    /** Client::unsubscribe on the tree and the set. `WalkedOff` is the source's undefined behaviour. */
    method Unsubscribe(topic: string) returns (r: Unsubscribed)
      requires Valid()
      modifies this, repr
      ensures Valid() && repr == old(repr)
      ensures r == WalkedOff <==> Step(old(Value()), Op.Unsubscribe(topic)) == Undefined
      ensures r == NotSubscribed <==> topic !in old(topics)
      ensures r != Removed ==> Value() == old(Value())
      ensures r != WalkedOff ==> Done(Value()) == Step(old(Value()), Op.Unsubscribe(topic))
    {
      if topic !in topics {
        return NotSubscribed;
      }
      var ok, reverse := Walk(topic);
      if !ok {
        return WalkedOff;
      }
      hide Valid, Split;
      ClearLeaf(reverse, Split(topic));
      PruneUpwards(reverse, Split(topic));
      Forget(topic);
      r := Removed;
    }

    /** Impl::findSubscriptionMatch: the callbacks run, in order. */
    method FindSubscriptionMatch(topicSearch: string, level: map<string, SubscriptionPart>, ghost prefix: Path)
      returns (run: seq<Callback>)
      requires Valid() && (prefix == [] || prefix in nodes) && level == Kids(prefix)
      ensures run == Deliver(Contents(), prefix, Split(topicSearch))
      decreases |topicSearch|, 1
    {
      var part := topicSearch[..FindSlash(topicSearch)];
      assert topicSearch[..|topicSearch|] == topicSearch;
      var literal := FindPart(part, topicSearch, level, prefix);
      var single := FindPart(SINGLE, topicSearch, level, prefix);
      run := literal + single;
      assert Linked(prefix, MULTI);
      if MULTI in level {
        run := run + level[MULTI].callbacks;
      }
    }

    /** The callbacks of the child `part`, then the walk below it when topic levels remain. */
    method FindPart(part: string, topicSearch: string, level: map<string, SubscriptionPart>, ghost prefix: Path)
      returns (run: seq<Callback>)
      requires Valid() && (prefix == [] || prefix in nodes) && level == Kids(prefix)
      ensures run == Branch(Contents(), Child(prefix, part), Split(topicSearch))
      decreases |topicSearch|, 0
    {
      var pos := FindSlash(topicSearch);
      assert Linked(prefix, part);
      if part !in level {
        return [];
      }
      run := level[part].callbacks;
      if pos < |topicSearch| {
        assert Split(topicSearch)[1..] == Split(topicSearch[pos + 1..]);
        var more := FindSubscriptionMatch(topicSearch[pos + 1..], level[part].children, Child(prefix, part));
        run := run + more;
      }
    }

    /** Impl::disconnect on the tree: the flat set is kept. */
    method Clear()
      requires Valid()
      modifies this
      ensures Valid() && repr == {}
      ensures Done(Value()) == Step(old(Value()), Op.Clear)
    {
      subscriptions, nodes, repr := map[], map[], {};
    }
  }
}
