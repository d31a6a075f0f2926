/** Topic names and filters as lists of levels: cutting them at '/', the relation
    the client computes between a filter and a topic, and the standard's relation. */
module Topics {

  type Path = seq<string>

  const SINGLE := "+"
  const MULTI := "#"

  /** Index of the first '/', or |s| when there is none (`std::string_view::npos`). */
  function FindSlash(s: string): (pos: nat)
    ensures pos <= |s|
    ensures pos < |s| ==> s[pos] == '/'
    ensures '/' !in s[..pos]
  {
    if s == "" then 0
    else if s[0] == '/' then 0
    else
      var pos := 1 + FindSlash(s[1..]);
      assert s[..pos] == [s[0]] + s[1..][..pos - 1];
      pos
  }

  function Split(s: string): (levels: Path)
    ensures levels != []
    decreases |s|
  {
    var pos := FindSlash(s);
    if pos == |s| then [s] else [s[..pos]] + Split(s[pos + 1..])
  }

  function Join(levels: Path): string
    requires levels != []
  {
    if |levels| == 1 then levels[0] else levels[0] + "/" + Join(levels[1..])
  }

  lemma JoinMore(level: string, levels: Path)
    requires levels != []
    ensures Join([level] + levels) == level + "/" + Join(levels)
  {
    assert ([level] + levels)[1..] == levels;
  }

  /** Cutting loses nothing: joining the levels with '/' gives the text back. */
  lemma {:induction false} JoinSplit(s: string)
    ensures Join(Split(s)) == s
    decreases |s|
  {
    var pos := FindSlash(s);
    hide FindSlash;
    if pos < |s| {
      var rest := s[pos + 1..];
      JoinSplit(rest);
      assert Split(s) == [s[..pos]] + Split(rest);
      JoinMore(s[..pos], Split(rest));
      assert s == s[..pos] + "/" + rest;
    }
  }

  /** Two filters with the same levels are the same filter, so a node of the tree
      belongs to one filter string. */
  lemma SplitInjective(s: string, t: string)
    requires Split(s) == Split(t)
    ensures s == t
  {
    JoinSplit(s);
    JoinSplit(t);
  }

  lemma {:induction false} FindSlashOfPrefix(level: string, rest: string)
    requires '/' !in level
    ensures FindSlash(level + "/" + rest) == |level|
    ensures FindSlash(level) == |level|
  {
    if level != "" {
      var s := level + "/" + rest;
      assert s[1..] == level[1..] + "/" + rest;
      FindSlashOfPrefix(level[1..], rest);
    }
  }

  /** Every list of levels is reached by some text. */
  lemma {:induction false} SplitJoin(levels: Path)
    requires levels != []
    requires forall i :: 0 <= i < |levels| ==> '/' !in levels[i]
    ensures Split(Join(levels)) == levels
  {
    if |levels| == 1 {
      FindSlashOfPrefix(levels[0], "");
    } else {
      var rest := Join(levels[1..]);
      var s := levels[0] + "/" + rest;
      FindSlashOfPrefix(levels[0], rest);
      assert s[..|levels[0]|] == levels[0];
      assert s[|levels[0]| + 1..] == rest;
      SplitJoin(levels[1..]);
    }
  }

  lemma {:induction false} LevelsHaveNoSlash(s: string)
    ensures forall i :: 0 <= i < |Split(s)| ==> '/' !in Split(s)[i]
    decreases |s|
  {
    var pos := FindSlash(s);
    hide FindSlash;
    if pos < |s| {
      LevelsHaveNoSlash(s[pos + 1..]);
      assert Split(s) == [s[..pos]] + Split(s[pos + 1..]);
    } else {
      assert s[..pos] == s;
    }
  }

  // ---- The relation the client computes -------------------------------------

  predicate NoWildcard(topic: Path) {
    SINGLE !in topic && MULTI !in topic
  }

  predicate LevelFits(filterLevel: string, topicLevel: string) {
    filterLevel == topicLevel || filterLevel == SINGLE
  }

  /** The m levels of the filter fit the first m levels of the topic; the last one may be "#". */
  predicate Fits(filter: Path, topic: Path) {
    && 1 <= |filter| <= |topic|
    && (forall i :: 0 <= i < |filter| - 1 ==> LevelFits(filter[i], topic[i]))
    && (LevelFits(filter[|filter| - 1], topic[|filter| - 1]) || filter[|filter| - 1] == MULTI)
  }

  function One(b: bool): nat {
    if b then 1 else 0
  }

  /** How many times the tree walk reaches the node of `filter` for `topic`. A topic level that is
      itself "+" (or "#") is looked up twice: once as a literal and once as a wildcard. */
  function Visits(filter: Path, topic: Path): nat {
    if filter == [] || topic == [] then 0
    else if |filter| == 1 then
      One(filter[0] == topic[0]) + One(filter[0] == SINGLE) + One(filter[0] == MULTI)
    else
      var below := Visits(filter[1..], topic[1..]);
      (if filter[0] == topic[0] then below else 0) + (if filter[0] == SINGLE then below else 0)
  }

  /** For topics without a wildcard level the walk reaches a node once or never. */
  lemma {:induction false} VisitsIsFits(filter: Path, topic: Path)
    requires NoWildcard(topic)
    ensures Visits(filter, topic) == One(Fits(filter, topic))
  {
    if filter == [] || topic == [] {
    } else {
      assert topic[0] in topic;
      if |filter| > 1 {
        assert NoWildcard(topic[1..]);
        VisitsIsFits(filter[1..], topic[1..]);
        if Fits(filter, topic) {
          forall i | 0 <= i < |filter| - 2 ensures LevelFits(filter[1..][i], topic[1..][i]) {
            assert LevelFits(filter[i + 1], topic[i + 1]);
          }
        }
        if LevelFits(filter[0], topic[0]) && Fits(filter[1..], topic[1..]) {
          forall i | 0 <= i < |filter| - 1 ensures LevelFits(filter[i], topic[i]) {
            if i > 0 {
              assert LevelFits(filter[1..][i - 1], topic[1..][i - 1]);
            }
          }
        }
      }
    }
  }

  /** A wildcard level in the topic makes the walk reach the filter ending there twice. */
  lemma {:induction false} VisitedTwice(topic: Path, k: nat)
    requires k < |topic| && topic[k] in {SINGLE, MULTI}
    ensures Visits(topic[..k + 1], topic) >= 2
  {
    if k > 0 {
      VisitedTwice(topic[1..], k - 1);
      assert topic[..k + 1][1..] == topic[1..][..k];
      assert Visits(topic[..k + 1], topic) >= Visits(topic[1..][..k], topic[1..]);
    }
  }

  /** "No filter is visited twice" holds exactly for the topics without a wildcard level. */
  lemma AtMostOneVisitIff(topic: Path)
    ensures NoWildcard(topic) <==> forall filter :: Visits(filter, topic) <= 1
  {
    if NoWildcard(topic) {
      forall filter ensures Visits(filter, topic) <= 1 {
        VisitsIsFits(filter, topic);
      }
    } else {
      var k :| 0 <= k < |topic| && topic[k] in {SINGLE, MULTI};
      VisitedTwice(topic, k);
    }
  }

  // ---- Section 4.7 of MQTT 3.1.1 ----------------------------------------------

  /** A valid filter uses "#" only as its last level (section 4.7.1.2). */
  predicate ValidFilter(filter: Path) {
    filter != [] && forall i :: 0 <= i < |filter| - 1 ==> filter[i] != MULTI
  }

  /** Section 4.7.1: "+" stands for one level; "#" for any number of levels, the parent included. */
  predicate StandardLevels(filter: Path, topic: Path) {
    if filter == [] then topic == []
    else if filter[0] == MULTI then true
    else topic != [] && LevelFits(filter[0], topic[0]) && StandardLevels(filter[1..], topic[1..])
  }

  predicate DollarTopic(topic: Path) {
    topic != [] && topic[0] != "" && topic[0][0] == '$'
  }

  /** Section 4.7.2: a filter that begins with a wildcard does not match a topic that begins with '$'. */
  predicate StandardMatch(filter: Path, topic: Path) {
    && StandardLevels(filter, topic)
    && !(DollarTopic(topic) && filter != [] && filter[0] in {SINGLE, MULTI})
  }

  /** The filter names the topic's children with "#", as in `a/#` for topic `a`. */
  predicate NamesParent(filter: Path, topic: Path) {
    && |filter| == |topic| + 1
    && filter[|topic|] == MULTI
  }

  /** The filter stops before the topic does, without "#", as in `a` for topic `a/b`. */
  predicate StopsEarly(filter: Path, topic: Path) {
    filter != [] && |filter| < |topic| && filter[|filter| - 1] != MULTI
  }

  lemma FitsUnfolds(filter: Path, topic: Path)
    requires |filter| > 1 && |topic| > 1
    ensures Fits(filter, topic) <==> LevelFits(filter[0], topic[0]) && Fits(filter[1..], topic[1..])
  {
    var f, t := filter[1..], topic[1..];
    if Fits(filter, topic) {
      forall i | 0 <= i < |f| - 1 ensures LevelFits(f[i], t[i]) {
        assert LevelFits(filter[i + 1], topic[i + 1]);
      }
    }
    if LevelFits(filter[0], topic[0]) && Fits(f, t) {
      forall i | 0 <= i < |filter| - 1 ensures LevelFits(filter[i], topic[i]) {
        if i > 0 {
          assert LevelFits(f[i - 1], t[i - 1]);
        }
      }
    }
  }

  lemma {:induction false} GapOfLevels(filter: Path, topic: Path)
    requires ValidFilter(filter) && topic != [] && NoWildcard(topic)
    ensures StandardLevels(filter, topic) && !Fits(filter, topic) ==> NamesParent(filter, topic)
    ensures NamesParent(filter, topic) ==> !Fits(filter, topic)
    ensures Fits(filter, topic) && !StandardLevels(filter, topic) ==> StopsEarly(filter, topic)
    ensures StopsEarly(filter, topic) ==> !StandardLevels(filter, topic)
  {
    assert topic[0] in topic;
    if |filter| == 1 {
      assert filter[1..] == [];
      assert StandardLevels(filter[1..], topic[1..]) == (topic[1..] == []);
    } else {
      var f, t := filter[1..], topic[1..];
      if t == [] {
        if StandardLevels(filter, topic) {
          assert StandardLevels(f, t);
        }
      } else {
        assert NoWildcard(t);
        assert ValidFilter(f) by {
          forall i | 0 <= i < |f| - 1 ensures f[i] != MULTI {
            assert f[i] == filter[i + 1];
          }
        }
        GapOfLevels(f, t);
        FitsUnfolds(filter, topic);
      }
    }
  }

  /** The exact gap between the client and the standard, for every valid filter and topic: the client
      misses a standard match exactly when the filter names the topic's parent with "#"; it delivers
      beyond the standard exactly when the filter stops early, or begins with a wildcard while the
      topic begins with '$'. */
  lemma GapToStandard(filter: Path, topic: Path)
    requires ValidFilter(filter) && topic != [] && NoWildcard(topic)
    ensures StandardMatch(filter, topic) ==> (Fits(filter, topic) <==> !NamesParent(filter, topic))
    ensures Fits(filter, topic) ==>
              (StandardMatch(filter, topic) <==>
               !StopsEarly(filter, topic) && !(DollarTopic(topic) && filter[0] in {SINGLE, MULTI}))
  {
    GapOfLevels(filter, topic);
  }

  lemma SplitOfOne(level: string)
    requires '/' !in level
    ensures Split(level) == [level]
  {
    SplitJoin([level]);
  }

  lemma SplitOfTwo(first: string, second: string)
    requires '/' !in first && '/' !in second
    ensures Split(first + "/" + second) == [first, second]
  {
    SplitJoin([first, second]);
    assert Join([first, second]) == first + "/" + second;
  }

  /** The standard matches and the client does not deliver. */
  predicate Missed(filter: string, topic: string) {
    && ValidFilter(Split(filter)) && NoWildcard(Split(topic))
    && StandardMatch(Split(filter), Split(topic)) && !Fits(Split(filter), Split(topic))
  }

  /** The client delivers and the standard does not match. */
  predicate Added(filter: string, topic: string) {
    && ValidFilter(Split(filter)) && NoWildcard(Split(topic))
    && !StandardMatch(Split(filter), Split(topic)) && Fits(Split(filter), Split(topic))
  }

  lemma MissesParent(a: string)
    requires '/' !in a && a != SINGLE && a != MULTI
    ensures Missed(a + "/" + MULTI, a)
  {
    SplitOfTwo(a, MULTI);
    SplitOfOne(a);
    hide Split;
    assert [a, MULTI][1..] == [MULTI] && StandardLevels([MULTI], [a][1..]);
    assert NoWildcard([a]);
  }

  lemma AddsChildren(a: string, b: string)
    requires '/' !in a && '/' !in b && a != MULTI && NoWildcard([a, b])
    ensures Added(a, a + "/" + b)
  {
    SplitOfTwo(a, b);
    SplitOfOne(a);
    hide Split;
    assert StopsEarly([a], [a, b]);
    GapToStandard([a], [a, b]);
  }

  lemma AddsServerTopics(a: string)
    requires '/' !in a && a != "" && a[0] == '$'
    ensures Added(MULTI, a)
  {
    SplitOfOne(MULTI);
    SplitOfOne(a);
    hide Split;
  }

  /** The three gaps at inputs the client meets: `a/#` is missed for topic `a`; `a` is added for `a/b`, and
      `#` for `$SYS`. */
  lemma GapWitnesses()
    ensures Missed("a/#", "a") && Added("a", "a/b") && Added("#", "$SYS")
  {
    MissesParent("a");
    AddsChildren("a", "b");
    AddsServerTopics("$SYS");
    hide Missed, Added;
    assert "a" + "/" + "#" == "a/#" && "a" + "/" + "b" == "a/b";
  }
}
