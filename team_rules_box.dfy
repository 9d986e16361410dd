/**
 * The team-rules panel: convention rules grouped under their topic, rules of unknown
 * topics dropped, each group's rules and the groups themselves in `sort_order`.
 */
module TeamRulesBox {
  import opened Wrappers
  import opened Seqs
  import opened Sorting
  import opened DatabaseTypes
  import opened Backend
  import opened ConventionApi

  datatype GroupedRule = GroupedRule(topicId: string, title: string, sortOrder: int, rules: seq<ConventionRule>)

  /** `topicMap.get(id)`: a `Map` built from entries keeps the last topic with a given id. */
  function TopicById(topics: seq<TopicConventionOptionWithType>, id: string): (r: Option<TopicConventionOptionWithType>)
    ensures r.None? <==> forall i :: 0 <= i < |topics| ==> topics[i].id != id
    ensures r.Some? ==> r.value.id == id && r.value in topics
    decreases |topics|
  {
    if topics == [] then None
    else if topics[|topics| - 1].id == id then Some(topics[|topics| - 1])
    else
      var r := TopicById(topics[..|topics| - 1], id);
      assert forall i :: 0 <= i < |topics| - 1 ==> topics[..|topics| - 1][i] == topics[i];
      r
  }

  /** The topic found is the last one with that id. */
  lemma {:induction false} TopicByIdLastWins(topics: seq<TopicConventionOptionWithType>, id: string, j: nat)
    requires TopicById(topics, id).Some? && j < |topics| && topics[j].id == id
    ensures exists i :: j <= i < |topics| && topics[i] == TopicById(topics, id).value
    decreases |topics|
  {
    var n := |topics| - 1;
    if topics[n].id != id {
      var init := topics[..n];
      assert TopicById(topics, id) == TopicById(init, id);
      assert j < n && init[j] == topics[j];
      TopicByIdLastWins(init, id, j);
      var i :| j <= i < |init| && init[i] == TopicById(init, id).value;
      assert topics[i] == init[i];
    } else {
      assert topics[n] == TopicById(topics, id).value;
    }
  }

  function HasTopic(topics: seq<TopicConventionOptionWithType>): ConventionRule -> bool {
    (r: ConventionRule) => TopicById(topics, r.topicId).Some?
  }

  function OfTopicId(id: string): ConventionRule -> bool {
    (r: ConventionRule) => r.topicId == id
  }

  /** The topic ids that get a group, in the order their first rule appears. */
  function GroupKeys(rules: seq<ConventionRule>, topics: seq<TopicConventionOptionWithType>): seq<string> {
    Distinct(Map(Filter(rules, HasTopic(topics)), RuleTopicId))
  }

  /** The group of topic `id`; only ever built for an id whose topic exists. */
  function MakeGroup(rules: seq<ConventionRule>, topics: seq<TopicConventionOptionWithType>, id: string)
    : (r: GroupedRule)
    ensures r.topicId == id
  {
    match TopicById(topics, id)
    case None => GroupedRule(id, "", 0, [])
    case Some(t) => GroupedRule(id, t.title, t.sortOrder, SortBy(Filter(rules, OfTopicId(id)), Ascending(RuleSortOrder)))
  }

  function GroupsOf(rules: seq<ConventionRule>, topics: seq<TopicConventionOptionWithType>, keys: seq<string>)
    : (r: seq<GroupedRule>)
    ensures |r| == |keys|
    ensures forall j :: 0 <= j < |keys| ==> r[j] == MakeGroup(rules, topics, keys[j])
  {
    seq(|keys|, j requires 0 <= j < |keys| => MakeGroup(rules, topics, keys[j]))
  }

  function GroupSortOrder(g: GroupedRule): int { g.sortOrder }

  /** The panel's groups, stated without the loop: one per key, then ordered by the topic's `sort_order`. */
  function Groups(rules: seq<ConventionRule>, topics: seq<TopicConventionOptionWithType>): seq<GroupedRule> {
    SortBy(GroupsOf(rules, topics, GroupKeys(rules, topics)), Ascending(GroupSortOrder))
  }

  /** What `byTopic` holds for one topic while the loop runs. */
  datatype Bucket = Bucket(title: string, sortOrder: int, rules: seq<ConventionRule>)

  /** After the rules `prefix`: one bucket per key, with its topic's title, order and rules. */
  ghost predicate BucketsMatch(prefix: seq<ConventionRule>, topics: seq<TopicConventionOptionWithType>,
                               keys: seq<string>, byTopic: map<string, Bucket>)
  {
    && (forall k :: k in byTopic <==> k in keys)
    && (forall k :: k in byTopic ==>
          && TopicById(topics, k).Some?
          && byTopic[k] == Bucket(TopicById(topics, k).value.title, TopicById(topics, k).value.sortOrder,
                                  Filter(prefix, OfTopicId(k))))
  }

  /** A rule of an unknown topic changes nothing. */
  lemma SkipStep(prefix: seq<ConventionRule>, r: ConventionRule, topics: seq<TopicConventionOptionWithType>,
                 keys: seq<string>, byTopic: map<string, Bucket>)
    requires keys == GroupKeys(prefix, topics) && BucketsMatch(prefix, topics, keys, byTopic)
    requires TopicById(topics, r.topicId).None?
    ensures keys == GroupKeys(prefix + [r], topics) && BucketsMatch(prefix + [r], topics, keys, byTopic)
  {
    assert !HasTopic(topics)(r);
    FilterSnoc(prefix, r, HasTopic(topics));
    assert Filter(prefix + [r], HasTopic(topics)) == Filter(prefix, HasTopic(topics));
    forall k | k in byTopic
      ensures Filter(prefix + [r], OfTopicId(k)) == Filter(prefix, OfTopicId(k))
    {
      assert !OfTopicId(k)(r);
      FilterSnoc(prefix, r, OfTopicId(k));
      assert Filter(prefix, OfTopicId(k)) + [] == Filter(prefix, OfTopicId(k));
    }
  }

  /** The keys after a rule of a known topic: its topic id is added unless already there. */
  lemma AddStepKeys(prefix: seq<ConventionRule>, r: ConventionRule, topics: seq<TopicConventionOptionWithType>)
    requires TopicById(topics, r.topicId).Some?
    ensures var keys := GroupKeys(prefix, topics);
            GroupKeys(prefix + [r], topics) == if r.topicId in keys then keys else keys + [r.topicId]
  {
    var f := Filter(prefix, HasTopic(topics));
    assert HasTopic(topics)(r) && RuleTopicId(r) == r.topicId;
    FilterSnoc(prefix, r, HasTopic(topics));
    assert Filter(prefix + [r], HasTopic(topics)) == f + [r];
    MapSnoc(f, r, RuleTopicId);
    DistinctSnoc(Map(f, RuleTopicId), r.topicId);
  }

  /** A topic without a key has no rules yet. */
  lemma NoKeyNoRules(prefix: seq<ConventionRule>, topics: seq<TopicConventionOptionWithType>, k: string)
    requires TopicById(topics, k).Some? && k !in GroupKeys(prefix, topics)
    ensures Filter(prefix, OfTopicId(k)) == []
  {
    if Filter(prefix, OfTopicId(k)) != [] {
      var x := Filter(prefix, OfTopicId(k))[0];
      assert OfTopicId(k)(x) && x in prefix;
      var i :| 0 <= i < |prefix| && prefix[i] == x;
      GroupKeysSpec(prefix, topics, k);
    }
  }

  /** A rule of a known topic opens its topic's bucket if needed and is appended to it. */
  lemma AddStep(prefix: seq<ConventionRule>, r: ConventionRule, topics: seq<TopicConventionOptionWithType>,
                keys: seq<string>, byTopic: map<string, Bucket>)
    requires keys == GroupKeys(prefix, topics) && BucketsMatch(prefix, topics, keys, byTopic)
    requires TopicById(topics, r.topicId).Some?
    ensures var t := TopicById(topics, r.topicId).value;
            var g := if r.topicId in byTopic then byTopic[r.topicId] else Bucket(t.title, t.sortOrder, []);
            var keys' := if r.topicId in byTopic then keys else keys + [r.topicId];
            && keys' == GroupKeys(prefix + [r], topics)
            && BucketsMatch(prefix + [r], topics, keys', byTopic[r.topicId := g.(rules := g.rules + [r])])
  {
    var t := TopicById(topics, r.topicId).value;
    var g := if r.topicId in byTopic then byTopic[r.topicId] else Bucket(t.title, t.sortOrder, []);
    var keys' := if r.topicId in byTopic then keys else keys + [r.topicId];
    var byTopic' := byTopic[r.topicId := g.(rules := g.rules + [r])];
    AddStepKeys(prefix, r, topics);
    assert r.topicId in keys <==> r.topicId in byTopic;
    assert keys' == GroupKeys(prefix + [r], topics);
    assert forall k :: k in byTopic' <==> k in keys';
    if r.topicId !in byTopic {
      NoKeyNoRules(prefix, topics, r.topicId);
    }
    AddStepBuckets(prefix, r, topics, byTopic, g);
    assert BucketsMatch(prefix + [r], topics, keys', byTopic');
  }

  /** Every bucket still holds its topic's rules once `r` is appended to its own topic's bucket. */
  lemma AddStepBuckets(prefix: seq<ConventionRule>, r: ConventionRule, topics: seq<TopicConventionOptionWithType>,
                       byTopic: map<string, Bucket>, g: Bucket)
    requires forall k :: k in byTopic ==>
               && TopicById(topics, k).Some?
               && byTopic[k] == Bucket(TopicById(topics, k).value.title, TopicById(topics, k).value.sortOrder,
                                       Filter(prefix, OfTopicId(k)))
    requires TopicById(topics, r.topicId).Some?
    requires g == Bucket(TopicById(topics, r.topicId).value.title, TopicById(topics, r.topicId).value.sortOrder,
                         Filter(prefix, OfTopicId(r.topicId)))
    ensures var byTopic' := byTopic[r.topicId := g.(rules := g.rules + [r])];
            forall k :: k in byTopic' ==>
              && TopicById(topics, k).Some?
              && byTopic'[k] == Bucket(TopicById(topics, k).value.title, TopicById(topics, k).value.sortOrder,
                                       Filter(prefix + [r], OfTopicId(k)))
  {
    var byTopic' := byTopic[r.topicId := g.(rules := g.rules + [r])];
    forall k | k in byTopic'
      ensures TopicById(topics, k).Some?
      ensures byTopic'[k] == Bucket(TopicById(topics, k).value.title, TopicById(topics, k).value.sortOrder,
                                    Filter(prefix + [r], OfTopicId(k)))
    {
      FilterAfterRule(prefix, r, k);
    }
  }

  /** Appending `r` adds it to its own topic's rules and leaves every other topic's rules alone. */
  lemma FilterAfterRule(prefix: seq<ConventionRule>, r: ConventionRule, k: string)
    ensures Filter(prefix + [r], OfTopicId(k)) ==
              if r.topicId == k then Filter(prefix, OfTopicId(k)) + [r] else Filter(prefix, OfTopicId(k))
  {
    FilterSnoc(prefix, r, OfTopicId(k));
    assert OfTopicId(k)(r) == (r.topicId == k);
    assert Filter(prefix, OfTopicId(k)) + [] == Filter(prefix, OfTopicId(k));
  }

  /** `Array.from(topicMap.values())` with each bucket's rules sorted by `sort_order`. */
  function GroupsFromBuckets(keys: seq<string>, byTopic: map<string, Bucket>): (r: seq<GroupedRule>)
    requires forall k :: k in keys ==> k in byTopic
    ensures |r| == |keys|
  {
    seq(|keys|, j requires 0 <= j < |keys| =>
          GroupedRule(keys[j], byTopic[keys[j]].title, byTopic[keys[j]].sortOrder,
                      SortBy(byTopic[keys[j]].rules, Ascending(RuleSortOrder))))
  }

  /** Once every rule is placed, the buckets give exactly the groups of the keys. */
  lemma BucketsGroups(rules: seq<ConventionRule>, topics: seq<TopicConventionOptionWithType>,
                      keys: seq<string>, byTopic: map<string, Bucket>)
    requires BucketsMatch(rules, topics, keys, byTopic)
    ensures forall k :: k in keys ==> k in byTopic
    ensures GroupsFromBuckets(keys, byTopic) == GroupsOf(rules, topics, keys)
  {
    var r := GroupsFromBuckets(keys, byTopic);
    forall j | 0 <= j < |keys|
      ensures r[j] == MakeGroup(rules, topics, keys[j])
    {
      assert keys[j] in byTopic;
    }
  }

  /** The body of `load` once both reads have succeeded. */
  method GroupRules(rules: seq<ConventionRule>, topics: seq<TopicConventionOptionWithType>)
    returns (groups: seq<GroupedRule>)
    ensures groups == Groups(rules, topics)
  {
    // `keys` is the insertion order of `byTopic`, which a Dafny map does not keep.
    var keys: seq<string> := [];
    var byTopic: map<string, Bucket> := map[];
    for i := 0 to |rules|
      invariant keys == GroupKeys(rules[..i], topics)
      invariant BucketsMatch(rules[..i], topics, keys, byTopic)
    {
      var r := rules[i];
      assert rules[..i + 1] == rules[..i] + [r];
      var topic := TopicById(topics, r.topicId);
      if topic.None? {
        SkipStep(rules[..i], r, topics, keys, byTopic);
      } else {
        AddStep(rules[..i], r, topics, keys, byTopic);
        var g: Bucket;
        if r.topicId in byTopic {
          g := byTopic[r.topicId];
        } else {
          g := Bucket(topic.value.title, topic.value.sortOrder, []);
          keys := keys + [r.topicId];
        }
        byTopic := byTopic[r.topicId := g.(rules := g.rules + [r])];
      }
    }
    assert rules[..|rules|] == rules;
    BucketsGroups(rules, topics, keys, byTopic);
    var unsorted := GroupsFromBuckets(keys, byTopic);
    groups := SortBy(unsorted, Ascending(GroupSortOrder));
  }

  // ---------------------------------------------------------------- properties of the groups

  lemma GroupKeysSpec(rules: seq<ConventionRule>, topics: seq<TopicConventionOptionWithType>, id: string)
    ensures id in GroupKeys(rules, topics) <==>
            TopicById(topics, id).Some? && exists i :: 0 <= i < |rules| && rules[i].topicId == id
  {
    var f := Filter(rules, HasTopic(topics));
    var ids := Map(f, RuleTopicId);
    if id in GroupKeys(rules, topics) {
      var k :| 0 <= k < |ids| && ids[k] == id;
      assert HasTopic(topics)(f[k]) && f[k] in rules;
    }
    if TopicById(topics, id).Some? && exists i :: 0 <= i < |rules| && rules[i].topicId == id {
      var i :| 0 <= i < |rules| && rules[i].topicId == id;
      assert HasTopic(topics)(rules[i]);
      var k :| 0 <= k < |f| && f[k] == rules[i];
      assert ids[k] == id;
    }
  }

  /**
   * Every group belongs to an existing topic and takes its title and `sort_order` from it,
   * and holds exactly that topic's rules (a permutation of them), at least one of them.
   */
  lemma GroupsFromTopics(rules: seq<ConventionRule>, topics: seq<TopicConventionOptionWithType>, g: GroupedRule)
    requires g in Groups(rules, topics)
    ensures TopicById(topics, g.topicId).Some?
    ensures g.title == TopicById(topics, g.topicId).value.title
    ensures g.sortOrder == TopicById(topics, g.topicId).value.sortOrder
    ensures multiset(g.rules) == multiset(Filter(rules, OfTopicId(g.topicId)))
    ensures g.rules != []
  {
    var keys := GroupKeys(rules, topics);
    var unsorted := GroupsOf(rules, topics, keys);
    SortedMembers(unsorted, Ascending(GroupSortOrder), g);
    var j :| 0 <= j < |unsorted| && unsorted[j] == g;
    GroupKeysSpec(rules, topics, keys[j]);
    var i :| 0 <= i < |rules| && rules[i].topicId == keys[j];
    assert OfTopicId(keys[j])(rules[i]);
    assert rules[i] in Filter(rules, OfTopicId(keys[j]));
  }

  /** A rule shows up in some group exactly when its topic exists, and then in its topic's group. */
  lemma GroupsComplete(rules: seq<ConventionRule>, topics: seq<TopicConventionOptionWithType>, r: ConventionRule)
    requires r in rules
    ensures TopicById(topics, r.topicId).Some? <==>
            exists g :: g in Groups(rules, topics) && g.topicId == r.topicId && r in g.rules
  {
    var keys := GroupKeys(rules, topics);
    var unsorted := GroupsOf(rules, topics, keys);
    var i :| 0 <= i < |rules| && rules[i] == r;
    if TopicById(topics, r.topicId).Some? {
      GroupKeysSpec(rules, topics, r.topicId);
      var j :| 0 <= j < |keys| && keys[j] == r.topicId;
      var g := unsorted[j];
      SortedContains(unsorted, Ascending(GroupSortOrder), g);
      assert OfTopicId(r.topicId)(rules[i]);
      assert r in multiset(Filter(rules, OfTopicId(r.topicId)));
      assert r in g.rules;
    }
    if exists g :: g in Groups(rules, topics) && g.topicId == r.topicId && r in g.rules {
      var g :| g in Groups(rules, topics) && g.topicId == r.topicId && r in g.rules;
      GroupsFromTopics(rules, topics, g);
    }
  }

  /** Before sorting, no group is repeated: each key is used once. */
  lemma GroupsOfNoRepeat(rules: seq<ConventionRule>, topics: seq<TopicConventionOptionWithType>)
    ensures var unsorted := GroupsOf(rules, topics, GroupKeys(rules, topics));
            forall i, j :: 0 <= i < j < |unsorted| ==> unsorted[i] != unsorted[j]
  {
    var keys := GroupKeys(rules, topics);
    var unsorted := GroupsOf(rules, topics, keys);
    forall i, j | 0 <= i < j < |unsorted|
      ensures unsorted[i] != unsorted[j]
    {
      assert keys[i] != keys[j];
      assert unsorted[i].topicId == keys[i] && unsorted[j].topicId == keys[j];
    }
  }

  /** Two groups of the same topic are the same group. */
  lemma SameTopicSameGroup(rules: seq<ConventionRule>, topics: seq<TopicConventionOptionWithType>,
                           g1: GroupedRule, g2: GroupedRule)
    requires g1 in Groups(rules, topics) && g2 in Groups(rules, topics)
    requires g1.topicId == g2.topicId
    ensures g1 == g2
  {
    var keys := GroupKeys(rules, topics);
    var unsorted := GroupsOf(rules, topics, keys);
    SortedMembers(unsorted, Ascending(GroupSortOrder), g1);
    SortedMembers(unsorted, Ascending(GroupSortOrder), g2);
    var a :| 0 <= a < |unsorted| && unsorted[a] == g1;
    var b :| 0 <= b < |unsorted| && unsorted[b] == g2;
    assert g1 == MakeGroup(rules, topics, keys[a]) && g2 == MakeGroup(rules, topics, keys[b]);
  }

  /** No topic has two groups. */
  lemma GroupsDistinct(rules: seq<ConventionRule>, topics: seq<TopicConventionOptionWithType>)
    ensures var gs := Groups(rules, topics);
            forall i, j :: 0 <= i < j < |gs| ==> gs[i].topicId != gs[j].topicId
  {
    var gs := Groups(rules, topics);
    GroupsOfNoRepeat(rules, topics);
    NoRepeatPermutation(GroupsOf(rules, topics, GroupKeys(rules, topics)), gs);
    forall i, j | 0 <= i < j < |gs|
      ensures gs[i].topicId != gs[j].topicId
    {
      if gs[i].topicId == gs[j].topicId {
        SameTopicSameGroup(rules, topics, gs[i], gs[j]);
        assert false;
      }
    }
  }

  /** Groups ascend by their topic's `sort_order`, and so do the rules inside each group. */
  lemma GroupsOrdered(rules: seq<ConventionRule>, topics: seq<TopicConventionOptionWithType>)
    ensures var gs := Groups(rules, topics);
            && (forall i, j :: 0 <= i < j < |gs| ==> gs[i].sortOrder <= gs[j].sortOrder)
            && (forall g, i, j :: g in gs && 0 <= i < j < |g.rules| ==> g.rules[i].sortOrder <= g.rules[j].sortOrder)
  {
    var keys := GroupKeys(rules, topics);
    var unsorted := GroupsOf(rules, topics, keys);
    var gs := Groups(rules, topics);
    AscendingTotal(GroupSortOrder);
    SortBySorted(unsorted, Ascending(GroupSortOrder));
    forall i, j | 0 <= i < j < |gs|
      ensures gs[i].sortOrder <= gs[j].sortOrder
    {
      assert Ascending(GroupSortOrder)(gs[i], gs[j]);
      assert GroupSortOrder(gs[i]) == gs[i].sortOrder && GroupSortOrder(gs[j]) == gs[j].sortOrder;
    }
    AscendingTotal(RuleSortOrder);
    forall g, i, j | g in gs && 0 <= i < j < |g.rules|
      ensures g.rules[i].sortOrder <= g.rules[j].sortOrder
    {
      SortedMembers(unsorted, Ascending(GroupSortOrder), g);
      var k :| 0 <= k < |unsorted| && unsorted[k] == g;
      GroupKeysSpec(rules, topics, keys[k]);
      var f := Filter(rules, OfTopicId(keys[k]));
      SortBySorted(f, Ascending(RuleSortOrder));
      assert g.rules == SortBy(f, Ascending(RuleSortOrder));
      assert Ascending(RuleSortOrder)(g.rules[i], g.rules[j]);
      assert RuleSortOrder(g.rules[i]) == g.rules[i].sortOrder && RuleSortOrder(g.rules[j]) == g.rules[j].sortOrder;
    }
  }

  // ---------------------------------------------------------------- how many rules are shown

  function RuleCount(g: GroupedRule): int { |g.rules| }

  function InKeys(keys: seq<string>): ConventionRule -> bool {
    (r: ConventionRule) => r.topicId in keys
  }

  /** How many rules the topics `keys` have, topic by topic. */
  function CountPerKey(keys: seq<string>, rules: seq<ConventionRule>): int {
    if keys == [] then 0 else |Filter(rules, OfTopicId(keys[0]))| + CountPerKey(keys[1..], rules)
  }

  /** A rule is of one of `keys` exactly when it is of the first or of one of the rest, never both. */
  lemma InKeysCons(keys: seq<string>, r: ConventionRule)
    requires keys != [] && keys[0] !in keys[1..]
    ensures InKeys(keys)(r) == (OfTopicId(keys[0])(r) || InKeys(keys[1..])(r))
    ensures !(OfTopicId(keys[0])(r) && InKeys(keys[1..])(r))
  {
    assert keys == [keys[0]] + keys[1..];
  }

  /** Counting topic by topic over distinct topics counts each rule of those topics once. */
  lemma {:induction false} CountPerKeyPartition(keys: seq<string>, rules: seq<ConventionRule>)
    requires forall i, j :: 0 <= i < j < |keys| ==> keys[i] != keys[j]
    ensures CountPerKey(keys, rules) == |Filter(rules, InKeys(keys))|
    decreases |keys|
  {
    if keys == [] {
      forall i | 0 <= i < |rules|
        ensures !InKeys(keys)(rules[i])
      {
      }
      FilterNone(rules, InKeys(keys));
    } else {
      var rest := keys[1..];
      assert forall i :: 1 <= i < |keys| ==> rest[i - 1] == keys[i];
      CountPerKeyPartition(rest, rules);
      assert keys == [keys[0]] + rest;
      assert keys[0] !in rest;
      forall i | 0 <= i < |rules|
        ensures InKeys(keys)(rules[i]) == (OfTopicId(keys[0])(rules[i]) || InKeys(rest)(rules[i]))
        ensures !(OfTopicId(keys[0])(rules[i]) && InKeys(rest)(rules[i]))
      {
        InKeysCons(keys, rules[i]);
      }
      FilterDisjointUnion(rules, OfTopicId(keys[0]), InKeys(rest), InKeys(keys));
    }
  }

  /** Before sorting, the groups of `keys` hold as many rules as those topics have. */
  lemma {:induction false} GroupsOfCount(rules: seq<ConventionRule>, topics: seq<TopicConventionOptionWithType>,
                                         keys: seq<string>)
    requires forall i :: 0 <= i < |keys| ==> TopicById(topics, keys[i]).Some?
    ensures SumOf(GroupsOf(rules, topics, keys), RuleCount) == CountPerKey(keys, rules)
    decreases |keys|
  {
    if keys != [] {
      var gs := GroupsOf(rules, topics, keys);
      var rest := keys[1..];
      assert forall i :: 1 <= i < |keys| ==> rest[i - 1] == keys[i];
      GroupsOfCount(rules, topics, rest);
      assert gs[1..] == GroupsOf(rules, topics, rest);
      assert RuleCount(gs[0]) == |Filter(rules, OfTopicId(keys[0]))|;
    }
  }

  /**
   * The groups together hold exactly as many rules as there are rules of existing topics:
   * no rule is lost or shown twice.
   */
  lemma GroupsCount(rules: seq<ConventionRule>, topics: seq<TopicConventionOptionWithType>)
    ensures SumOf(Groups(rules, topics), RuleCount) == |Filter(rules, HasTopic(topics))|
  {
    var keys := GroupKeys(rules, topics);
    var unsorted := GroupsOf(rules, topics, keys);
    forall i | 0 <= i < |keys|
      ensures TopicById(topics, keys[i]).Some?
    {
      GroupKeysSpec(rules, topics, keys[i]);
    }
    SumOfPermutation(unsorted, Groups(rules, topics), RuleCount);
    GroupsOfCount(rules, topics, keys);
    CountPerKeyPartition(keys, rules);
    forall i | 0 <= i < |rules|
      ensures InKeys(keys)(rules[i]) == HasTopic(topics)(rules[i])
    {
      GroupKeysSpec(rules, topics, rules[i].topicId);
    }
    FilterCongruent(rules, InKeys(keys), HasTopic(topics));
  }

  // ---------------------------------------------------------------- the panel

  /** The panel's state: the groups shown and whether a load is running. */
  class Panel {
    var groups: seq<GroupedRule>
    var loading: bool

    constructor ()
      ensures groups == [] && loading
    {
      groups := [];
      loading := true;
    }

    /**
     * `load`: read the rules and the topics, then show their groups. A failed read leaves
     * the groups shown as they were; either way the panel stops loading.
     */
    method Load(t: Tables, rulesFault: Option<Thrown>, topicsFault: Option<Thrown>) returns (r: Result<()>)
      modifies this
      ensures !loading
      ensures r.Err? <==> rulesFault.Some? || topicsFault.Some?
      ensures r.Err? ==> groups == old(groups)
      ensures r.Ok? ==> groups == Groups(GetConventionRules(t, None).value, GetTopicConventionOptions(t, None).value)
    {
      loading := true;
      var rules := GetConventionRules(t, rulesFault);
      var topics := GetTopicConventionOptions(t, topicsFault);
      if rules.Err? {
        loading := false;
        return Err(rules.thrown);
      }
      if topics.Err? {
        loading := false;
        return Err(topics.thrown);
      }
      groups := GroupRules(rules.value, topics.value);
      loading := false;
      r := Ok(());
    }
  }
}
