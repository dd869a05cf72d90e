/**
 * The topics page: the search filter and the forest of topics shown as a
 * tree. Topic nodes are identified by their id: the forest is the map from id
 * to node, the ids of the root nodes in order, and for every node the ids of
 * its children in order.
 */
module Topics {
  import opened Common
  import opened Types

  // ---------------------------------------------------------------------------
  // Specification of the forest

  function IdSet(s: seq<Topic>): set<int> {
    set i | 0 <= i < |s| :: s[i].id
  }

  /** The topic names a parent that is in the list, so it hangs below that parent. */
  predicate HasParentIn(t: Topic, ids: set<int>) {
    Truthy(t.parentTopicId) && t.parentTopicId.value in ids
  }

  /** The node map: each id to a copy of the last topic with that id. */
  function NodeMap(s: seq<Topic>): map<int, Topic>
    decreases |s|
  {
    if s == [] then map[] else NodeMap(s[..|s| - 1])[s[|s| - 1].id := s[|s| - 1]]
  }

  /** Ids of the topics that become roots, in list order. */
  function RootIds(s: seq<Topic>, ids: set<int>): seq<int>
    decreases |s|
  {
    if s == [] then []
    else
      var t := s[|s| - 1];
      RootIds(s[..|s| - 1], ids) + (if HasParentIn(t, ids) then [] else [t.id])
  }

  /** Ids of the topics that become children of parent p, in list order. */
  function ChildIds(s: seq<Topic>, ids: set<int>, p: int): seq<int>
    decreases |s|
  {
    if s == [] then []
    else
      var t := s[|s| - 1];
      ChildIds(s[..|s| - 1], ids, p) + (if HasParentIn(t, ids) && t.parentTopicId.value == p then [t.id] else [])
  }

  lemma IdSetPrefix(s: seq<Topic>, i: nat)
    requires i < |s|
    ensures IdSet(s[..i + 1]) == IdSet(s[..i]) + {s[i].id}
  {
    var a := s[..i + 1];
    forall x | x in IdSet(a)
      ensures x in IdSet(s[..i]) + {s[i].id}
    {
      var k :| 0 <= k < |a| && a[k].id == x;
      if k < i {
        assert s[..i][k] == a[k];
      }
    }
    forall x | x in IdSet(s[..i])
      ensures x in IdSet(a)
    {
      var k :| 0 <= k < i && s[..i][k].id == x;
      assert a[k] == s[..i][k];
    }
    assert a[i] == s[i];
  }

  /** One more topic: its node replaces any earlier one with its id, and it is placed after the earlier ones. */
  lemma PrefixStep(s: seq<Topic>, ids: set<int>, i: nat)
    requires i < |s|
    ensures NodeMap(s[..i + 1]) == NodeMap(s[..i])[s[i].id := s[i]]
    ensures RootIds(s[..i + 1], ids) == RootIds(s[..i], ids) + (if HasParentIn(s[i], ids) then [] else [s[i].id])
    ensures forall p :: (ChildIds(s[..i + 1], ids, p) ==
      ChildIds(s[..i], ids, p) + (if HasParentIn(s[i], ids) && s[i].parentTopicId.value == p then [s[i].id] else []))
  {
    var a := s[..i + 1];
    assert a[..i] == s[..i] && a[|a| - 1] == s[i];
  }

  // ---------------------------------------------------------------------------
  // buildTopicHierarchy

  /**
   * Builds the forest in two passes over the list: the first makes a node for
   * every topic, with no children; the second appends each topic's node to
   * its parent's children when the topic names a parent in the list, and to
   * the roots otherwise.
   */
  method BuildTopicHierarchy(topics: seq<Topic>)
    returns (nodes: map<int, Topic>, roots: seq<int>, children: map<int, seq<int>>)
    ensures nodes == NodeMap(topics) && nodes.Keys == IdSet(topics)
    ensures roots == RootIds(topics, IdSet(topics))
    ensures children.Keys == IdSet(topics)
    ensures forall p :: p in children ==> children[p] == ChildIds(topics, IdSet(topics), p)
  {
    nodes := map[];
    children := map[];
    var i := 0;
    while i < |topics|
      invariant 0 <= i <= |topics|
      invariant nodes == NodeMap(topics[..i]) && nodes.Keys == IdSet(topics[..i])
      invariant children.Keys == IdSet(topics[..i])
      invariant forall p :: p in children ==> children[p] == []
    {
      var topic := topics[i];
      PrefixStep(topics, {}, i);
      IdSetPrefix(topics, i);
      nodes := nodes[topic.id := topic];
      children := children[topic.id := []];
      i := i + 1;
    }
    assert topics[..|topics|] == topics;
    var ids := nodes.Keys;
    roots := [];
    i := 0;
    while i < |topics|
      invariant 0 <= i <= |topics|
      invariant children.Keys == ids
      invariant roots == RootIds(topics[..i], ids)
      invariant forall p :: p in children ==> children[p] == ChildIds(topics[..i], ids, p)
    {
      var topic := topics[i];
      PrefixStep(topics, ids, i);
      if topic.parentTopicId.Some? && topic.parentTopicId.value != 0 && topic.parentTopicId.value in nodes {
        var p := topic.parentTopicId.value;
        children := children[p := children[p] + [topic.id]];
      } else {
        roots := roots + [topic.id];
      }
      i := i + 1;
    }
    assert topics[..|topics|] == topics;
  }

  // ---------------------------------------------------------------------------
  // Where each topic lands

  /** An id is a root id exactly when some topic with that id names no parent in the list. */
  lemma {:induction false} RootIdsMembership(s: seq<Topic>, ids: set<int>, x: int)
    ensures x in RootIds(s, ids) <==> exists k :: 0 <= k < |s| && s[k].id == x && !HasParentIn(s[k], ids)
    decreases |s|
  {
    if s != [] {
      var n := |s| - 1;
      RootIdsMembership(s[..n], ids, x);
      assert forall k :: 0 <= k < n ==> s[..n][k] == s[k];
      if x in RootIds(s[..n], ids) {
        var k :| 0 <= k < n && s[..n][k].id == x && !HasParentIn(s[..n][k], ids);
        assert s[k].id == x && !HasParentIn(s[k], ids);
      }
    }
  }

  /** An id is among p's children exactly when some topic with that id names p, which is in the list. */
  lemma {:induction false} ChildIdsMembership(s: seq<Topic>, ids: set<int>, p: int, x: int)
    ensures x in ChildIds(s, ids, p) <==>
      exists k :: 0 <= k < |s| && s[k].id == x && HasParentIn(s[k], ids) && s[k].parentTopicId.value == p
    decreases |s|
  {
    if s != [] {
      var n := |s| - 1;
      ChildIdsMembership(s[..n], ids, p, x);
      assert forall k :: 0 <= k < n ==> s[..n][k] == s[k];
      if x in ChildIds(s[..n], ids, p) {
        var k :| 0 <= k < n && s[..n][k].id == x && HasParentIn(s[..n][k], ids) && s[..n][k].parentTopicId.value == p;
        assert s[k].id == x && HasParentIn(s[k], ids) && s[k].parentTopicId.value == p;
      }
    }
  }

  predicate DistinctIds(s: seq<Topic>) {
    forall i, j :: 0 <= i < j < |s| ==> s[i].id != s[j].id
  }

  predicate NoDuplicates(xs: seq<int>) {
    forall i, j :: 0 <= i < j < |xs| ==> xs[i] != xs[j]
  }

  lemma {:induction false} RootIdsNoDuplicates(s: seq<Topic>, ids: set<int>)
    requires DistinctIds(s)
    ensures NoDuplicates(RootIds(s, ids))
    decreases |s|
  {
    if s != [] {
      var n := |s| - 1;
      RootIdsNoDuplicates(s[..n], ids);
      RootIdsMembership(s[..n], ids, s[n].id);
    }
  }

  lemma {:induction false} ChildIdsNoDuplicates(s: seq<Topic>, ids: set<int>, p: int)
    requires DistinctIds(s)
    ensures NoDuplicates(ChildIds(s, ids, p))
    decreases |s|
  {
    if s != [] {
      var n := |s| - 1;
      ChildIdsNoDuplicates(s[..n], ids, p);
      ChildIdsMembership(s[..n], ids, p, s[n].id);
    }
  }

  /**
   * With distinct ids every topic appears exactly once in the forest: as a
   * root when it names no parent in the list, and otherwise among the children
   * of the parent it names and of no other node. No list repeats an id.
   */
  lemma EveryTopicPlacedOnce(s: seq<Topic>, k: int)
    requires DistinctIds(s) && 0 <= k < |s|
    ensures var ids := IdSet(s); var t := s[k];
      (t.id in RootIds(s, ids) <==> !HasParentIn(t, ids))
      && (forall p :: t.id in ChildIds(s, ids, p) <==> HasParentIn(t, ids) && t.parentTopicId.value == p)
      && NoDuplicates(RootIds(s, ids))
      && (forall p :: NoDuplicates(ChildIds(s, ids, p)))
  {
    var ids := IdSet(s);
    var t := s[k];
    RootIdsMembership(s, ids, t.id);
    forall p
      ensures t.id in ChildIds(s, ids, p) <==> HasParentIn(t, ids) && t.parentTopicId.value == p
    {
      ChildIdsMembership(s, ids, p, t.id);
    }
    RootIdsNoDuplicates(s, ids);
    forall p
      ensures NoDuplicates(ChildIds(s, ids, p))
    {
      ChildIdsNoDuplicates(s, ids, p);
    }
  }

  /** idx lists increasing positions of s whose topics have the ids in r, in order. */
  predicate OrderedPositions(idx: seq<int>, s: seq<Topic>, r: seq<int>) {
    |idx| == |r|
    && (forall a, b :: 0 <= a < b < |idx| ==> idx[a] < idx[b])
    && (forall a :: 0 <= a < |idx| ==> 0 <= idx[a] < |s| && s[idx[a]].id == r[a])
  }

  lemma ExtendPositions(idx: seq<int>, s: seq<Topic>, r: seq<int>)
    requires |s| > 0 && OrderedPositions(idx, s[..|s| - 1], r)
    ensures OrderedPositions(idx, s, r)
    ensures OrderedPositions(idx + [|s| - 1], s, r + [s[|s| - 1].id])
  {
    var n := |s| - 1;
    assert forall a :: 0 <= a < |idx| ==> s[..n][idx[a]] == s[idx[a]];
  }

  /** The roots keep list order: root ids come from increasing positions of the list. */
  lemma {:induction false} RootIdsInOrder(s: seq<Topic>, ids: set<int>)
    ensures exists idx :: OrderedPositions(idx, s, RootIds(s, ids))
    decreases |s|
  {
    if s == [] {
      assert OrderedPositions([], s, RootIds(s, ids));
    } else {
      var n := |s| - 1;
      RootIdsInOrder(s[..n], ids);
      var r0 := RootIds(s[..n], ids);
      var idx :| OrderedPositions(idx, s[..n], r0);
      ExtendPositions(idx, s, r0);
      if HasParentIn(s[n], ids) {
        assert RootIds(s, ids) == r0 + [];
        assert r0 + [] == r0;
        assert OrderedPositions(idx, s, RootIds(s, ids));
      } else {
        assert OrderedPositions(idx + [n], s, RootIds(s, ids));
      }
    }
  }

  // ---------------------------------------------------------------------------
  // filterTopics

  predicate TopicMatches(t: Topic, lowerQuery: Text) {
    Includes(Lower(t.title), lowerQuery) || Includes(Lower(t.description), lowerQuery)
  }

  /**
   * The topics whose title or description contains the query, ignoring case;
   * an empty query keeps the list as it is.
   */
  function FilterTopics(topics: seq<Topic>, query: Text): (r: seq<Topic>)
    ensures query == [] ==> r == topics
    ensures query != [] ==> forall t :: t in r <==> t in topics && TopicMatches(t, Lower(query))
    ensures query != [] ==> forall t :: multiset(r)[t] == if TopicMatches(t, Lower(query)) then multiset(topics)[t] else 0
    ensures IsSubsequence(r, topics)
  {
    if query == [] then
      assert IsSubsequence(topics, topics) by { SubsequenceRefl(topics); }
      topics
    else
      var lq := Lower(query);
      FilterIsSubsequence(topics, t => TopicMatches(t, lq));
      FilterCounts(topics, t => TopicMatches(t, lq));
      Filter(topics, t => TopicMatches(t, lq))
  }

  /** The page builds the forest of the filtered topics. */
  method HierarchicalTopics(topics: seq<Topic>, query: Text)
    returns (nodes: map<int, Topic>, roots: seq<int>, children: map<int, seq<int>>)
    ensures var shown := FilterTopics(topics, query);
      nodes == NodeMap(shown) && roots == RootIds(shown, IdSet(shown)) && children.Keys == IdSet(shown)
      && forall p :: p in children ==> children[p] == ChildIds(shown, IdSet(shown), p)
  {
    var shown := FilterTopics(topics, query);
    nodes, roots, children := BuildTopicHierarchy(shown);
  }

  /**
   * Filtering comes before building: a matching subtopic whose parent does
   * not match is shown as a root.
   */
  lemma MatchingChildOfHiddenParentIsRoot(topics: seq<Topic>, query: Text, k: int)
    requires query != [] && 0 <= k < |topics|
    requires TopicMatches(topics[k], Lower(query))
    requires Truthy(topics[k].parentTopicId)
    requires forall t :: t in topics && t.id == topics[k].parentTopicId.value ==> !TopicMatches(t, Lower(query))
    ensures var shown := FilterTopics(topics, query); topics[k].id in RootIds(shown, IdSet(shown))
  {
    var shown := FilterTopics(topics, query);
    var t := topics[k];
    assert t in shown;
    var j :| 0 <= j < |shown| && shown[j] == t;
    assert !HasParentIn(t, IdSet(shown)) by {
      if t.parentTopicId.value in IdSet(shown) {
        var i :| 0 <= i < |shown| && shown[i].id == t.parentTopicId.value;
        assert shown[i] in shown;
      }
    }
    RootIdsMembership(shown, IdSet(shown), t.id);
  }
}
