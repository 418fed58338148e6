/** The bounded walk over the objects that hold a target object. */
module Referrers {
  import opened Wrappers

  const MAX_REF_NODES: nat := 500
  const MAX_REFS_PER_NODE: nat := 50

  /** What the debugger answers when asked who refers to an object; None when it fails. */
  type Heap = nat -> Option<seq<nat>>

  predicate Refers(heap: Heap, holder: nat, held: nat) {
    heap(held).Some? && holder in heap(held).value
  }

  /** x reaches the target over at most k reported references. */
  ghost predicate Within(heap: Heap, target: nat, x: nat, k: nat)
    decreases k
  {
    if k == 0 then x == target
    else Within(heap, target, x, k - 1) || exists y :: Within(heap, target, y, k - 1) && Refers(heap, x, y)
  }

  lemma {:induction false} WithinMore(heap: Heap, target: nat, x: nat, j: nat, k: nat)
    requires Within(heap, target, x, j) && j <= k
    ensures Within(heap, target, x, k)
    decreases k
  {
    if j < k {
      WithinMore(heap, target, x, j, k - 1);
    }
  }

  /** The fewest references from x to the target. */
  ghost predicate Distance(heap: Heap, target: nat, x: nat, d: nat) {
    Within(heap, target, x, d) && (d > 0 ==> !Within(heap, target, x, d - 1))
  }

  // ---- the state of the walk ----

  /** Found objects hang off the target by real references, one level at a time. */
  ghost predicate Tree(heap: Heap, target: nat, depth: nat, parent: map<nat, nat>, level: map<nat, nat>) {
    && target in level && level[target] == 0 && parent.Keys == level.Keys - {target}
    && (forall x | x in parent :: HangsFrom(heap, depth, parent, level, x))
  }

  predicate HangsFrom(heap: Heap, depth: nat, parent: map<nat, nat>, level: map<nat, nat>, x: nat) {
    && x in parent && x in level && parent[x] in level
    && Refers(heap, x, parent[x]) && level[x] == level[parent[x]] + 1 <= depth
  }

  /** The queue holds found objects in order of level, each once, spanning at most two levels,
      and nothing behind it is deeper than its head. */
  ghost predicate Frontier(queue: seq<nat>, level: map<nat, nat>) {
    && (forall i | 0 <= i < |queue| :: queue[i] in level)
    && (forall i, j | 0 <= i < j < |queue| :: queue[i] != queue[j])
    && (forall i, j | 0 <= i < j < |queue| :: level[queue[i]] <= level[queue[j]] <= level[queue[0]] + 1)
    && (queue != [] ==> forall x | x in level && x !in queue :: level[x] <= level[queue[0]])
  }

  /** Every reference to a processed object has been followed. */
  ghost predicate Followed(heap: Heap, depth: nat, queue: seq<nat>, level: map<nat, nat>) {
    forall x, y | x in level && x !in queue && level[x] < depth && Refers(heap, y, x) ::
      y in level && level[y] <= level[x] + 1
  }

  ghost predicate Shortest(heap: Heap, target: nat, level: map<nat, nat>) {
    forall x | x in level :: Distance(heap, target, x, level[x])
  }

  /** Whatever lies no farther than the head of the queue, or within the depth once the queue
      is empty, has been found at its distance. */
  lemma {:induction false} FoundSoFar(heap: Heap, target: nat, depth: nat, queue: seq<nat>, parent: map<nat, nat>,
    level: map<nat, nat>, x: nat, k: nat)
    requires Tree(heap, target, depth, parent, level) && Frontier(queue, level) && Followed(heap, depth, queue, level)
    requires Within(heap, target, x, k) && k <= (if queue == [] then depth else level[queue[0]]) && k <= depth
    ensures x in level && level[x] <= k
    decreases k
  {
    if k > 0 {
      if Within(heap, target, x, k - 1) {
        FoundSoFar(heap, target, depth, queue, parent, level, x, k - 1);
      } else {
        var y :| Within(heap, target, y, k - 1) && Refers(heap, x, y);
        FoundSoFar(heap, target, depth, queue, parent, level, y, k - 1);
        assert y !in queue;
      }
    }
  }

  /** While one object's referrers are being added: it is off the queue, everything no farther
      than it is known, and everything else off the queue has been followed. */
  ghost predicate Expanding(heap: Heap, target: nat, depth: nat, cur: nat, queue: seq<nat>, level: map<nat, nat>) {
    && cur in level && cur !in queue
    && (forall i | 0 <= i < |queue| :: queue[i] in level && level[cur] <= level[queue[i]] <= level[cur] + 1)
    && (forall i, j | 0 <= i < j < |queue| :: queue[i] != queue[j] && level[queue[i]] <= level[queue[j]])
    && (forall x | x in level && x !in queue :: level[x] <= level[cur])
    && (forall x, y | x in level && x !in queue && x != cur && level[x] < depth && Refers(heap, y, x) ::
          y in level && level[y] <= level[x] + 1)
    && (forall x | Within(heap, target, x, level[cur]) :: x in level)
  }

  lemma TargetAlone(heap: Heap, target: nat, depth: nat)
    ensures Tree(heap, target, depth, map[], map[target := 0]) && Shortest(heap, target, map[target := 0])
    ensures Frontier([target], map[target := 0]) && Followed(heap, depth, [target], map[target := 0])
  {
    assert target in [target];
  }

  lemma PollHead(heap: Heap, target: nat, depth: nat, queue: seq<nat>, parent: map<nat, nat>, level: map<nat, nat>)
    requires Tree(heap, target, depth, parent, level) && Frontier(queue, level) && Followed(heap, depth, queue, level)
    requires queue != []
    ensures Expanding(heap, target, depth, queue[0], queue[1..], level)
  {
    hide Within, Refers;
    var cur, rest := queue[0], queue[1..];
    assert forall x :: x in queue <==> x == cur || x in rest;
    assert cur in parent ==> HangsFrom(heap, depth, parent, level, cur);
    forall x | Within(heap, target, x, level[cur])
      ensures x in level
    {
      FoundSoFar(heap, target, depth, queue, parent, level, x, level[cur]);
    }
  }

  /** Adding a new holder of the current object. */
  lemma AddHolder(heap: Heap, target: nat, depth: nat, cur: nat, queue: seq<nat>, parent: map<nat, nat>,
    level: map<nat, nat>, id: nat)
    requires Tree(heap, target, depth, parent, level) && Shortest(heap, target, level)
    requires Expanding(heap, target, depth, cur, queue, level)
    requires id !in level && Refers(heap, id, cur) && level[cur] < depth
    ensures var level' := level[id := level[cur] + 1];
            && Tree(heap, target, depth, parent[id := cur], level') && Shortest(heap, target, level')
            && Expanding(heap, target, depth, cur, queue + [id], level')
  {
    hide Refers;
    HolderShortest(heap, target, level, cur, id);
    HolderExpanding(heap, target, depth, cur, queue, level, id);
    HolderTree(heap, target, depth, cur, parent, level, id);
  }

  lemma HolderTree(heap: Heap, target: nat, depth: nat, cur: nat, parent: map<nat, nat>, level: map<nat, nat>, id: nat)
    requires Tree(heap, target, depth, parent, level) && cur in level
    requires id !in level && Refers(heap, id, cur) && level[cur] < depth
    ensures Tree(heap, target, depth, parent[id := cur], level[id := level[cur] + 1])
  {
    hide Refers;
    forall x | x in parent
      ensures HangsFrom(heap, depth, parent[id := cur], level[id := level[cur] + 1], x)
    {
      assert HangsFrom(heap, depth, parent, level, x);
    }
  }

  lemma HolderShortest(heap: Heap, target: nat, level: map<nat, nat>, cur: nat, id: nat)
    requires Shortest(heap, target, level) && cur in level && id !in level && Refers(heap, id, cur)
    requires forall x | Within(heap, target, x, level[cur]) :: x in level
    ensures Shortest(heap, target, level[id := level[cur] + 1])
  {
    hide Refers;
    assert Distance(heap, target, cur, level[cur]);
  }

  lemma HolderExpanding(heap: Heap, target: nat, depth: nat, cur: nat, queue: seq<nat>, level: map<nat, nat>, id: nat)
    requires Expanding(heap, target, depth, cur, queue, level) && id !in level
    ensures Expanding(heap, target, depth, cur, queue + [id], level[id := level[cur] + 1])
  {
    hide Within, Refers;
    var queue' := queue + [id];
    assert forall x :: x in queue' <==> x in queue || x == id;
    assert forall i | 0 <= i < |queue| :: queue[i] in queue;
  }

  /** When the current object's referrers are all in, the walk goes on from the queue. */
  lemma Expanded(heap: Heap, target: nat, depth: nat, cur: nat, queue: seq<nat>, level: map<nat, nat>)
    requires Expanding(heap, target, depth, cur, queue, level)
    requires level[cur] < depth ==> forall y | Refers(heap, y, cur) :: y in level
    ensures Frontier(queue, level) && Followed(heap, depth, queue, level)
  {
    hide Within, Refers;
    forall x | x in level
      ensures level[x] <= level[cur] + 1
    {
      if x in queue {
        var i :| 0 <= i < |queue| && queue[i] == x;
      }
    }
  }

  // ---- the walk ----

  /** New objects were added to the map and to the end of the queue, and nothing else changed. */
  ghost predicate Grown(queue0: seq<nat>, level0: map<nat, nat>, queue: seq<nat>, level: map<nat, nat>) {
    && queue0 <= queue && |level| - |level0| == |queue| - |queue0|
    && level0.Keys <= level.Keys && (forall x | x in level0 :: level[x] == level0[x])
    && (forall x | x in queue :: x in queue0 || x !in level0)
    && (forall x | x in level && x !in queue :: x in level0 && x !in queue0)
  }

  lemma GrownByNone(queue: seq<nat>, level: map<nat, nat>)
    ensures Grown(queue, level, queue, level)
  {
  }

  lemma GrownByOne(queue0: seq<nat>, level0: map<nat, nat>, queue: seq<nat>, level: map<nat, nat>, id: nat, d: nat)
    requires Grown(queue0, level0, queue, level) && id !in level
    ensures Grown(queue0, level0, queue + [id], level[id := d]) && |level[id := d]| == |level| + 1
  {
    assert forall x :: x in queue + [id] <==> x in queue || x == id;
    assert forall x | x in queue0 :: x in queue by {
      forall x | x in queue0
        ensures x in queue
      {
        var i :| 0 <= i < |queue0| && queue0[i] == x;
        assert queue[i] == x;
      }
    }
    assert level[id := d].Keys == level.Keys + {id};
  }

  /** The referrers of one object, until the cap. */
  method Expand(heap: Heap, target: nat, depth: nat, cur: nat, queue0: seq<nat>, parent0: map<nat, nat>, level0: map<nat, nat>)
    returns (queue: seq<nat>, parent: map<nat, nat>, level: map<nat, nat>, full: bool)
    requires |level0| < MAX_REF_NODES && heap(cur).Some?
    requires Tree(heap, target, depth, parent0, level0) && Shortest(heap, target, level0)
    requires Expanding(heap, target, depth, cur, queue0, level0) && level0[cur] < depth
    ensures |level0| <= |level| <= MAX_REF_NODES && (full <==> |level| == MAX_REF_NODES)
    ensures Tree(heap, target, depth, parent, level) && Shortest(heap, target, level)
    ensures !full ==> Frontier(queue, level) && Followed(heap, depth, queue, level)
    ensures Grown(queue0, level0, queue, level)
  {
    hide Within, Distance, HangsFrom, Tree, Shortest, Expanding, Frontier, Followed, Grown;
    ExpandingHas(heap, target, depth, cur, queue0, level0);
    GrownByNone(queue0, level0);
    var refs := heap(cur).value;
    queue, parent, level, full := queue0, parent0, level0, false;
    for n := 0 to |refs|
      invariant |level0| <= |level| < MAX_REF_NODES && !full
      invariant Tree(heap, target, depth, parent, level) && Shortest(heap, target, level)
      invariant Expanding(heap, target, depth, cur, queue, level)
      invariant cur in level && level[cur] == level0[cur]
      invariant forall i | 0 <= i < n :: refs[i] in level
      invariant Grown(queue0, level0, queue, level)
    {
      var id := refs[n];
      if id in level {
        continue;
      }
      AddHolder(heap, target, depth, cur, queue, parent, level, id);
      GrownByOne(queue0, level0, queue, level, id, level[cur] + 1);
      level := level[id := level[cur] + 1];
      parent := parent[id := cur];
      queue := queue + [id];
      if |level| >= MAX_REF_NODES {
        full := true;
        return;
      }
    }
    assert forall y | Refers(heap, y, cur) :: y in level;
    Expanded(heap, target, depth, cur, queue, level);
  }

  /** Every object followed so far was reported with fewer referrers than the per-object cap. */
  ghost predicate NoneCut(heap: Heap, depth: nat, queue: seq<nat>, level: map<nat, nat>) {
    forall x | x in level && x !in queue && level[x] < depth && heap(x).Some? :: |heap(x).value| < MAX_REFS_PER_NODE
  }

  /** The walk of refs(): at most 500 objects, each hanging off the target by real references
      at its true distance; all objects within the depth unless the node cap was reached; and
      `capped` tells whether either cap can have hidden something. */
  method Walk(heap: Heap, target: nat, depth: nat)
    returns (parent: map<nat, nat>, level: map<nat, nat>, direct: nat, capped: bool)
    ensures |level| <= MAX_REF_NODES
    ensures Tree(heap, target, depth, parent, level) && Shortest(heap, target, level)
    ensures |level| < MAX_REF_NODES ==> forall x :: x in level <==> Within(heap, target, x, depth)
    ensures !capped ==> |level| < MAX_REF_NODES && NoneCut(heap, depth, [], level)
    ensures depth > 0 && heap(target).Some? ==> direct == |heap(target).value|
  {
    hide Distance, Within, Refers, HangsFrom, Tree, Shortest, Frontier, Followed, Expanding, NoneCut, Grown;
    parent, level, direct, capped := map[], map[target := 0], 0, false;
    var queue := [target];
    TargetAlone(heap, target, depth);
    NoneCutYet(heap, depth, target);
    while queue != [] && |level| < MAX_REF_NODES
      invariant 1 <= |level| <= MAX_REF_NODES && (!capped ==> |level| < MAX_REF_NODES)
      invariant Tree(heap, target, depth, parent, level) && Shortest(heap, target, level)
      invariant |level| < MAX_REF_NODES ==> Frontier(queue, level) && Followed(heap, depth, queue, level)
      invariant !capped ==> NoneCut(heap, depth, queue, level)
      invariant target in level && ((queue == [target] && |level| == 1) || target !in queue)
      invariant target !in queue && depth > 0 && heap(target).Some? ==> direct == |heap(target).value|
      decreases MAX_REF_NODES - |level|, |queue|
    {
      var cur, rest := queue[0], queue[1..];
      PollHead(heap, target, depth, queue, parent, level);
      PollFacts(heap, target, depth, queue, level);
      TargetIsShallow(heap, target, depth, parent, level);
      if level[cur] >= depth || heap(cur).None? {
        FollowedAlready(heap, target, depth, cur, rest, level);
        if !capped {
          NoneCutPoll(heap, depth, queue, level);
        }
        queue := rest;
        continue;
      }
      if cur == target {
        direct := |heap(cur).value|;
      }
      if |heap(cur).value| >= MAX_REFS_PER_NODE {
        capped := true;
      }
      if !capped {
        NoneCutPoll(heap, depth, queue, level);
      }
      ghost var before := level;
      var full;
      queue, parent, level, full := Expand(heap, target, depth, cur, rest, parent, level);
      if !capped {
        NoneCutGrows(heap, depth, rest, before, queue, level);
      }
      GrownFacts(rest, before, queue, level, target);
      capped := capped || full;
    }
    if |level| < MAX_REF_NODES {
      AllFound(heap, target, depth, parent, level);
    }
  }

  lemma GrownFacts(queue0: seq<nat>, level0: map<nat, nat>, queue: seq<nat>, level: map<nat, nat>, target: nat)
    requires Grown(queue0, level0, queue, level) && target in level0 && target !in queue0
    ensures target in level && target !in queue && (|level| == |level0| ==> queue == queue0)
  {
  }

  lemma NoneCutYet(heap: Heap, depth: nat, target: nat)
    ensures NoneCut(heap, depth, [target], map[target := 0])
  {
    assert target in [target];
  }

  lemma PollFacts(heap: Heap, target: nat, depth: nat, queue: seq<nat>, level: map<nat, nat>)
    requires Frontier(queue, level) && queue != []
    ensures queue[0] in level && queue[0] !in queue[1..] && forall x :: x in queue <==> x == queue[0] || x in queue[1..]
  {
  }

  lemma TargetIsShallow(heap: Heap, target: nat, depth: nat, parent: map<nat, nat>, level: map<nat, nat>)
    requires Tree(heap, target, depth, parent, level)
    ensures target in level && level[target] == 0
  {
  }

  lemma FollowedAlready(heap: Heap, target: nat, depth: nat, cur: nat, rest: seq<nat>, level: map<nat, nat>)
    requires Expanding(heap, target, depth, cur, rest, level) && (level[cur] >= depth || heap(cur).None?)
    ensures Frontier(rest, level) && Followed(heap, depth, rest, level)
  {
    hide Within, Expanding, Frontier, Followed;
    ExpandingHas(heap, target, depth, cur, rest, level);
    Expanded(heap, target, depth, cur, rest, level);
  }

  lemma ExpandingHas(heap: Heap, target: nat, depth: nat, cur: nat, rest: seq<nat>, level: map<nat, nat>)
    requires Expanding(heap, target, depth, cur, rest, level)
    ensures cur in level
  {
  }

  lemma NoneCutPoll(heap: Heap, depth: nat, queue: seq<nat>, level: map<nat, nat>)
    requires queue != [] && queue[0] in level && forall x :: x in queue <==> x == queue[0] || x in queue[1..]
    requires NoneCut(heap, depth, queue, level)
    requires level[queue[0]] < depth && heap(queue[0]).Some? ==> |heap(queue[0]).value| < MAX_REFS_PER_NODE
    ensures NoneCut(heap, depth, queue[1..], level)
  {
  }

  lemma NoneCutGrows(heap: Heap, depth: nat, queue0: seq<nat>, level0: map<nat, nat>, queue: seq<nat>, level: map<nat, nat>)
    requires Grown(queue0, level0, queue, level) && NoneCut(heap, depth, queue0, level0)
    ensures NoneCut(heap, depth, queue, level)
  {
  }

  lemma AllFound(heap: Heap, target: nat, depth: nat, parent: map<nat, nat>, level: map<nat, nat>)
    requires Tree(heap, target, depth, parent, level) && Shortest(heap, target, level)
    requires Frontier([], level) && Followed(heap, depth, [], level)
    ensures forall x :: x in level <==> Within(heap, target, x, depth)
  {
    hide Within, Refers;
    forall x
      ensures x in level <==> Within(heap, target, x, depth)
    {
      if Within(heap, target, x, depth) {
        FoundSoFar(heap, target, depth, [], parent, level, x, depth);
      }
      if x in level {
        assert Distance(heap, target, x, level[x]);
        assert x in parent ==> HangsFrom(heap, depth, parent, level, x);
        WithinMore(heap, target, x, level[x], depth);
      }
    }
  }

  // ---- the chains that are reported ----

  /** From a found object up its parents, stopping before the target. */
  method Chain(heap: Heap, target: nat, depth: nat, parent: map<nat, nat>, level: map<nat, nat>, id: nat)
    returns (chain: seq<nat>)
    requires Tree(heap, target, depth, parent, level) && id in level && id != target
    ensures |chain| == level[id] >= 1 && chain[0] == id && target !in chain
    ensures forall i | 0 <= i < |chain| :: Refers(heap, chain[i], if i + 1 < |chain| then chain[i + 1] else target)
  {
    hide Refers;
    chain := [id];
    var walk := id;
    assert HangsFrom(heap, depth, parent, level, id);
    while walk in parent && parent[walk] != target
      invariant walk in parent && |chain| >= 1 && |chain| + level[walk] == level[id] + 1
      invariant chain[0] == id && chain[|chain| - 1] == walk && target !in chain
      invariant forall i | 0 <= i < |chain| - 1 :: Refers(heap, chain[i], chain[i + 1])
      decreases level[walk]
    {
      assert HangsFrom(heap, depth, parent, level, walk);
      walk := parent[walk];
      assert HangsFrom(heap, depth, parent, level, walk);
      chain := chain + [walk];
    }
    assert HangsFrom(heap, depth, parent, level, walk);
  }
}
