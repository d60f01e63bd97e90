/** The bottom-up pass as a protocol. Threads start at the occupied leaves and climb. Each
    announces its finished node on the parent's counter; the last one to arrive at a parent
    reads all children, writes the parent and climbs on, the others stop. Steps of different
    threads interleave in any order. */
module MassPropagation {
  import opened Ints
  import opened BarnesHut
  import opened Moments
  import opened Scan
  import opened Threads

  /** What the threads read and never write; slot 8 * node + octant of `children` is a child
      or -1. */
  datatype Net = Net(parent: seq<int>, children: seq<int>, occupied: seq<bool>, childCount: seq<nat>)

  /** Where a thread stands: before its first instruction; with a finished node that it has not
      yet announced; between two reads of the children of a node that it was elected for, with
      the sums so far; or done. */
  datatype Stage = Starting | Announcing(node: nat) | Gathering(node: nat, octant: nat, sums: Sums) | Finished

  /** The shared memory and the threads. The last three fields only record the history: the
      nodes that were announced, the nodes that were aggregated in order, and the thread that
      carried each node. No step depends on them. */
  datatype State = State(stages: seq<Stage>, pending: seq<nat>, moments: seq<Moment>, error: int,
                         announced: set<int>, log: seq<nat>, carrier: seq<nat>)

  ghost predicate Shaped(net: Net, s: State)
  {
    && |net.parent| <= MOST_NODES
    && |net.children| == 8 * |net.parent| && |net.occupied| == |net.childCount| == |net.parent|
    && |s.stages| == |s.pending| == |s.moments| == |s.carrier| == |net.parent|
    && (forall t :: 0 <= t < |s.stages| && s.stages[t].Announcing? ==> s.stages[t].node < |net.parent|)
    && (forall t :: 0 <= t < |s.stages| && s.stages[t].Gathering? ==>
          s.stages[t].node < |net.parent| && s.stages[t].octant <= 8)
  }

  // ----- the steps of a thread

  function Enter(s: State, t: nat, stage: Stage): State
    requires t < |s.stages|
  {
    s.(stages := s.stages[t := stage])
  }

  /** The first error is kept. */
  function Fail(s: State, t: nat, code: int): State
    requires t < |s.stages|
  {
    Enter(s, t, Finished).(error := if s.error == 0 then code else s.error)
  }

  function Start(net: Net, s: State, t: nat): State
    requires Shaped(net, s) && t < |s.stages|
  {
    if !net.occupied[t] then Enter(s, t, Finished)
    else if net.childCount[t] != 0 then Fail(s, t, 4)
    else Enter(s, t, Announcing(t))
  }

  /** The atomic increment of the parent's counter, and what its result decides. */
  function Announce(net: Net, s: State, t: nat, node: nat): State
    requires Shaped(net, s) && t < |s.stages| && node < |net.parent|
  {
    var p := net.parent[node];
    if p == -1 then Enter(s, t, Finished)
    else if p < 0 || p >= |net.parent| then Fail(s, t, 5)
    else if net.childCount[p] <= 0 || net.childCount[p] > 8 then Fail(s, t, 6)
    else
      var arrived := s.pending[p] + 1;
      var counted := s.(pending := s.pending[p := arrived], announced := s.announced + {node});
      if arrived < net.childCount[p] then Enter(counted, t, Finished)
      else if arrived > net.childCount[p] then Fail(counted, t, 7)
      else Enter(counted, t, Gathering(p, 0, NO_SUMS)).(carrier := s.carrier[p := t])
  }

  /** One read of a child, or the final write. */
  function Gather(net: Net, s: State, t: nat, node: nat, octant: nat, sums: Sums): State
    requires Shaped(net, s) && t < |s.stages| && node < |net.parent| && octant <= 8
  {
    if octant == 8 then
      Enter(s, t, Announcing(node)).(moments := s.moments[node := MomentFrom(sums)], log := s.log + [node])
    else
      var slot: Int := node * 8 + octant;
      var child := net.children[slot];
      if 0 <= child < |s.moments| then
        Enter(s, t, Gathering(node, octant + 1, AddTerm(sums, s.moments[child].mass, s.moments[child].center)))
      else Enter(s, t, Gathering(node, octant + 1, sums))
  }

  /** A step of thread t. */
  function Step(net: Net, s: State, t: nat): State
    requires Shaped(net, s) && t < |s.stages|
  {
    match s.stages[t]
    case Starting => Start(net, s, t)
    case Announcing(node) => Announce(net, s, t, node)
    case Gathering(node, octant, sums) => Gather(net, s, t, node, octant, sums)
    case Finished => s
  }

  // ----- what the pass is to compute

  /** The children of each node as a set, the final moments, and the sums over the children in
      the first octants. */
  datatype Target = Target(kids: seq<set<int>>, moments: seq<Moment>, partial: seq<seq<Sums>>, depth: seq<nat>)

  ghost predicate SlotGathered(net: Net, goal: Target, p: nat, k: nat)
    requires |net.children| == 8 * |net.parent| && p < |net.parent| && k < 8
    requires |goal.moments| == |goal.partial| == |goal.kids| == |net.parent| && |goal.partial[p]| == 9
  {
    var c := net.children[8 * p + k];
    && (c != -1 ==> 0 <= c < |net.parent| && c in goal.kids[p])
    && goal.partial[p][k + 1] == if c == -1 then goal.partial[p][k]
                                 else if 0 <= c < |goal.moments|
                                 then AddTerm(goal.partial[p][k], goal.moments[c].mass, goal.moments[c].center)
                                 else NO_SUMS
  }

  ghost predicate GatheredFrom(net: Net, goal: Target, p: nat)
    requires |net.children| == 8 * |net.parent| && p < |net.parent|
    requires |goal.moments| == |goal.partial| == |goal.kids| == |net.parent|
  {
    && |goal.partial[p]| == 9 && goal.partial[p][0] == NO_SUMS
    && goal.moments[p] == MomentFrom(goal.partial[p][8])
    && forall k :: 0 <= k < 8 ==> SlotGathered(net, goal, p, k)
  }

  ghost predicate AreKids(net: Net, kids: set<int>, p: nat)
  {
    forall c :: c in kids <==> 0 < c < |net.parent| && net.parent[c] == p
  }

  ghost predicate GoodNet(net: Net, goal: Target)
  {
    && 0 < |net.parent| <= MOST_NODES && |net.children| == 8 * |net.parent|
    && |net.occupied| == |net.childCount| == |net.parent|
    && |goal.kids| == |goal.moments| == |goal.partial| == |goal.depth| == |net.parent|
    && net.parent[0] == -1
    && (forall c :: 0 < c < |net.parent| ==> 0 <= net.parent[c] < |net.parent|)
    && (forall p :: 0 <= p < |net.parent| ==> AreKids(net, goal.kids[p], p))
    && (forall p :: 0 <= p < |net.parent| ==> (net.occupied[p] <==> goal.kids[p] == {}))
    && (forall p :: 0 <= p < |net.parent| ==> net.childCount[p] == |goal.kids[p]| <= 8)
    && (forall p :: 0 <= p < |net.parent| && !net.occupied[p] ==> GatheredFrom(net, goal, p))
    && (forall c :: 0 < c < |net.parent| ==> goal.depth[c] == goal.depth[net.parent[c]] + 1)
    && (forall c :: 0 <= c < |net.parent| ==> goal.depth[c] <= 10)
  }

  /** The moment of the node is final. */
  predicate Done(net: Net, s: State, id: int)
    requires 0 <= id < |net.occupied|
  {
    net.occupied[id] || id in s.log
  }

  // ----- the invariant

  ghost predicate Sized(net: Net, goal: Target, s: State)
  {
    && Shaped(net, s)
    && |goal.kids| == |goal.moments| == |goal.partial| == |net.parent|
    && (forall i :: 0 <= i < |s.log| ==> s.log[i] < |net.parent|)
    && (forall p, c :: 0 <= p < |goal.kids| && c in goal.kids[p] ==> 0 < c < |net.parent|)
  }

  ghost predicate MomentsFinal(net: Net, goal: Target, s: State)
    requires Sized(net, goal, s)
  {
    forall id :: 0 <= id < |net.parent| && Done(net, s, id) ==> s.moments[id] == goal.moments[id]
  }

  /** Counters are exact, and only finished nodes are announced. */
  ghost predicate Counted(net: Net, goal: Target, s: State)
    requires Sized(net, goal, s)
  {
    && (forall p :: 0 <= p < |net.parent| ==> s.pending[p] == |s.announced * goal.kids[p]|)
    && (forall c :: c in s.announced ==> 0 < c < |net.parent| && Done(net, s, c))
  }

  /** Every aggregated node was aggregated once, after all its children. */
  ghost predicate Ordered(net: Net, goal: Target, s: State)
    requires Sized(net, goal, s)
  {
    && (forall i :: 0 <= i < |s.log| ==> !net.occupied[s.log[i]] && goal.kids[s.log[i]] <= s.announced)
    && (forall i, j :: 0 <= i < j < |s.log| ==> s.log[i] != s.log[j])
    && (forall i, c :: 0 <= i < |s.log| && c in goal.kids[s.log[i]] ==> DoneBefore(net, s, c, i))
  }

  ghost predicate DoneBefore(net: Net, s: State, c: int, i: nat)
    requires 0 <= c < |net.occupied|
  {
    net.occupied[c] || exists j :: 0 <= j < i && j < |s.log| && s.log[j] == c
  }

  ghost predicate StageSound(net: Net, goal: Target, s: State, t: nat)
    requires Sized(net, goal, s) && t < |s.stages|
  {
    match s.stages[t]
    case Starting => net.occupied[t] ==> s.carrier[t] == t && t !in s.announced
    case Announcing(n) => s.carrier[n] == t && Done(net, s, n) && n !in s.announced
    case Gathering(p, k, sums) =>
      && s.carrier[p] == t && !net.occupied[p] && p !in s.log && goal.kids[p] <= s.announced
      && k < |goal.partial[p]| && sums == goal.partial[p][k]
    case Finished => true
  }

  ghost predicate StagesSound(net: Net, goal: Target, s: State)
    requires Sized(net, goal, s)
  {
    forall t :: 0 <= t < |s.stages| ==> StageSound(net, goal, s, t)
  }

  /** A finished node that is not announced is in the hands of its thread. */
  ghost predicate Held(net: Net, s: State, n: nat)
    requires Shaped(net, s) && n < |net.parent|
  {
    && s.carrier[n] < |s.stages|
    && (s.stages[s.carrier[n]] == Announcing(n) || (net.occupied[n] && s.stages[n].Starting? && s.carrier[n] == n))
  }

  /** A node whose children are all announced is being aggregated. */
  ghost predicate Elected(net: Net, s: State, p: nat)
    requires Shaped(net, s) && p < |net.parent|
  {
    s.carrier[p] < |s.stages| && s.stages[s.carrier[p]].Gathering? && s.stages[s.carrier[p]].node == p
  }

  ghost predicate Waiting(net: Net, s: State, n: nat)
    requires Shaped(net, s) && n < |net.parent|
  {
    n > 0 && Done(net, s, n) && n !in s.announced
  }

  ghost predicate Ready(net: Net, goal: Target, s: State, p: nat)
    requires Sized(net, goal, s) && p < |net.parent|
  {
    !net.occupied[p] && goal.kids[p] <= s.announced && p !in s.log
  }

  /** No finished node and no complete family is forgotten. */
  ghost predicate NothingLost(net: Net, goal: Target, s: State)
    requires Sized(net, goal, s)
  {
    && (forall n :: 0 <= n < |net.parent| && Waiting(net, s, n) ==> Held(net, s, n))
    && (forall p :: 0 <= p < |net.parent| && Ready(net, goal, s, p) ==> Elected(net, s, p))
  }

  ghost predicate Kept(net: Net, goal: Target, s: State)
  {
    && Sized(net, goal, s) && s.error == 0
    && MomentsFinal(net, goal, s) && Counted(net, goal, s) && Ordered(net, goal, s)
    && StagesSound(net, goal, s) && NothingLost(net, goal, s)
  }

  function Initial(net: Net, moments: seq<Moment>): State
  {
    var n := |net.parent|;
    State(seq(n, _ => Starting), seq(n, _ => 0), moments, 0, {}, [], seq(n, t => t))
  }

  lemma NothingReadyAtFirst(net: Net, goal: Target, moments: seq<Moment>, p: nat)
    requires Sized(net, goal, Initial(net, moments)) && p < |net.parent|
    requires net.occupied[p] <==> goal.kids[p] == {}
    ensures !Ready(net, goal, Initial(net, moments), p)
  {
  }

  lemma InitialIsSized(net: Net, goal: Target, moments: seq<Moment>)
    requires GoodNet(net, goal) && |moments| == |net.parent|
    ensures Sized(net, goal, Initial(net, moments))
    ensures forall p :: 0 <= p < |net.parent| ==> (net.occupied[p] <==> goal.kids[p] == {})
  {
    KidsAreNodes(net, goal);
  }

  lemma KidsAreNodes(net: Net, goal: Target)
    requires GoodNet(net, goal)
    ensures forall p, c :: 0 <= p < |goal.kids| && c in goal.kids[p] ==> 0 < c < |net.parent|
  {
    forall p, c | 0 <= p < |goal.kids| && c in goal.kids[p]
      ensures 0 < c < |net.parent|
    {
      assert AreKids(net, goal.kids[p], p);
    }
  }

  lemma InitialIsKept(net: Net, goal: Target, moments: seq<Moment>)
    requires Sized(net, goal, Initial(net, moments))
    requires forall p :: 0 <= p < |net.parent| ==> (net.occupied[p] <==> goal.kids[p] == {})
    requires forall id :: 0 <= id < |net.parent| && net.occupied[id] ==> moments[id] == goal.moments[id]
    ensures Kept(net, goal, Initial(net, moments))
  {
    var s := Initial(net, moments);
    forall p | 0 <= p < |net.parent|
      ensures s.pending[p] == |s.announced * goal.kids[p]|
    {
      assert s.announced * goal.kids[p] == {};
    }
    forall p | 0 <= p < |net.parent|
      ensures !Ready(net, goal, s, p)
    {
      NothingReadyAtFirst(net, goal, moments, p);
    }
  }

  // ----- a thread that only moves on by itself

  /** No other thread notices; what thread t held it still holds. */
  lemma EnterKeeps(net: Net, goal: Target, s: State, t: nat, stage: Stage)
    requires Kept(net, goal, s) && t < |s.stages| && Shaped(net, Enter(s, t, stage))
    requires StageSound(net, goal, Enter(s, t, stage), t)
    requires forall n :: 0 <= n < |net.parent| && Waiting(net, s, n) && s.carrier[n] == t ==>
               Held(net, Enter(s, t, stage), n)
    requires forall p :: 0 <= p < |net.parent| && Ready(net, goal, s, p) && s.carrier[p] == t ==>
               Elected(net, Enter(s, t, stage), p)
    ensures Kept(net, goal, Enter(s, t, stage))
  {
    var s' := Enter(s, t, stage);
    forall u | 0 <= u < |s'.stages|
      ensures StageSound(net, goal, s', u)
    {
      assert StageSound(net, goal, s, u);
    }
    SameLogSameOrder(net, goal, s, s');
    EnterLosesNothing(net, goal, s, t, stage);
    assert forall id :: 0 <= id < |net.parent| && Done(net, s', id) ==> Done(net, s, id);
    assert forall c :: c in s.announced ==> Done(net, s, c);
  }

  lemma EnterLosesNothing(net: Net, goal: Target, s: State, t: nat, stage: Stage)
    requires Sized(net, goal, s) && NothingLost(net, goal, s) && t < |s.stages| && Sized(net, goal, Enter(s, t, stage))
    requires forall n :: 0 <= n < |net.parent| && Waiting(net, s, n) && s.carrier[n] == t ==>
               Held(net, Enter(s, t, stage), n)
    requires forall p :: 0 <= p < |net.parent| && Ready(net, goal, s, p) && s.carrier[p] == t ==>
               Elected(net, Enter(s, t, stage), p)
    ensures NothingLost(net, goal, Enter(s, t, stage))
  {
    var s' := Enter(s, t, stage);
    forall n | 0 <= n < |net.parent| && Waiting(net, s', n)
      ensures Held(net, s', n)
    {
      assert Waiting(net, s, n) && Held(net, s, n);
    }
    forall p | 0 <= p < |net.parent| && Ready(net, goal, s', p)
      ensures Elected(net, s', p)
    {
      assert Ready(net, goal, s, p) && Elected(net, s, p);
    }
  }

  lemma StartKeeps(net: Net, goal: Target, s: State, t: nat)
    requires Kept(net, goal, s) && t < |s.stages| && s.stages[t].Starting?
    requires net.occupied[t] ==> net.childCount[t] == 0
    ensures Kept(net, goal, Start(net, s, t))
  {
    var stage := if net.occupied[t] then Announcing(t) else Finished;
    assert StageSound(net, goal, s, t);
    forall n | 0 <= n < |net.parent| && Waiting(net, s, n) && s.carrier[n] == t
      ensures Held(net, Enter(s, t, stage), n)
    {
      assert Held(net, s, n);
    }
    forall p | 0 <= p < |net.parent| && Ready(net, goal, s, p)
      ensures s.carrier[p] != t
    {
      assert Elected(net, s, p);
    }
    EnterKeeps(net, goal, s, t, stage);
  }

  lemma RootStops(net: Net, goal: Target, s: State, t: nat)
    requires Kept(net, goal, s) && t < |s.stages| && s.stages[t] == Announcing(0)
    ensures Kept(net, goal, Enter(s, t, Finished))
  {
    forall n | 0 <= n < |net.parent| && Waiting(net, s, n)
      ensures s.carrier[n] != t
    {
      assert Held(net, s, n);
    }
    forall p | 0 <= p < |net.parent| && Ready(net, goal, s, p)
      ensures s.carrier[p] != t
    {
      assert Elected(net, s, p);
    }
    EnterKeeps(net, goal, s, t, Finished);
  }

  /** One more child has been read; its moment is final, since it was announced. */
  lemma ReadKeeps(net: Net, goal: Target, s: State, t: nat, p: nat, k: nat, sums: Sums)
    requires Kept(net, goal, s) && t < |s.stages| && s.stages[t] == Gathering(p, k, sums) && p < |net.parent| && k < 8
    requires GatheredFrom(net, goal, p)
    ensures Kept(net, goal, Gather(net, s, t, p, k, sums))
  {
    assert StageSound(net, goal, s, t);
    var c := net.children[8 * p + k];
    assert SlotGathered(net, goal, p, k);
    if c != -1 {
      assert c in s.announced && Done(net, s, c);
      assert s.moments[c] == goal.moments[c];
    }
    var stage := Gathering(p, k + 1, goal.partial[p][k + 1]);
    assert Gather(net, s, t, p, k, sums) == Enter(s, t, stage);
    forall n | 0 <= n < |net.parent| && Waiting(net, s, n)
      ensures s.carrier[n] != t
    {
      assert Held(net, s, n);
    }
    forall q | 0 <= q < |net.parent| && Ready(net, goal, s, q) && s.carrier[q] == t
      ensures Elected(net, Enter(s, t, stage), q)
    {
      assert Elected(net, s, q);
    }
    EnterKeeps(net, goal, s, t, stage);
  }

  // ----- a thread that writes the parent

  lemma LogGrows(net: Net, goal: Target, s: State, s': State, p: nat)
    requires Sized(net, goal, s) && Sized(net, goal, s') && Ordered(net, goal, s) && Counted(net, goal, s)
    requires s'.log == s.log + [p] && s'.announced == s.announced
    requires p < |net.parent| && !net.occupied[p] && goal.kids[p] <= s.announced && p !in s.log
    ensures Ordered(net, goal, s')
  {
    forall i, c | 0 <= i < |s'.log| && c in goal.kids[s'.log[i]]
      ensures DoneBefore(net, s', c, i)
    {
      if i < |s.log| {
        assert s'.log[i] == s.log[i] && DoneBefore(net, s, c, i);
        if !net.occupied[c] {
          var j :| 0 <= j < i && j < |s.log| && s.log[j] == c;
          assert s'.log[j] == c;
        }
      } else {
        assert c in s.announced && Done(net, s, c);
        if !net.occupied[c] {
          var j :| 0 <= j < |s.log| && s.log[j] == c;
          assert s'.log[j] == c;
        }
      }
    }
  }

  lemma WriteLosesNothing(net: Net, goal: Target, s: State, s': State, t: nat, p: nat)
    requires Sized(net, goal, s) && Sized(net, goal, s') && NothingLost(net, goal, s)
    requires t < |s.stages| && s.stages[t].Gathering? && s.stages[t].node == p && s.carrier[p] == t && p < |net.parent|
    requires s'.log == s.log + [p] && s'.announced == s.announced && s'.carrier == s.carrier
    requires s'.stages == s.stages[t := Announcing(p)]
    ensures NothingLost(net, goal, s')
  {
    forall n | 0 <= n < |net.parent| && Waiting(net, s', n)
      ensures Held(net, s', n)
    {
      if n != p {
        assert Waiting(net, s, n) && Held(net, s, n);
      }
    }
    forall q | 0 <= q < |net.parent| && Ready(net, goal, s', q)
      ensures Elected(net, s', q)
    {
      assert q != p;
      assert Ready(net, goal, s, q) && Elected(net, s, q);
    }
  }

  lemma WriteStages(net: Net, goal: Target, s: State, s': State, t: nat, p: nat, u: nat)
    requires Sized(net, goal, s) && Sized(net, goal, s') && StagesSound(net, goal, s)
    requires t < |s.stages| && s.stages[t].Gathering? && s.stages[t].node == p && p < |net.parent| && u < |s.stages|
    requires s'.log == s.log + [p] && s'.announced == s.announced && s'.carrier == s.carrier
    requires s'.stages == s.stages[t := Announcing(p)] && p !in s.announced
    ensures StageSound(net, goal, s', u)
  {
    assert StageSound(net, goal, s, t) && StageSound(net, goal, s, u);
  }

  lemma AnnouncedIsDone(net: Net, goal: Target, s: State, c: nat)
    requires Sized(net, goal, s) && Counted(net, goal, s) && c < |net.parent|
    ensures c in s.announced ==> Done(net, s, c)
  {
  }

  lemma WriteKeeps(net: Net, goal: Target, s: State, t: nat, p: nat, sums: Sums)
    requires Kept(net, goal, s) && t < |s.stages| && s.stages[t] == Gathering(p, 8, sums) && p < |net.parent|
    requires |goal.partial[p]| == 9 && goal.moments[p] == MomentFrom(goal.partial[p][8])
    ensures Kept(net, goal, Gather(net, s, t, p, 8, sums))
  {
    var s' := Gather(net, s, t, p, 8, sums);
    assert StageSound(net, goal, s, t);
    AnnouncedIsDone(net, goal, s, p);
    forall u | 0 <= u < |s'.stages|
      ensures StageSound(net, goal, s', u)
    {
      WriteStages(net, goal, s, s', t, p, u);
    }
    LogGrows(net, goal, s, s', p);
    WriteLosesNothing(net, goal, s, s', t, p);
    forall id | 0 <= id < |net.parent| && Done(net, s', id)
      ensures s'.moments[id] == goal.moments[id]
    {
      if id != p {
        assert Done(net, s, id);
      }
    }
    assert forall c :: c in s.announced ==> Done(net, s, c);
  }

  // ----- a thread that announces its node

  lemma OneMoreAnnounced(announced: set<int>, kids: set<int>, n: int)
    requires n in kids && n !in announced
    ensures |(announced + {n}) * kids| == |announced * kids| + 1 <= |kids|
    ensures |(announced + {n}) * kids| == |kids| <==> kids <= announced + {n}
  {
    assert (announced + {n}) * kids == announced * kids + {n};
    Within((announced + {n}) * kids, kids);
  }

  lemma Within(part: set<int>, whole: set<int>)
    requires part <= whole
    ensures |part| <= |whole|
    ensures |part| == |whole| <==> whole <= part
  {
    assert whole == part + (whole - part);
    assert |whole| == |part| + |whole - part|;
  }

  /** The node n, held by thread t and announced to its parent p. */
  ghost predicate Arrives(net: Net, goal: Target, s: State, t: nat, n: nat, p: nat)
    requires Sized(net, goal, s)
  {
    && t < |s.stages| && s.stages[t] == Announcing(n) && 0 < n < |net.parent| && p < |net.parent|
    && net.parent[n] == p && !net.occupied[p]
    && (forall q :: 0 <= q < |net.parent| ==> (n in goal.kids[q] <==> q == p))
    && net.childCount[p] == |goal.kids[p]| <= 8
  }

  function AfterArrival(s: State, t: nat, n: nat, p: nat, last: bool): State
    requires t < |s.stages| && p < |s.pending| && p < |s.carrier|
  {
    var counted := s.(pending := s.pending[p := s.pending[p] + 1], announced := s.announced + {n});
    if last then Enter(counted, t, Gathering(p, 0, NO_SUMS)).(carrier := s.carrier[p := t])
    else Enter(counted, t, Finished)
  }

  /** The counter never passes the number of children, and reaches it with the last child. */
  lemma ArrivalCounts(net: Net, goal: Target, s: State, t: nat, n: nat, p: nat)
    requires Kept(net, goal, s) && Arrives(net, goal, s, t, n, p)
    ensures Announce(net, s, t, n) == AfterArrival(s, t, n, p, goal.kids[p] <= s.announced + {n})
    ensures !(goal.kids[p] <= s.announced) && n !in s.announced && p !in s.log
  {
    assert StageSound(net, goal, s, t);
    assert n in goal.kids[p];
    OneMoreAnnounced(s.announced, goal.kids[p], n);
  }

  lemma ArrivalIsCounted(net: Net, goal: Target, s: State, t: nat, n: nat, p: nat, last: bool)
    requires Kept(net, goal, s) && Arrives(net, goal, s, t, n, p) && n !in s.announced
    ensures Sized(net, goal, AfterArrival(s, t, n, p, last))
    ensures Counted(net, goal, AfterArrival(s, t, n, p, last))
  {
    assert StageSound(net, goal, s, t);
    var s' := AfterArrival(s, t, n, p, last);
    forall q | 0 <= q < |net.parent|
      ensures s'.pending[q] == |s'.announced * goal.kids[q]|
    {
      if q == p {
        OneMoreAnnounced(s.announced, goal.kids[p], n);
      } else {
        assert s'.announced * goal.kids[q] == s.announced * goal.kids[q];
      }
    }
    forall c | c in s'.announced
      ensures 0 < c < |net.parent| && Done(net, s', c)
    {
      assert Done(net, s, c);
    }
  }

  lemma ArrivalStages(net: Net, goal: Target, s: State, t: nat, n: nat, p: nat, last: bool, u: nat)
    requires Kept(net, goal, s) && Arrives(net, goal, s, t, n, p) && u < |s.stages|
    requires !(goal.kids[p] <= s.announced) && n !in s.announced && p !in s.log
    requires last <==> goal.kids[p] <= s.announced + {n}
    requires |goal.partial[p]| > 0 && goal.partial[p][0] == NO_SUMS
    requires Sized(net, goal, AfterArrival(s, t, n, p, last))
    ensures StageSound(net, goal, AfterArrival(s, t, n, p, last), u)
  {
    assert StageSound(net, goal, s, t) && StageSound(net, goal, s, u);
  }

  lemma ArrivalLosesNothing(net: Net, goal: Target, s: State, t: nat, n: nat, p: nat, last: bool)
    requires Kept(net, goal, s) && Arrives(net, goal, s, t, n, p)
    requires !(goal.kids[p] <= s.announced) && n !in s.announced && p !in s.log
    requires last <==> goal.kids[p] <= s.announced + {n}
    requires Sized(net, goal, AfterArrival(s, t, n, p, last))
    ensures NothingLost(net, goal, AfterArrival(s, t, n, p, last))
  {
    var s' := AfterArrival(s, t, n, p, last);
    forall m | 0 <= m < |net.parent| && Waiting(net, s', m)
      ensures Held(net, s', m)
    {
      assert Waiting(net, s, m) && Held(net, s, m);
    }
    forall q | 0 <= q < |net.parent| && Ready(net, goal, s', q)
      ensures Elected(net, s', q)
    {
      if q != p {
        assert n !in goal.kids[q];
        assert Ready(net, goal, s, q) && Elected(net, s, q);
      }
    }
  }

  lemma ArrivalKeeps(net: Net, goal: Target, s: State, t: nat, n: nat, p: nat)
    requires Kept(net, goal, s) && Arrives(net, goal, s, t, n, p)
    requires |goal.partial[p]| > 0 && goal.partial[p][0] == NO_SUMS
    ensures Kept(net, goal, Announce(net, s, t, n))
  {
    ArrivalCounts(net, goal, s, t, n, p);
    var last := goal.kids[p] <= s.announced + {n};
    var s' := AfterArrival(s, t, n, p, last);
    ArrivalIsCounted(net, goal, s, t, n, p, last);
    forall u | 0 <= u < |s'.stages|
      ensures StageSound(net, goal, s', u)
    {
      ArrivalStages(net, goal, s, t, n, p, last, u);
    }
    ArrivalLosesNothing(net, goal, s, t, n, p, last);
    assert MomentsFinal(net, goal, s') by {
      assert forall id :: 0 <= id < |net.parent| && Done(net, s', id) ==> Done(net, s, id);
    }
    assert Ordered(net, goal, s') by {
      SameLogSameOrder(net, goal, s, s');
    }
  }

  lemma SameLogSameOrder(net: Net, goal: Target, s: State, s': State)
    requires Sized(net, goal, s) && Sized(net, goal, s') && Ordered(net, goal, s)
    requires s'.log == s.log && s.announced <= s'.announced
    ensures Ordered(net, goal, s')
  {
    forall i, c | 0 <= i < |s'.log| && c in goal.kids[s'.log[i]]
      ensures DoneBefore(net, s', c, i)
    {
      assert DoneBefore(net, s, c, i);
    }
  }

  // ----- every run

  /** Whatever thread moves next, the invariant is kept: no counter passes its child count and
      no error is reported. */
  lemma StepKeeps(net: Net, goal: Target, s: State, t: nat)
    requires GoodNet(net, goal) && Kept(net, goal, s) && t < |s.stages|
    ensures Kept(net, goal, Step(net, s, t))
  {
    match s.stages[t]
    case Starting => StartKeeps(net, goal, s, t);
    case Announcing(n) =>
      if n == 0 {
        RootStops(net, goal, s, t);
      } else {
        var p := net.parent[n];
        assert AreKids(net, goal.kids[p], p);
        assert n in goal.kids[p];
        ArrivalKeeps(net, goal, s, t, n, p);
      }
    case Gathering(p, k, sums) =>
      assert StageSound(net, goal, s, t);
      if k < 8 {
        ReadKeeps(net, goal, s, t, p, k, sums);
      } else {
        WriteKeeps(net, goal, s, t, p, sums);
      }
    case Finished =>
  }

  /** One state follows from another by a step of some thread that is not done. */
  ghost predicate Moves(net: Net, s: State, s': State)
  {
    Shaped(net, s) && exists t: nat :: t < |s.stages| && !s.stages[t].Finished? && s' == Step(net, s, t)
  }

  ghost predicate IsRun(net: Net, run: seq<State>)
  {
    |run| > 0 && forall i :: 0 <= i < |run| - 1 ==> Moves(net, run[i], run[i + 1])
  }

  // ----- every run ends

  function Rank(goal: Target, stage: Stage): nat
  {
    match stage
    case Starting => 102
    case Announcing(n) => if n < |goal.depth| then 10 * goal.depth[n] + 1 else 0
    case Gathering(p, k, _) => if p < |goal.depth| && k <= 8 then 10 * goal.depth[p] + 10 - k else 0
    case Finished => 0
  }

  function Ranks(goal: Target, stages: seq<Stage>): (ranks: seq<nat>)
    ensures |ranks| == |stages|
  {
    seq(|stages|, t requires 0 <= t < |stages| => Rank(goal, stages[t]))
  }

  function TotalRank(goal: Target, s: State): nat
  {
    Sum(Ranks(goal, s.stages), |s.stages|)
  }

  lemma {:induction false} SumOfUpdate(counts: seq<nat>, i: nat, v: nat, n: nat)
    requires n <= |counts| && i < |counts|
    ensures Sum(counts[i := v], n) + (if i < n then counts[i] else 0) == Sum(counts, n) + if i < n then v else 0
  {
    if n > 0 {
      SumOfUpdate(counts, i, v, n - 1);
    }
  }

  lemma LowerRank(goal: Target, s: State, s': State, t: nat)
    requires t < |s.stages| == |s'.stages| && s'.stages == s.stages[t := s'.stages[t]]
    requires Rank(goal, s'.stages[t]) < Rank(goal, s.stages[t])
    ensures TotalRank(goal, s') < TotalRank(goal, s)
  {
    var ranks := Ranks(goal, s.stages);
    assert Ranks(goal, s'.stages) == ranks[t := Rank(goal, s'.stages[t])];
    SumOfUpdate(ranks, t, Rank(goal, s'.stages[t]), |ranks|);
  }

  /** Every step of a thread lowers its own rank and touches no other thread. */
  lemma StepLowersRank(net: Net, goal: Target, s: State, t: nat)
    requires GoodNet(net, goal) && Shaped(net, s) && t < |s.stages| && !s.stages[t].Finished?
    ensures TotalRank(goal, Step(net, s, t)) < TotalRank(goal, s)
  {
    LowerRank(goal, s, Step(net, s, t), t);
  }

  lemma {:induction false} RankAtFirst(goal: Target, s: State, n: nat)
    requires n <= |s.stages| && forall t :: 0 <= t < n ==> s.stages[t].Starting?
    ensures Sum(Ranks(goal, s.stages), n) == 102 * n
  {
    if n > 0 {
      RankAtFirst(goal, s, n - 1);
    }
  }

  /** Every schedule keeps the invariant, and each of its steps costs rank. */
  lemma {:induction false} EveryRunIsKept(net: Net, goal: Target, run: seq<State>)
    requires GoodNet(net, goal) && IsRun(net, run) && Kept(net, goal, run[0])
    ensures forall i :: 0 <= i < |run| ==> Kept(net, goal, run[i])
    ensures TotalRank(goal, run[|run| - 1]) + |run| - 1 <= TotalRank(goal, run[0])
  {
    for i := 1 to |run|
      invariant forall j :: 0 <= j < i ==> Kept(net, goal, run[j])
      invariant TotalRank(goal, run[i - 1]) + i - 1 <= TotalRank(goal, run[0])
    {
      assert Moves(net, run[i - 1], run[i]);
      var t: nat :| t < |run[i - 1].stages| && !run[i - 1].stages[t].Finished? && run[i] == Step(net, run[i - 1], t);
      StepKeeps(net, goal, run[i - 1], t);
      StepLowersRank(net, goal, run[i - 1], t);
    }
  }

  /** Every run of the pass takes at most 102 steps for each node. */
  lemma RunsAreShort(net: Net, goal: Target, leafMoments: seq<Moment>, run: seq<State>)
    requires GoodNet(net, goal) && |leafMoments| == |net.parent|
    requires forall id :: 0 <= id < |net.parent| && net.occupied[id] ==> leafMoments[id] == goal.moments[id]
    requires IsRun(net, run) && run[0] == Initial(net, leafMoments)
    ensures forall i :: 0 <= i < |run| ==> Kept(net, goal, run[i])
    ensures |run| - 1 <= 102 * |net.parent|
  {
    InitialIsSized(net, goal, leafMoments);
    InitialIsKept(net, goal, leafMoments);
    EveryRunIsKept(net, goal, run);
    RankAtFirst(goal, run[0], |net.parent|);
  }

  // ----- and all runs end in the same memory

  ghost predicate Ended(s: State)
  {
    forall t :: 0 <= t < |s.stages| ==> s.stages[t].Finished?
  }

  lemma {:induction false} EveryNodeDone(net: Net, goal: Target, s: State, id: nat)
    requires GoodNet(net, goal) && Kept(net, goal, s) && Ended(s) && id < |net.parent|
    ensures Done(net, s, id) && (id > 0 ==> id in s.announced)
    decreases 10 - goal.depth[id]
  {
    if !net.occupied[id] {
      assert AreKids(net, goal.kids[id], id);
      forall c | c in goal.kids[id]
        ensures c in s.announced
      {
        assert 0 < c < |net.parent| && net.parent[c] == id;
        assert goal.depth[c] == goal.depth[id] + 1;
        EveryNodeDone(net, goal, s, c);
      }
    }
    NothingWaits(net, goal, s, id);
  }

  lemma NothingWaits(net: Net, goal: Target, s: State, id: nat)
    requires Sized(net, goal, s) && NothingLost(net, goal, s) && Ended(s) && id < |net.parent|
    ensures !Waiting(net, s, id) && !Ready(net, goal, s, id)
  {
  }

  /** What any complete schedule leaves behind: no error, every node with its final moment,
      every inner node aggregated exactly once and after its children, every counter equal to
      the number of children. */
  ghost predicate Complete(net: Net, goal: Target, s: State)
  {
    && GoodNet(net, goal) && Sized(net, goal, s) && Ordered(net, goal, s)
    && s.error == 0 && s.moments == goal.moments && s.pending == net.childCount
    && (forall id :: 0 <= id < |net.parent| ==> (id in s.log <==> !net.occupied[id]))
    && (forall id :: id in s.announced <==> 0 < id < |net.parent|)
  }

  lemma CountersAreFull(net: Net, goal: Target, s: State, p: nat)
    requires Sized(net, goal, s) && Counted(net, goal, s) && p < |net.parent|
    requires forall id :: 0 < id < |net.parent| ==> id in s.announced
    requires net.childCount[p] == |goal.kids[p]|
    ensures s.pending[p] == net.childCount[p]
  {
    var kids := goal.kids[p];
    forall c | c in kids
      ensures c in s.announced
    {
    }
    assert kids <= s.announced;
    assert s.announced * kids == kids;
  }

  lemma LogHoldsInner(net: Net, goal: Target, s: State, id: nat)
    requires Sized(net, goal, s) && Ordered(net, goal, s) && id < |net.parent| && Done(net, s, id)
    ensures id in s.log <==> !net.occupied[id]
  {
  }

  lemma EndedIsComplete(net: Net, goal: Target, s: State)
    requires GoodNet(net, goal) && Kept(net, goal, s) && Ended(s)
    ensures Complete(net, goal, s)
  {
    forall id: nat | id < |net.parent|
      ensures Done(net, s, id) && (id > 0 ==> id in s.announced)
    {
      EveryNodeDone(net, goal, s, id);
    }
    forall p | 0 <= p < |net.parent|
      ensures s.pending[p] == net.childCount[p]
      ensures p in s.log <==> !net.occupied[p]
    {
      CountersAreFull(net, goal, s, p);
      LogHoldsInner(net, goal, s, p);
    }
    assert s.pending == net.childCount;
    assert s.moments == goal.moments;
  }

  /** The pass under an arbitrary scheduler. */
  method Propagate(net: Net, ghost goal: Target, leafMoments: seq<Moment>) returns (final: State)
    requires GoodNet(net, goal) && |leafMoments| == |net.parent|
    requires forall id :: 0 <= id < |net.parent| && net.occupied[id] ==> leafMoments[id] == goal.moments[id]
    ensures Complete(net, goal, final)
  {
    final := Initial(net, leafMoments);
    InitialIsSized(net, goal, leafMoments);
    InitialIsKept(net, goal, leafMoments);
    var live := ThreadIds(|net.parent|);
    while live != {}
      invariant Kept(net, goal, final)
      invariant forall t :: t in live ==> 0 <= t < |final.stages|
      invariant forall t :: 0 <= t < |final.stages| && t !in live ==> final.stages[t].Finished?
      decreases TotalRank(goal, final) + |live|
    {
      var t :| t in live;
      if final.stages[t].Finished? {
        live := live - {t};
      } else {
        StepKeeps(net, goal, final, t);
        StepLowersRank(net, goal, final, t);
        OthersStay(net, final, t);
        final := Step(net, final, t);
      }
    }
    EndedIsComplete(net, goal, final);
  }

  lemma OthersStay(net: Net, s: State, t: nat)
    requires Shaped(net, s) && t < |s.stages|
    ensures |Step(net, s, t).stages| == |s.stages|
    ensures forall u :: 0 <= u < |s.stages| && u != t ==> Step(net, s, t).stages[u] == s.stages[u]
  {
  }
}
