/** What a connection gets done. One pass over a listing hands over every frame that it names, in
    the order of the names; a connection that is left alone does so for all of its spool, and the
    number of useful steps that this takes is bounded beforehand. */
module TransferProgress {
  import opened FrameNames
  import opened Transfer
  import opened Listings

  // ----- one pass over a listing

  /** The client has this content under the name, and has found it valid. */
  ghost predicate Holds(accepts: Content -> bool, s: State, client: nat, id: FrameId, content: Content)
  {
    (client, id) in s.stores && s.stores[(client, id)] == content && accepts(content)
  }

  /** The name was published again since. */
  ghost predicate Republished(first: State, s: State, id: FrameId)
  {
    exists i :: |first.published| <= i < |s.published| && s.published[i].id == id
  }

  /** On the connection of the first state the first n frames of the listing have been handed over,
      and the others are still to come, in order. */
  ghost predicate InRound(accepts: Content -> bool, first: State, listing: seq<FrameId>, s: State, n: nat)
    requires first.link.Up?
  {
    && s.link.Up? && s.link.client == first.link.client && s.link.follow == first.link.follow && n <= |listing|
    && s.acked == first.acked + listing[..n] && Pending(s.link) == listing[n..]
    && |first.published| <= |s.published|
    && (forall i :: 0 <= i < |listing| ==> listing[i] in first.spool)
    && (forall i :: n <= i < |listing| ==> StillQueued(first, s, listing[i]))
    && (forall i :: 0 <= i < n ==> HandedOn(accepts, first, s, listing[i]))
  }

  ghost predicate StillQueued(first: State, s: State, id: FrameId)
  {
    id in first.spool && id in s.spool && s.spool[id] == first.spool[id]
  }

  /** The client holds the frame as it was queued; only a further publication of its name can be
      in the spool. */
  ghost predicate HandedOn(accepts: Content -> bool, first: State, s: State, id: FrameId)
  {
    && first.link.Up? && id in first.spool && Holds(accepts, s, first.link.client, id, first.spool[id])
    && (id in s.spool ==> Republished(first, s, id))
  }

  ghost predicate Distinct(listing: seq<FrameId>)
  {
    forall i, j :: 0 <= i < j < |listing| ==> listing[i] != listing[j]
  }

  lemma PublishInRound(accepts: Content -> bool, first: State, listing: seq<FrameId>, s: State, n: nat, e: Event)
    requires first.link.Up? && InRound(accepts, first, listing, s, n) && e.Publish? && Enabled(s, e)
    ensures InRound(accepts, first, listing, Apply(accepts, s, e), n)
  {
    var s' := Apply(accepts, s, e);
    forall i | 0 <= i < n
      ensures HandedOn(accepts, first, s', listing[i])
    {
      assert HandedOn(accepts, first, s, listing[i]);
      if listing[i] in s.spool {
        var k :| |first.published| <= k < |s.published| && s.published[k].id == listing[i];
        assert s'.published[k].id == listing[i];
      } else if listing[i] == e.id {
        assert s'.published[|s.published|].id == listing[i];
      }
    }
    forall i | n <= i < |listing|
      ensures StillQueued(first, s', listing[i])
    {
      assert StillQueued(first, s, listing[i]);
    }
  }

  /** Files of other clients and the states of the transfer do not matter. */
  lemma FilesInRound(accepts: Content -> bool, first: State, listing: seq<FrameId>, s: State, n: nat, s': State)
    requires first.link.Up? && InRound(accepts, first, listing, s, n)
    requires s'.spool == s.spool && s'.published == s.published && s'.acked == s.acked
    requires s'.link.Up? && s'.link.client == s.link.client && s'.link.follow == s.link.follow
    requires Pending(s'.link) == Pending(s.link)
    requires forall i :: 0 <= i < n ==>
               (s.link.client, listing[i]) in s.stores ==>
                 (s.link.client, listing[i]) in s'.stores
                 && s'.stores[(s.link.client, listing[i])] == s.stores[(s.link.client, listing[i])]
    ensures InRound(accepts, first, listing, s', n)
  {
    forall i | 0 <= i < n
      ensures HandedOn(accepts, first, s', listing[i])
    {
      assert HandedOn(accepts, first, s, listing[i]);
      if listing[i] in s.spool {
        var k :| |first.published| <= k < |s.published| && s.published[k].id == listing[i];
        assert s'.published[k].id == listing[i];
      }
    }
    forall i | n <= i < |listing|
      ensures StillQueued(first, s', listing[i])
    {
      assert StillQueued(first, s, listing[i]);
    }
  }

  lemma PickInRound(accepts: Content -> bool, first: State, listing: seq<FrameId>, s: State, n: nat)
    requires first.link.Up? && InRound(accepts, first, listing, s, n) && Enabled(s, Pick)
    ensures InRound(accepts, first, listing, Apply(accepts, s, Pick), n)
  {
    var s' := Apply(accepts, s, Pick);
    assert s.link.queue == listing[n..] && n < |listing| && s.link.queue[0] == listing[n];
    assert StillQueued(first, s, listing[n]);
    assert [s.link.queue[0]] + s.link.queue[1..] == s.link.queue;
    FilesInRound(accepts, first, listing, s, n, s');
  }

  /** The frame in transfer is the next one of the listing. */
  lemma StageIsNext(accepts: Content -> bool, first: State, listing: seq<FrameId>, s: State, n: nat)
    requires first.link.Up? && InRound(accepts, first, listing, s, n) && !s.link.stage.Choosing?
    ensures n < |listing| && s.link.stage.id == listing[n] && s.link.queue == listing[n + 1..]
    ensures listing[n] in first.spool && StillQueued(first, s, listing[n])
  {
    assert Pending(s.link) == [s.link.stage.id] + s.link.queue == listing[n..];
    assert s.link.queue == Pending(s.link)[1..] == listing[n + 1..];
    assert Pending(s.link)[0] == listing[n];
    assert StillQueued(first, s, listing[n]);
  }

  lemma RenameInRound(accepts: Content -> bool, first: State, listing: seq<FrameId>, s: State, n: nat)
    requires first.link.Up? && InRound(accepts, first, listing, s, n) && Distinct(listing) && Enabled(s, Rename)
    ensures InRound(accepts, first, listing, Apply(accepts, s, Rename), n)
  {
    StageIsNext(accepts, first, listing, s, n);
    FilesInRound(accepts, first, listing, s, n, Apply(accepts, s, Rename));
  }

  lemma AcknowledgeInRound(accepts: Content -> bool, first: State, listing: seq<FrameId>, s: State, n: nat)
    requires first.link.Up? && InRound(accepts, first, listing, s, n) && Distinct(listing) && Kept(accepts, s)
    requires Enabled(s, Acknowledge)
    ensures InRound(accepts, first, listing, Apply(accepts, s, Acknowledge), n + 1)
  {
    var s' := Apply(accepts, s, Acknowledge);
    StageIsNext(accepts, first, listing, s, n);
    assert listing[..n + 1] == listing[..n] + [listing[n]];
    forall i | 0 <= i < n + 1
      ensures HandedOn(accepts, first, s', listing[i])
    {
      if i < n {
        assert HandedOn(accepts, first, s, listing[i]);
        if listing[i] in s'.spool {
          var k :| |first.published| <= k < |s.published| && s.published[k].id == listing[i];
          assert s'.published[k].id == listing[i];
        }
      }
    }
    forall i | n + 1 <= i < |listing|
      ensures StillQueued(first, s', listing[i])
    {
      assert StillQueued(first, s, listing[i]);
    }
  }

  /** Events that belong to a pass over one listing. */
  ghost predicate WithinRound(e: Event)
  {
    !e.Break? && !e.GiveUp? && !e.Finish? && !e.Rescan? && !e.Connect?
  }

  /** Every event of a pass keeps to the listing, unless a frame turns out to be invalid, which ends
      the connection. */
  lemma StepInRound(accepts: Content -> bool, first: State, listing: seq<FrameId>, s: State, n: nat, e: Event)
    returns (m: nat)
    requires first.link.Up? && InRound(accepts, first, listing, s, n) && Distinct(listing) && Kept(accepts, s)
    requires Enabled(s, e) && WithinRound(e) && Apply(accepts, s, e).link.Up?
    ensures n <= m && InRound(accepts, first, listing, Apply(accepts, s, e), m)
  {
    m := n;
    match e
    case Publish(_, _) => PublishInRound(accepts, first, listing, s, n, e);
    case Pick => PickInRound(accepts, first, listing, s, n);
    case Rename => RenameInRound(accepts, first, listing, s, n);
    case Acknowledge =>
      AcknowledgeInRound(accepts, first, listing, s, n);
      m := n + 1;
    case Deliver(_) => FilesInRound(accepts, first, listing, s, n, Apply(accepts, s, e));
    case Validate => FilesInRound(accepts, first, listing, s, n, Apply(accepts, s, e));
    case RenameLate(_) => FilesInRound(accepts, first, listing, s, n, Apply(accepts, s, e));
    case DropLate(_) => FilesInRound(accepts, first, listing, s, n, Apply(accepts, s, e));
    case Connect(_, _, _) =>
    case Rescan(_) =>
    case Finish =>
    case Break =>
    case GiveUp =>
  }

  /** A connection that is about to go through a listing of the spool. */
  ghost predicate Starts(s: State, listing: seq<FrameId>)
  {
    s.link.Up? && s.link.stage.Choosing? && s.link.queue == listing && IsListing(listing, s.spool)
  }

  lemma ListedIsQueued(s: State, listing: seq<FrameId>, i: nat)
    requires IsListing(listing, s.spool) && i < |listing|
    ensures StillQueued(s, s, listing[i])
  {
    assert listing[i] in listing;
  }

  lemma StartsInRound(accepts: Content -> bool, s: State, listing: seq<FrameId>)
    requires Starts(s, listing)
    ensures InRound(accepts, s, listing, s, 0) && Distinct(listing)
  {
    assert Sorted(listing);
    SortedIsDistinct(listing);
    forall i | 0 <= i < |listing|
      ensures StillQueued(s, s, listing[i])
    {
      ListedIsQueued(s, listing, i);
    }
    assert s.acked + listing[..0] == s.acked;
  }

  /** While the connection stays up, all events but a new listing belong to the pass. */
  lemma UpIsWithin(accepts: Content -> bool, run: seq<State>, events: seq<Event>, j: nat)
    requires IsRun(accepts, run, events) && j < |events| && run[j].link.Up? && run[j + 1].link.Up?
    ensures Enabled(run[j], events[j]) && run[j + 1] == Apply(accepts, run[j], events[j])
    ensures WithinRound(events[j]) || events[j].Rescan?
    ensures run[j + 1].link.follow == run[j].link.follow && run[j + 1].link.client == run[j].link.client
  {
    assert Enabled(run[j], events[j]) && run[j + 1] == Apply(accepts, run[j], events[j]);
    UpStays(accepts, run[j], events[j]);
  }

  lemma UpStays(accepts: Content -> bool, s: State, e: Event)
    requires Enabled(s, e) && s.link.Up? && Apply(accepts, s, e).link.Up?
    ensures WithinRound(e) || e.Rescan?
    ensures var s' := Apply(accepts, s, e); s'.link.follow == s.link.follow && s'.link.client == s.link.client
  {
  }

  /** The connection stays up from one state to another, and nothing is listed anew. */
  ghost predicate StaysUp(run: seq<State>, events: seq<Event>, a: nat, b: nat)
    requires a <= b < |run| && |run| == |events| + 1
  {
    && (forall j :: a <= j <= b ==> run[j].link.Up?)
    && (forall j :: a <= j < b ==> !events[j].Rescan?)
  }

  /** A part of a run that goes through a listing. */
  ghost predicate IsPass(accepts: Content -> bool, run: seq<State>, events: seq<Event>, a: nat, b: nat,
                         first: State, listing: seq<FrameId>)
  {
    && IsRun(accepts, run, events) && a <= b < |run| && StaysUp(run, events, a, b)
    && first == run[a] && first.link.Up? && Distinct(listing) && InRound(accepts, first, listing, first, 0)
  }

  lemma PassIsKept(accepts: Content -> bool, run: seq<State>, events: seq<Event>, a: nat, b: nat, first: State,
                   listing: seq<FrameId>)
    requires a < b && IsPass(accepts, run, events, a, b, first, listing)
    ensures Kept(accepts, run[b - 1])
  {
    EveryRunIsKept(accepts, run, events, b - 1);
  }

  lemma PassEvent(accepts: Content -> bool, run: seq<State>, events: seq<Event>, a: nat, b: nat, first: State,
                  listing: seq<FrameId>, s: State, e: Event)
    requires a < b && IsPass(accepts, run, events, a, b, first, listing) && s == run[b - 1] && e == events[b - 1]
    ensures Enabled(s, e) && WithinRound(e) && Apply(accepts, s, e) == run[b] && run[b].link.Up?
  {
    UpIsWithin(accepts, run, events, b - 1);
  }

  lemma PassBefore(accepts: Content -> bool, run: seq<State>, events: seq<Event>, a: nat, b: nat, first: State,
                   listing: seq<FrameId>)
    requires a < b && IsPass(accepts, run, events, a, b, first, listing)
    ensures IsPass(accepts, run, events, a, b - 1, first, listing)
  {
  }

  /** What one event of a pass keeps, a pass keeps. */
  lemma {:induction false} RunInRound(accepts: Content -> bool, run: seq<State>, events: seq<Event>, a: nat, b: nat,
                                      first: State, listing: seq<FrameId>) returns (n: nat)
    requires IsPass(accepts, run, events, a, b, first, listing)
    ensures InRound(accepts, first, listing, run[b], n)
    decreases b
  {
    n := 0;
    if a < b {
      PassBefore(accepts, run, events, a, b, first, listing);
      n := RunInRound(accepts, run, events, a, b - 1, first, listing);
      PassIsKept(accepts, run, events, a, b, first, listing);
      PassEvent(accepts, run, events, a, b, first, listing, run[b - 1], events[b - 1]);
      n := StepInRound(accepts, first, listing, run[b - 1], n, events[b - 1]);
    }
  }

  /** Everything on the listing was handed over: acknowledged in order, held by the client, and gone
      from the spool unless its name was published again. */
  ghost predicate AllHandedOn(accepts: Content -> bool, first: State, s: State, listing: seq<FrameId>)
  {
    && s.acked == first.acked + listing
    && forall i :: 0 <= i < |listing| ==> HandedOn(accepts, first, s, listing[i])
  }

  /** When a connection has come to the end of a listing, whatever was published in the meantime,
      every frame of the listing has been handed over. */
  lemma PassIsComplete(accepts: Content -> bool, run: seq<State>, events: seq<Event>, a: nat, b: nat,
                       listing: seq<FrameId>)
    requires IsRun(accepts, run, events) && a <= b < |run| && Starts(run[a], listing) && StaysUp(run, events, a, b)
    requires run[b].link.Up? && run[b].link.stage.Choosing? && run[b].link.queue == []
    ensures AllHandedOn(accepts, run[a], run[b], listing)
  {
    StartsInRound(accepts, run[a], listing);
    var n := RunInRound(accepts, run, events, a, b, run[a], listing);
    assert |listing[n..]| == 0;
    assert listing[..n] == listing;
  }

  /** A part of a run during which the connection stays up. */
  ghost predicate IsUp(accepts: Content -> bool, run: seq<State>, events: seq<Event>, a: nat, b: nat)
  {
    IsRun(accepts, run, events) && a <= b < |run| && forall j :: a <= j <= b ==> run[j].link.Up?
  }

  lemma UpBefore(accepts: Content -> bool, run: seq<State>, events: seq<Event>, a: nat, b: nat)
    requires a < b && IsUp(accepts, run, events, a, b)
    ensures IsUp(accepts, run, events, a, b - 1) && b - 1 < |events|
    ensures run[b - 1].link.Up? && run[b].link.Up? && run[b].link.follow == run[b - 1].link.follow
  {
    UpIsWithin(accepts, run, events, b - 1);
  }

  /** A connection keeps its mode. */
  lemma {:induction false} FollowStays(accepts: Content -> bool, run: seq<State>, events: seq<Event>, a: nat, b: nat)
    requires IsUp(accepts, run, events, a, b)
    ensures run[a].link.Up? && run[b].link.Up? && run[b].link.follow == run[a].link.follow
    decreases b
  {
    if a < b {
      UpBefore(accepts, run, events, a, b);
      FollowStays(accepts, run, events, a, b - 1);
    }
  }

  /** A client that asks for the backlog is dismissed only after every frame that was listed when it
      connected has been handed over to it. */
  lemma BacklogIsHandedOver(accepts: Content -> bool, run: seq<State>, events: seq<Event>, a: nat, b: nat,
                            client: nat, listing: seq<FrameId>)
    requires IsRun(accepts, run, events) && a < b < |events|
    requires events[a] == Connect(client, false, listing) && events[b] == Finish
    requires forall j :: a < j <= b ==> run[j].link.Up?
    ensures run[a + 1].link.Up? && run[a + 1].link.client == client && run[a + 1].spool == run[a].spool
    ensures IsListing(listing, run[a].spool) && AllHandedOn(accepts, run[a + 1], run[b], listing)
  {
    assert Enabled(run[a], events[a]) && run[a + 1] == Apply(accepts, run[a], events[a]);
    assert Enabled(run[b], events[b]);
    forall j | a + 1 <= j < b
      ensures !events[j].Rescan?
    {
      assert Enabled(run[j], events[j]);
      FollowStays(accepts, run, events, a + 1, j);
    }
    PassIsComplete(accepts, run, events, a + 1, b, listing);
  }

  // ----- steps that get something done, and how many of them there can be

  /** Events of a connection that is left alone: nobody connects, publishes or breaks off. */
  ghost predicate Quiet(e: Event)
  {
    !e.Publish? && !e.Connect? && !e.Break? && !e.GiveUp?
  }

  /** A possible event that is more than looking once again into an empty spool. */
  ghost predicate Useful(s: State, e: Event)
  {
    Enabled(s, e) && Quiet(e) && !(e.Rescan? && s.spool == map[])
  }

  ghost predicate Stuck(s: State)
  {
    forall e :: !Useful(s, e)
  }

  /** Everything in the queue is in the spool, once, and not in transfer already. */
  ghost predicate Waiting(s: State)
  {
    s.link.Up? ==>
      && Distinct(s.link.queue)
      && (forall i :: 0 <= i < |s.link.queue| ==> s.link.queue[i] in s.spool)
      && (!s.link.stage.Choosing? ==> s.link.stage.id !in s.link.queue)
  }

  lemma ListingWaits(s: State, listing: seq<FrameId>)
    requires IsListing(listing, s.spool)
    ensures Distinct(listing) && forall i :: 0 <= i < |listing| ==> listing[i] in s.spool
  {
    assert Sorted(listing);
    SortedIsDistinct(listing);
    assert forall i :: 0 <= i < |listing| ==> listing[i] in listing;
  }

  lemma StepWaits(accepts: Content -> bool, s: State, e: Event)
    requires Waiting(s) && Enabled(s, e)
    ensures Waiting(Apply(accepts, s, e))
  {
    match e
    case Connect(_, _, listing) => ListingWaits(s, listing);
    case Rescan(listing) => ListingWaits(s, listing);
    case _ =>
  }

  lemma {:induction false} EveryRunWaits(accepts: Content -> bool, run: seq<State>, events: seq<Event>, k: nat)
    requires IsRun(accepts, run, events) && k < |run|
    ensures Waiting(run[k])
    decreases k
  {
    if k > 0 {
      EveryRunWaits(accepts, run, events, k - 1);
      StepWaits(accepts, run[k - 1], events[k - 1]);
    }
  }

  /** What it takes to hand over a spool: for each frame its bytes and five steps more. */
  ghost function SpoolWork(spool: map<FrameId, Content>): nat
    decreases |spool|
  {
    if spool == map[] then 0
    else
      var id :| id in spool;
      |spool[id]| + 5 + SpoolWork(spool - {id})
  }

  lemma {:induction false} WorkWithout(spool: map<FrameId, Content>, id: FrameId)
    requires id in spool
    ensures SpoolWork(spool) == |spool[id]| + 5 + SpoolWork(spool - {id})
    decreases |spool|
  {
    var other :| other in spool && SpoolWork(spool) == |spool[other]| + 5 + SpoolWork(spool - {other});
    if other != id {
      WorkWithout(spool - {other}, id);
      WorkWithout(spool - {id}, other);
      assert spool - {other} - {id} == spool - {id} - {other};
    }
  }

  ghost predicate Idle(s: State)
  {
    s.link.Up? && s.link.stage.Choosing? && s.link.queue == []
  }

  /** How far the frame in transfer has come. */
  ghost function Done(stage: Stage, spool: map<FrameId, Content>): nat
  {
    match stage
    case Choosing => 0
    case Receiving(_, _, part) => 1 + |part|
    case Stored(id) => if id in spool then |spool[id]| + 2 else 0
    case Confirmed(id) => if id in spool then |spool[id]| + 3 else 0
  }

  /** How many useful steps are left at most. */
  ghost function Work(s: State): int
  {
    |s.late| + if s.link.Down? then 0
               else SpoolWork(s.spool) + (if Idle(s) then 1 else 0) - Done(s.link.stage, s.spool)
  }

  lemma WorkIsNatural(accepts: Content -> bool, s: State)
    requires Kept(accepts, s)
    ensures Work(s) >= |s.late|
    ensures s.link.Up? && !s.link.stage.Choosing? ==> Work(s) > |s.late|
  {
    if s.link.Up? && !s.link.stage.Choosing? {
      WorkWithout(s.spool, s.link.stage.id);
    }
  }

  lemma LateWork(accepts: Content -> bool, s: State, e: Event)
    requires Enabled(s, e) && (e.RenameLate? || e.DropLate?)
    ensures Work(Apply(accepts, s, e)) == Work(s) - 1
  {
    assert |s.late - {e.copy}| == |s.late| - 1;
  }

  lemma AcknowledgeWork(accepts: Content -> bool, s: State)
    requires Kept(accepts, s) && Enabled(s, Acknowledge)
    ensures Work(Apply(accepts, s, Acknowledge)) < Work(s)
  {
    WorkWithout(s.spool, s.link.stage.id);
  }

  lemma RescanWork(accepts: Content -> bool, s: State, e: Event)
    requires Enabled(s, e) && e.Rescan? && s.spool != map[]
    ensures Work(Apply(accepts, s, e)) < Work(s)
  {
    var id :| id in s.spool;
    assert id in e.listing;
  }

  /** Every useful step leaves less to do. */
  lemma UsefulStepLowersWork(accepts: Content -> bool, s: State, e: Event)
    requires Kept(accepts, s) && Waiting(s) && Useful(s, e)
    ensures Work(Apply(accepts, s, e)) < Work(s)
  {
    WorkIsNatural(accepts, s);
    match e
    case Acknowledge => AcknowledgeWork(accepts, s);
    case Rescan(_) => RescanWork(accepts, s, e);
    case RenameLate(_) => LateWork(accepts, s, e);
    case DropLate(_) => LateWork(accepts, s, e);
    case Pick => assert s.link.queue[0] in s.spool;
    case Deliver(_) =>
    case Rename =>
    case Validate =>
    case Finish =>
    case Publish(_, _) =>
    case Connect(_, _, _) =>
    case Break =>
    case GiveUp =>
  }

  /** Looking into an empty spool changes nothing. */
  lemma PollChangesNothing(accepts: Content -> bool, s: State, e: Event)
    requires Enabled(s, e) && Quiet(e) && !Useful(s, e)
    ensures Apply(accepts, s, e) == s
  {
    FirstIsListed(e.listing);
  }

  /** The useful steps of a run from some state on. */
  ghost function UsefulSteps(run: seq<State>, events: seq<Event>, a: nat): nat
    requires |run| == |events| + 1 && a <= |events|
    decreases |events| - a
  {
    if a == |events| then 0
    else (if Useful(run[a], events[a]) then 1 else 0) + UsefulSteps(run, events, a + 1)
  }

  /** In either mode a connection that is left alone makes only so many useful steps. */
  lemma {:induction false} UsefulStepsAreFew(accepts: Content -> bool, run: seq<State>, events: seq<Event>, a: nat)
    requires IsRun(accepts, run, events) && a < |run| && forall j :: a <= j < |events| ==> Quiet(events[j])
    ensures 0 <= Work(run[|events|]) && UsefulSteps(run, events, a) + Work(run[|events|]) <= Work(run[a])
    decreases |events| - a
  {
    EveryRunIsKept(accepts, run, events, a);
    WorkIsNatural(accepts, run[a]);
    if a < |events| {
      assert Enabled(run[a], events[a]) && run[a + 1] == Apply(accepts, run[a], events[a]);
      UsefulStepsAreFew(accepts, run, events, a + 1);
      if Useful(run[a], events[a]) {
        EveryRunWaits(accepts, run, events, a);
        UsefulStepLowersWork(accepts, run[a], events[a]);
      } else {
        PollChangesNothing(accepts, run[a], events[a]);
      }
    }
  }

  // ----- a connection that is left alone

  /** A connection that is about to go through its spool, or idles until it looks there again. */
  ghost predicate Ready(s: State, listing: seq<FrameId>)
  {
    && s.link.Up? && s.link.stage.Choosing? && IsListing(listing, s.spool)
    && (s.link.queue == listing || (s.link.follow && s.link.queue == []))
  }

  ghost predicate AllValid(accepts: Content -> bool, spool: map<FrameId, Content>)
  {
    forall id :: id in spool ==> accepts(spool[id])
  }

  /** Not begun: the connection idles over the spool as it was. */
  ghost predicate Idles(first: State, s: State)
  {
    Idle(first) && first.link.follow && s.link == first.link && s.spool == first.spool && s.acked == first.acked
    && s.published == first.published
  }

  /** Under way: so many frames are handed over, and the spool holds the others. */
  ghost predicate Passes(accepts: Content -> bool, first: State, listing: seq<FrameId>, s: State, n: nat)
    requires first.link.Up?
  {
    && InRound(accepts, first, listing, s, n)
    && forall id :: id in s.spool ==> id in listing[n..]
  }

  /** Finished: the client was dismissed with everything. */
  ghost predicate Dismissed(accepts: Content -> bool, first: State, listing: seq<FrameId>, s: State)
  {
    s.link.Down? && first.link.Up? && !first.link.follow && s.spool == map[] && AllHandedOn(accepts, first, s, listing)
  }

  ghost predicate OnTheWay(accepts: Content -> bool, first: State, listing: seq<FrameId>, s: State)
  {
    && first.link.Up? && NothingLate(s, first.link.client)
    && (Idles(first, s) || (exists n :: Passes(accepts, first, listing, s, n))
        || Dismissed(accepts, first, listing, s))
  }

  lemma ReadyIsOnTheWay(accepts: Content -> bool, s: State, listing: seq<FrameId>)
    requires Ready(s, listing) && Kept(accepts, s)
    ensures OnTheWay(accepts, s, listing, s)
  {
    if s.link.queue == listing {
      StartsInRound(accepts, s, listing);
      assert listing[0..] == listing;
      assert Passes(accepts, s, listing, s, 0);
    }
  }

  /** The same files under another queue. */
  lemma ListedInRound(accepts: Content -> bool, first: State, listing: seq<FrameId>, s: State)
    requires IsListing(listing, first.spool) && first.link.Up?
    requires s.spool == first.spool && s.acked == first.acked && s.published == first.published
    requires s.link == first.link.(queue := listing) && first.link.stage.Choosing?
    ensures Passes(accepts, first, listing, s, 0)
  {
    forall i | 0 <= i < |listing|
      ensures StillQueued(first, s, listing[i])
    {
      ListedIsQueued(first, listing, i);
    }
    assert s.acked == first.acked + listing[..0];
    assert listing[0..] == listing;
  }

  lemma IdlesOn(accepts: Content -> bool, first: State, listing: seq<FrameId>, s: State, e: Event)
    requires Ready(first, listing) && Idles(first, s) && NothingLate(s, first.link.client)
    requires Enabled(s, e) && Quiet(e)
    ensures OnTheWay(accepts, first, listing, Apply(accepts, s, e))
  {
    if e.Rescan? {
      ListingIsUnique(e.listing, listing, s.spool);
      ListedInRound(accepts, first, listing, Apply(accepts, s, e));
    }
  }

  /** At the end of the listing the spool is empty. */
  lemma EndOfListing(accepts: Content -> bool, first: State, listing: seq<FrameId>, s: State, n: nat)
    requires first.link.Up? && Passes(accepts, first, listing, s, n) && Idle(s)
    ensures n == |listing| && s.spool == map[] && AllHandedOn(accepts, first, s, listing)
  {
    assert |listing[n..]| == 0;
    assert listing[..n] == listing;
    assert forall id :: id !in s.spool;
  }

  lemma PassFinishes(accepts: Content -> bool, first: State, listing: seq<FrameId>, s: State, n: nat)
    requires first.link.Up? && Passes(accepts, first, listing, s, n) && Enabled(s, Finish)
    ensures Dismissed(accepts, first, listing, Apply(accepts, s, Finish))
  {
    EndOfListing(accepts, first, listing, s, n);
    forall i | 0 <= i < |listing|
      ensures HandedOn(accepts, first, Apply(accepts, s, Finish), listing[i])
    {
      assert HandedOn(accepts, first, s, listing[i]);
    }
  }

  /** A frame that was valid in the spool passes its validation. */
  lemma ValidIsConfirmed(accepts: Content -> bool, first: State, listing: seq<FrameId>, s: State, n: nat)
    requires first.link.Up? && InRound(accepts, first, listing, s, n) && Kept(accepts, s)
    requires AllValid(accepts, first.spool) && Enabled(s, Validate)
    ensures Apply(accepts, s, Validate).link.Up?
  {
    StageIsNext(accepts, first, listing, s, n);
  }

  lemma RestShrinks(listing: seq<FrameId>, n: nat, m: nat, spool: map<FrameId, Content>)
    requires n <= m <= |listing| && Distinct(listing)
    requires forall id :: id in spool ==> id in listing[n..]
    requires forall i :: n <= i < m ==> listing[i] !in spool
    ensures forall id :: id in spool ==> id in listing[m..]
  {
    forall id | id in spool
      ensures id in listing[m..]
    {
      var k :| 0 <= k < |listing[n..]| && listing[n..][k] == id;
      assert listing[n + k] == id;
      assert listing[m..][n + k - m] == id;
    }
  }

  /** Within a pass every quiet event that neither ends it nor lists anew keeps to it. */
  lemma PassGoesOn(accepts: Content -> bool, first: State, listing: seq<FrameId>, s: State, n: nat, e: Event)
    returns (m: nat)
    requires first.link.Up? && Passes(accepts, first, listing, s, n) && Distinct(listing) && Kept(accepts, s)
    requires AllValid(accepts, first.spool) && Enabled(s, e) && Quiet(e) && !e.Finish? && !e.Rescan?
    ensures Passes(accepts, first, listing, Apply(accepts, s, e), m)
  {
    if e.Validate? {
      ValidIsConfirmed(accepts, first, listing, s, n);
    }
    if e.Acknowledge? {
      StageIsNext(accepts, first, listing, s, n);
      AcknowledgeInRound(accepts, first, listing, s, n);
      m := n + 1;
      RestShrinks(listing, n, m, Apply(accepts, s, e).spool);
    } else {
      m := StepInRound(accepts, first, listing, s, n, e);
      if m > n {
        assert false;
      }
    }
  }

  lemma RescanInPass(accepts: Content -> bool, first: State, listing: seq<FrameId>, s: State, n: nat, e: Event)
    requires first.link.Up? && Passes(accepts, first, listing, s, n) && Enabled(s, e) && e.Rescan?
    ensures Passes(accepts, first, listing, Apply(accepts, s, e), n)
  {
    EndOfListing(accepts, first, listing, s, n);
    FirstIsListed(e.listing);
    assert Apply(accepts, s, e) == s;
  }

  lemma PassIsOnTheWay(accepts: Content -> bool, first: State, listing: seq<FrameId>, s: State, n: nat, e: Event)
    requires first.link.Up? && Passes(accepts, first, listing, s, n) && Distinct(listing) && Kept(accepts, s)
    requires NothingLate(s, first.link.client) && AllValid(accepts, first.spool) && Enabled(s, e) && Quiet(e)
    ensures OnTheWay(accepts, first, listing, Apply(accepts, s, e))
  {
    if e.Finish? {
      PassFinishes(accepts, first, listing, s, n);
    } else if e.Rescan? {
      RescanInPass(accepts, first, listing, s, n, e);
    } else {
      var m := PassGoesOn(accepts, first, listing, s, n, e);
    }
  }

  lemma DismissedStays(accepts: Content -> bool, first: State, listing: seq<FrameId>, s: State, e: Event)
    requires Dismissed(accepts, first, listing, s) && NothingLate(s, first.link.client) && Enabled(s, e) && Quiet(e)
    ensures Dismissed(accepts, first, listing, Apply(accepts, s, e))
    ensures NothingLate(Apply(accepts, s, e), first.link.client)
  {
    var s' := Apply(accepts, s, e);
    forall i | 0 <= i < |listing|
      ensures HandedOn(accepts, first, s', listing[i])
    {
      assert HandedOn(accepts, first, s, listing[i]);
    }
  }

  lemma StepOnTheWay(accepts: Content -> bool, first: State, listing: seq<FrameId>, s: State, e: Event)
    requires Ready(first, listing) && AllValid(accepts, first.spool) && OnTheWay(accepts, first, listing, s)
    requires Kept(accepts, s) && Enabled(s, e) && Quiet(e)
    ensures OnTheWay(accepts, first, listing, Apply(accepts, s, e))
  {
    ListingWaits(first, listing);
    if Idles(first, s) {
      IdlesOn(accepts, first, listing, s, e);
    } else if n :| Passes(accepts, first, listing, s, n) {
      PassIsOnTheWay(accepts, first, listing, s, n, e);
    } else {
      DismissedStays(accepts, first, listing, s, e);
    }
  }

  lemma {:induction false} RunOnTheWay(accepts: Content -> bool, run: seq<State>, events: seq<Event>, a: nat, b: nat,
                                       listing: seq<FrameId>)
    requires IsRun(accepts, run, events) && a <= b < |run| && Ready(run[a], listing)
    requires AllValid(accepts, run[a].spool) && forall j :: a <= j < |events| ==> Quiet(events[j])
    ensures OnTheWay(accepts, run[a], listing, run[b])
    decreases b
  {
    if a == b {
      EveryRunIsKept(accepts, run, events, a);
      ReadyIsOnTheWay(accepts, run[a], listing);
    } else {
      RunOnTheWay(accepts, run, events, a, b - 1, listing);
      EveryRunIsKept(accepts, run, events, b - 1);
      StepOnTheWay(accepts, run[a], listing, run[b - 1], events[b - 1]);
    }
  }

  /** In the middle of a pass something useful can always be done. */
  lemma PassIsUseful(accepts: Content -> bool, first: State, listing: seq<FrameId>, s: State, n: nat)
    returns (e: Event)
    requires first.link.Up? && InRound(accepts, first, listing, s, n) && Kept(accepts, s) && !Idle(s)
    ensures Useful(s, e)
  {
    match s.link.stage
    case Choosing => e := Pick;
    case Receiving(id, size, part) => e := if |part| == size then Rename else Deliver(1);
    case Stored(_) => e := Validate;
    case Confirmed(_) => e := Acknowledge;
  }

  /** What a connection has done that was left alone until nothing useful is left to do. */
  ghost predicate AllDelivered(accepts: Content -> bool, first: State, listing: seq<FrameId>, s: State)
    requires first.link.Up?
  {
    && s.spool == map[] && s.acked == first.acked + listing
    && (forall id :: id in first.spool ==> Holds(accepts, s, first.link.client, id, first.spool[id]))
    && (if first.link.follow then Idle(s) && s.link.client == first.link.client && s.link.follow else s.link.Down?)
  }

  lemma HandedOnIsDelivered(accepts: Content -> bool, first: State, listing: seq<FrameId>, s: State)
    requires first.link.Up? && IsListing(listing, first.spool) && AllHandedOn(accepts, first, s, listing)
    ensures forall id :: id in first.spool ==> Holds(accepts, s, first.link.client, id, first.spool[id])
  {
    forall id | id in first.spool
      ensures Holds(accepts, s, first.link.client, id, first.spool[id])
    {
      assert id in listing;
      var i :| 0 <= i < |listing| && listing[i] == id;
      assert HandedOn(accepts, first, s, listing[i]);
    }
  }

  lemma StuckIsDelivered(accepts: Content -> bool, first: State, listing: seq<FrameId>, s: State)
    requires Ready(first, listing) && OnTheWay(accepts, first, listing, s) && Kept(accepts, s) && Stuck(s)
    ensures AllDelivered(accepts, first, listing, s)
  {
    if Idles(first, s) {
      IdleStuck(first, listing, s);
    } else if n :| Passes(accepts, first, listing, s, n) {
      if !Idle(s) {
        var e := PassIsUseful(accepts, first, listing, s, n);
        assert false;
      }
      EndOfListing(accepts, first, listing, s, n);
      assert !Useful(s, Finish);
      HandedOnIsDelivered(accepts, first, listing, s);
    } else {
      HandedOnIsDelivered(accepts, first, listing, s);
    }
  }

  /** A connection that idles over frames looks there again. */
  lemma IdleStuck(first: State, listing: seq<FrameId>, s: State)
    requires Ready(first, listing) && Idles(first, s) && Stuck(s)
    ensures s.spool == map[] && listing == []
  {
    assert !Useful(s, Rescan(listing));
    FirstIsListed(listing);
  }

  /** Progress, in either mode: a connection that goes through its spool, or idles until it looks
      there again, and is left alone until nothing useful can be done any more, has handed over
      everything that was queued, in the order of the names. A following client stays connected,
      the other one has been dismissed. */
  lemma LeftAloneAllIsDelivered(accepts: Content -> bool, run: seq<State>, events: seq<Event>, a: nat,
                                listing: seq<FrameId>)
    requires IsRun(accepts, run, events) && a < |run| && Ready(run[a], listing) && AllValid(accepts, run[a].spool)
    requires forall j :: a <= j < |events| ==> Quiet(events[j])
    requires Stuck(run[|events|])
    ensures AllDelivered(accepts, run[a], listing, run[|events|])
  {
    RunOnTheWay(accepts, run, events, a, |events|, listing);
    EveryRunIsKept(accepts, run, events, |events|);
    StuckIsDelivered(accepts, run[a], listing, run[|events|]);
  }

  /** In every state of every run the spool can be listed. */
  lemma SpoolCanBeListed(accepts: Content -> bool, run: seq<State>, events: seq<Event>, k: nat)
    returns (listing: seq<FrameId>)
    requires IsRun(accepts, run, events) && k < |run|
    ensures IsListing(listing, run[k].spool)
  {
    SpoolIsNumbered(accepts, run, events, k);
    listing := ListingExists(run[k].spool);
  }

  lemma {:induction false} SpoolIsNumbered(accepts: Content -> bool, run: seq<State>, events: seq<Event>, k: nat)
    requires IsRun(accepts, run, events) && k < |run|
    ensures forall id :: id in run[k].spool ==> id.sequence < SEQUENCE_LIMIT
    decreases k
  {
    if k > 0 {
      SpoolIsNumbered(accepts, run, events, k - 1);
      assert Enabled(run[k - 1], events[k - 1]) && run[k] == Apply(accepts, run[k - 1], events[k - 1]);
    }
  }

  /** A client whose server has gone may still keep the frame that it had received in full; the
      frame stays queued for others as well. */
  lemma LateFrameArrives(accepts: Content -> bool, s: State)
    requires Kept(accepts, s) && Enabled(s, GiveUp)
    ensures var id, client := s.link.stage.id, s.link.client;
            var left := Apply(accepts, s, GiveUp);
            var copy := LateCopy(client, id, s.link.stage.part);
            && id in s.spool && left.link.Down? && Enabled(left, RenameLate(copy))
            && Apply(accepts, left, RenameLate(copy))
               == s.(link := Down, stores := s.stores[(client, id) := s.spool[id]])
  {
    var copy := LateCopy(s.link.client, s.link.stage.id, s.link.stage.part);
    assert copy !in s.late && copy.content == s.spool[copy.id];
    assert s.late + {copy} - {copy} == s.late;
  }
}
