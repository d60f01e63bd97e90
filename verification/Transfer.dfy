/** The transfer of queued frames as a protocol. A server sends the frames of its spool to one
    client at a time and removes a frame only after the client has acknowledged its name; the
    connection may break between any two steps, and new frames may be published at any time. A
    client is one process with a directory of its own: it has done with one connection before it
    opens the next. */
module Transfer {
  import opened ByteFields
  import opened FrameNames

  datatype FrameId = FrameId(session: string, sequence: nat)

  type Content = seq<Byte>

  datatype Publication = Publication(id: FrameId, content: Content)

  /** What the two ends of a connection are doing: between frames; with a part of the frame
      received; with the whole file renamed into place; with the acknowledgement on its way. */
  datatype Stage =
    | Choosing
    | Receiving(id: FrameId, size: nat, part: Content)
    | Stored(id: FrameId)
    | Confirmed(id: FrameId)

  datatype Link = Down | Up(client: nat, follow: bool, queue: seq<FrameId>, stage: Stage)

  /** A frame that a client has received in full and has not renamed yet, while the server has
      already given up the connection. */
  datatype LateCopy = LateCopy(client: nat, id: FrameId, content: Content)

  /** The spool, the output directories of all clients, the copies that are still to be renamed,
      and the connection. The last two fields record what was published and in which order names
      were acknowledged. */
  datatype State = State(spool: map<FrameId, Content>, stores: map<(nat, FrameId), Content>, late: set<LateCopy>,
                         link: Link, published: seq<Publication>, acked: seq<FrameId>)

  datatype Event =
    | Publish(id: FrameId, content: Content)
    | Connect(client: nat, follow: bool, listing: seq<FrameId>)
    | Pick
    | Deliver(bytes: nat)
    | Rename
    | Validate
    | Acknowledge
    | Rescan(listing: seq<FrameId>)
    | Finish
    | Break
    | GiveUp
    | RenameLate(copy: LateCopy)
    | DropLate(copy: LateCopy)

  const EMPTY := State(map[], map[], {}, Down, [], [])

  function NameOf(id: FrameId): string
  {
    MakeFrameName(id.session, id.sequence)
  }

  /** All frames of the spool in the order of their names. */
  ghost predicate IsListing(listing: seq<FrameId>, spool: map<FrameId, Content>)
  {
    && (forall id :: id in listing <==> id in spool)
    && (forall i, j :: 0 <= i < j < |listing| ==> Less(NameOf(listing[i]), NameOf(listing[j])))
  }

  ghost predicate NothingLate(s: State, client: nat)
  {
    forall copy :: copy in s.late ==> copy.client != client
  }

  ghost predicate Enabled(s: State, e: Event)
  {
    match e
    case Publish(id, content) => id !in s.spool && content != [] && id.sequence < SEQUENCE_LIMIT
    case Connect(client, _, listing) => s.link.Down? && IsListing(listing, s.spool) && NothingLate(s, client)
    case Pick => s.link.Up? && s.link.stage.Choosing? && s.link.queue != []
    case Deliver(bytes) => s.link.Up? && s.link.stage.Receiving? && s.link.stage.id in s.spool
                           && 0 < bytes && |s.link.stage.part| + bytes <= s.link.stage.size
                           && s.link.stage.size <= |s.spool[s.link.stage.id]|
    case Rename => s.link.Up? && s.link.stage.Receiving? && |s.link.stage.part| == s.link.stage.size
    case Validate => s.link.Up? && s.link.stage.Stored? && (s.link.client, s.link.stage.id) in s.stores
    case Acknowledge => s.link.Up? && s.link.stage.Confirmed?
    case Rescan(listing) => s.link.Up? && s.link.follow && s.link.stage.Choosing? && s.link.queue == []
                            && IsListing(listing, s.spool)
    case Finish => s.link.Up? && !s.link.follow && s.link.stage.Choosing? && s.link.queue == []
    case Break => s.link.Up?
    case GiveUp => s.link.Up? && s.link.stage.Receiving? && |s.link.stage.part| == s.link.stage.size
    case RenameLate(copy) => copy in s.late
    case DropLate(copy) => copy in s.late
  }

  /** The effect of an event. A frame that fails its validation ends the connection; the part of
      a frame that was being received is thrown away with the connection, unless it is complete:
      then the client may still rename it after the server has gone, or fail to. */
  ghost function Apply(accepts: Content -> bool, s: State, e: Event): State
    requires Enabled(s, e)
  {
    match e
    case Publish(id, content) =>
      s.(spool := s.spool[id := content], published := s.published + [Publication(id, content)])
    case Connect(client, follow, listing) => s.(link := Up(client, follow, listing, Choosing))
    case Pick =>
      var id := s.link.queue[0];
      s.(link := s.link.(queue := s.link.queue[1..],
                         stage := if id in s.spool then Receiving(id, |s.spool[id]|, []) else Choosing))
    case Deliver(bytes) =>
      var stage := s.link.stage;
      var chunk := s.spool[stage.id][|stage.part|..|stage.part| + bytes];
      s.(link := s.link.(stage := stage.(part := stage.part + chunk)))
    case Rename =>
      var stage := s.link.stage;
      s.(stores := s.stores[(s.link.client, stage.id) := stage.part], link := s.link.(stage := Stored(stage.id)))
    case Validate =>
      var id := s.link.stage.id;
      if accepts(s.stores[(s.link.client, id)]) then s.(link := s.link.(stage := Confirmed(id)))
      else s.(link := Down)
    case Acknowledge =>
      var id := s.link.stage.id;
      s.(spool := s.spool - {id}, link := s.link.(stage := Choosing), acked := s.acked + [id])
    case Rescan(listing) => s.(link := s.link.(queue := listing))
    case Finish => s.(link := Down)
    case Break => s.(link := Down)
    case GiveUp =>
      var stage := s.link.stage;
      s.(late := s.late + {LateCopy(s.link.client, stage.id, stage.part)}, link := Down)
    case RenameLate(copy) =>
      s.(stores := s.stores[(copy.client, copy.id) := copy.content], late := s.late - {copy})
    case DropLate(copy) => s.(late := s.late - {copy})
  }

  // ----- nothing is lost

  /** A later publication used the same name for different content. */
  ghost predicate Replaced(published: seq<Publication>, i: nat)
    requires i < |published|
  {
    exists j :: i < j < |published| && published[j].id == published[i].id
                && published[j].content != published[i].content
  }

  ghost predicate HeldBy(accepts: Content -> bool, s: State, client: nat, p: Publication)
  {
    (client, p.id) in s.stores && s.stores[(client, p.id)] == p.content && accepts(p.content)
  }

  ghost predicate Queued(s: State, p: Publication)
  {
    p.id in s.spool && s.spool[p.id] == p.content
  }

  /** The frame is still queued, or whole and valid on some client's disk. */
  ghost predicate Safe(accepts: Content -> bool, s: State, p: Publication)
  {
    Queued(s, p) || exists client :: HeldBy(accepts, s, client, p)
  }

  /** The client holds the frame, and no late copy of other content is about to take its place. */
  ghost predicate HeldForGood(accepts: Content -> bool, s: State, client: nat, p: Publication)
  {
    && HeldBy(accepts, s, client, p)
    && forall copy :: copy in s.late && copy.client == client && copy.id == p.id ==> copy.content == p.content
  }

  ghost predicate SafeForGood(accepts: Content -> bool, s: State, p: Publication)
  {
    Queued(s, p) || exists client :: HeldForGood(accepts, s, client, p)
  }

  ghost predicate AllSafe(accepts: Content -> bool, s: State)
  {
    forall i :: 0 <= i < |s.published| && !Replaced(s.published, i) ==> SafeForGood(accepts, s, s.published[i])
  }

  /** What the queue holds under a name is the content of its latest publication. */
  ghost predicate QueueIsLatest(s: State)
  {
    forall i :: 0 <= i < |s.published| && !Replaced(s.published, i) && s.published[i].id in s.spool ==>
      s.spool[s.published[i].id] == s.published[i].content
  }

  /** The frame in transfer stays queued, and what has arrived of it is a prefix of it. */
  ghost predicate StageSound(accepts: Content -> bool, s: State)
  {
    s.link.Up? ==>
      var key := (s.link.client, if s.link.stage.Choosing? then FrameId("", 0) else s.link.stage.id);
      && NothingLate(s, s.link.client)
      && match s.link.stage
         case Choosing => true
         case Receiving(id, size, part) => id in s.spool && size == |s.spool[id]| && part <= s.spool[id]
         case Stored(id) => id in s.spool && key in s.stores && s.stores[key] == s.spool[id]
         case Confirmed(id) =>
           id in s.spool && key in s.stores && s.stores[key] == s.spool[id] && accepts(s.spool[id])
  }

  ghost predicate Kept(accepts: Content -> bool, s: State)
  {
    AllSafe(accepts, s) && QueueIsLatest(s) && StageSound(accepts, s)
  }

  lemma KeptIsSafe(accepts: Content -> bool, s: State, i: nat)
    requires Kept(accepts, s) && i < |s.published| && !Replaced(s.published, i)
    ensures Safe(accepts, s, s.published[i])
  {
    assert SafeForGood(accepts, s, s.published[i]);
    if client :| HeldForGood(accepts, s, client, s.published[i]) {
      assert HeldBy(accepts, s, client, s.published[i]);
    }
  }

  /** A further publication takes no safety away. */
  lemma ReplacedStays(published: seq<Publication>, p: Publication, i: nat)
    requires i < |published|
    ensures Replaced(published, i) ==> Replaced(published + [p], i)
    ensures p.id == published[i].id && p.content != published[i].content ==> Replaced(published + [p], i)
  {
    var more := published + [p];
    if j :| i < j < |published| && published[j].id == published[i].id && published[j].content != published[i].content {
      assert more[j] == published[j];
    }
    assert more[|published|] == p;
  }

  lemma PublishKeeps(accepts: Content -> bool, s: State, e: Event)
    requires Kept(accepts, s) && e.Publish? && Enabled(s, e)
    ensures Kept(accepts, Apply(accepts, s, e))
  {
    var s' := Apply(accepts, s, e);
    forall i | 0 <= i < |s'.published| && !Replaced(s'.published, i)
      ensures SafeForGood(accepts, s', s'.published[i])
      ensures s'.published[i].id in s'.spool ==> s'.spool[s'.published[i].id] == s'.published[i].content
    {
      if i < |s.published| {
        ReplacedStays(s.published, Publication(e.id, e.content), i);
        FilesStay(accepts, s, s', s.published[i]);
      }
    }
  }

  /** A frame in files that do not change stays safe. */
  lemma FilesStay(accepts: Content -> bool, s: State, s': State, p: Publication)
    requires SafeForGood(accepts, s, p)
    requires p.id in s.spool ==> p.id in s'.spool && s'.spool[p.id] == s.spool[p.id]
    requires s'.stores == s.stores && s'.late <= s.late
    ensures SafeForGood(accepts, s', p)
  {
    if client :| HeldForGood(accepts, s, client, p) {
      assert HeldForGood(accepts, s', client, p);
    }
  }

  /** Renaming the queued content of a frame into place. */
  lemma RenameKeeps(accepts: Content -> bool, s: State)
    requires Kept(accepts, s) && Enabled(s, Rename)
    ensures Kept(accepts, Apply(accepts, s, Rename))
  {
    var s' := Apply(accepts, s, Rename);
    var id, part := s.link.stage.id, s.link.stage.part;
    assert part == s.spool[id];
    forall i | 0 <= i < |s.published| && !Replaced(s.published, i)
      ensures SafeForGood(accepts, s', s.published[i])
    {
      var p := s.published[i];
      assert SafeForGood(accepts, s, p);
      if !Queued(s, p) {
        var client :| HeldForGood(accepts, s, client, p);
        assert p.id != id;
        assert HeldForGood(accepts, s', client, p);
      }
    }
  }

  lemma AcknowledgeKeeps(accepts: Content -> bool, s: State)
    requires Kept(accepts, s) && Enabled(s, Acknowledge)
    ensures Kept(accepts, Apply(accepts, s, Acknowledge))
  {
    var s' := Apply(accepts, s, Acknowledge);
    var id := s.link.stage.id;
    forall i | 0 <= i < |s.published| && !Replaced(s.published, i)
      ensures SafeForGood(accepts, s', s.published[i])
    {
      var p := s.published[i];
      assert SafeForGood(accepts, s, p);
      if p.id == id {
        assert HeldForGood(accepts, s', s.link.client, p);
      } else if client :| HeldForGood(accepts, s, client, p) {
        assert HeldForGood(accepts, s', client, p);
      }
    }
  }

  lemma DeliverKeeps(accepts: Content -> bool, s: State, e: Event)
    requires Kept(accepts, s) && e.Deliver? && Enabled(s, e)
    ensures Kept(accepts, Apply(accepts, s, e))
  {
    var stage, whole := s.link.stage, s.spool[s.link.stage.id];
    assert whole[..|stage.part|] + whole[|stage.part|..|stage.part| + e.bytes] == whole[..|stage.part| + e.bytes];
    SameFilesSafe(accepts, s, Apply(accepts, s, e));
  }

  /** The complete copy that is left with the client has the content that is still queued. */
  lemma GiveUpKeeps(accepts: Content -> bool, s: State)
    requires Kept(accepts, s) && Enabled(s, GiveUp)
    ensures Kept(accepts, Apply(accepts, s, GiveUp))
  {
    var s' := Apply(accepts, s, GiveUp);
    var id, part := s.link.stage.id, s.link.stage.part;
    assert part == s.spool[id];
    forall i | 0 <= i < |s.published| && !Replaced(s.published, i)
      ensures SafeForGood(accepts, s', s.published[i])
    {
      var p := s.published[i];
      assert SafeForGood(accepts, s, p);
      if !Queued(s, p) {
        var client :| HeldForGood(accepts, s, client, p);
        assert p.id != id;
        assert HeldForGood(accepts, s', client, p);
      }
    }
  }

  lemma RenameLateKeeps(accepts: Content -> bool, s: State, e: Event)
    requires Kept(accepts, s) && e.RenameLate? && Enabled(s, e)
    ensures Kept(accepts, Apply(accepts, s, e))
  {
    var s' := Apply(accepts, s, e);
    forall i | 0 <= i < |s.published| && !Replaced(s.published, i)
      ensures SafeForGood(accepts, s', s.published[i])
    {
      var p := s.published[i];
      assert SafeForGood(accepts, s, p);
      if !Queued(s, p) {
        var client :| HeldForGood(accepts, s, client, p);
        assert HeldForGood(accepts, s', client, p);
      }
    }
    assert s.link.Up? ==> e.copy.client != s.link.client;
  }

  /** Steps that touch no file lose nothing. */
  lemma SameFilesSafe(accepts: Content -> bool, s: State, s': State)
    requires AllSafe(accepts, s) && QueueIsLatest(s)
    requires s'.spool == s.spool && s'.stores == s.stores && s'.late <= s.late && s'.published == s.published
    ensures AllSafe(accepts, s') && QueueIsLatest(s')
  {
    forall i | 0 <= i < |s'.published| && !Replaced(s'.published, i)
      ensures SafeForGood(accepts, s', s'.published[i])
    {
      FilesStay(accepts, s, s', s.published[i]);
    }
  }

  /** The world around the transfer is free: at any time frames with new names can be published and
      connections can break; whoever is not connected and owes no rename can connect, in either
      mode; and a client that has received all of a frame can lose its server before it renames. */
  lemma AnythingCanHappen(s: State)
    ensures forall id, content ::
              id !in s.spool && content != [] && id.sequence < 0x1_0000_0000_0000_0000 ==>
                Enabled(s, Publish(id, content))
    ensures s.link.Up? ==> Enabled(s, Break)
    ensures s.link.Down? ==>
              forall client, follow, listing ::
                IsListing(listing, s.spool) && NothingLate(s, client) ==> Enabled(s, Connect(client, follow, listing))
    ensures s.link.Up? && s.link.stage.Receiving? && |s.link.stage.part| == s.link.stage.size ==> Enabled(s, GiveUp)
    ensures forall copy :: copy in s.late ==> Enabled(s, RenameLate(copy)) && Enabled(s, DropLate(copy))
  {
  }

  /** Every step keeps every frame whose name was not used again for other content. */
  lemma StepKeeps(accepts: Content -> bool, s: State, e: Event)
    requires Kept(accepts, s) && Enabled(s, e)
    ensures Kept(accepts, Apply(accepts, s, e))
  {
    match e
    case Publish(_, _) => PublishKeeps(accepts, s, e);
    case Rename => RenameKeeps(accepts, s);
    case Acknowledge => AcknowledgeKeeps(accepts, s);
    case Deliver(_) => DeliverKeeps(accepts, s, e);
    case GiveUp => GiveUpKeeps(accepts, s);
    case RenameLate(_) => RenameLateKeeps(accepts, s, e);
    case _ => SameFilesSafe(accepts, s, Apply(accepts, s, e));
  }

  // ----- whole runs

  ghost predicate IsRunFrom(accepts: Content -> bool, start: State, run: seq<State>, events: seq<Event>)
  {
    && |run| == |events| + 1 && run[0] == start
    && forall k :: 0 <= k < |events| ==> Enabled(run[k], events[k]) && run[k + 1] == Apply(accepts, run[k], events[k])
  }

  /** The states of a run, from an empty spool on. */
  ghost predicate IsRun(accepts: Content -> bool, run: seq<State>, events: seq<Event>)
  {
    IsRunFrom(accepts, EMPTY, run, events)
  }

  lemma {:induction false} EveryRunIsKept(accepts: Content -> bool, run: seq<State>, events: seq<Event>, k: nat)
    requires IsRun(accepts, run, events) && k < |run|
    ensures Kept(accepts, run[k])
    decreases k
  {
    if k > 0 {
      EveryRunIsKept(accepts, run, events, k - 1);
      StepKeeps(accepts, run[k - 1], events[k - 1]);
    }
  }

  /** At all times every frame is queued or whole on a disk, across any sequence of breaks,
      unless its name was used again for other content. */
  lemma NothingIsLost(accepts: Content -> bool, run: seq<State>, events: seq<Event>, k: nat, i: nat)
    requires IsRun(accepts, run, events) && k < |run| && i < |run[k].published|
    requires !Replaced(run[k].published, i)
    ensures Kept(accepts, run[k]) && Safe(accepts, run[k], run[k].published[i])
  {
    EveryRunIsKept(accepts, run, events, k);
    KeptIsSafe(accepts, run[k], i);
  }

  // ----- building runs

  /** A queue with a single frame lists that frame. */
  lemma OneFrame(id: FrameId, content: Content)
    ensures IsListing([id], map[id := content])
  {
  }

  lemma RunsJoin(accepts: Content -> bool, a: State, run: seq<State>, events: seq<Event>,
                 more: seq<State>, moreEvents: seq<Event>)
    requires IsRunFrom(accepts, a, run, events) && IsRunFrom(accepts, run[|run| - 1], more, moreEvents)
    ensures IsRunFrom(accepts, a, run + more[1..], events + moreEvents)
    ensures (run + more[1..])[|events| + |moreEvents|] == more[|moreEvents|]
  {
    var both, all := run + more[1..], events + moreEvents;
    forall k | 0 <= k < |all|
      ensures Enabled(both[k], all[k]) && both[k + 1] == Apply(accepts, both[k], all[k])
    {
      if k >= |events| {
        assert both[k] == more[k - |events|] && all[k] == moreEvents[k - |events|];
        assert both[k + 1] == more[k + 1 - |events|];
      }
    }
  }

  lemma OneStepMore(accepts: Content -> bool, a: State, run: seq<State>, events: seq<Event>, e: Event)
    requires IsRunFrom(accepts, a, run, events) && Enabled(run[|run| - 1], e)
    ensures IsRunFrom(accepts, a, run + [Apply(accepts, run[|run| - 1], e)], events + [e])
  {
    var last := run[|run| - 1];
    var step := [last, Apply(accepts, last, e)];
    assert IsRunFrom(accepts, last, step, [e]);
    RunsJoin(accepts, a, run, events, step, [e]);
    assert step[1..] == [Apply(accepts, last, e)];
  }

  /** When only one frame is queued and nobody is connected, client 0 can fetch the frame; its
      copy replaces what it had under the name. */
  lemma CanDeliver(accepts: Content -> bool, s: State, id: FrameId, content: Content)
    returns (run: seq<State>, events: seq<Event>)
    requires s.link.Down? && s.late == {} && s.spool == map[id := content] && content != []
    ensures IsRunFrom(accepts, s, run, events)
    ensures run[|run| - 1] == s.(stores := s.stores[(0, id) := content], link := Up(0, false, [], Stored(id)))
  {
    OneFrame(id, content);
    var queued := s.(link := Up(0, false, [id], Choosing));
    var offered := s.(link := Up(0, false, [], Receiving(id, |content|, [])));
    assert [id][1..] == [];
    assert [] + content[0..|content|] == content;
    var received := s.(link := Up(0, false, [], Receiving(id, |content|, content)));
    var stored := s.(stores := s.stores[(0, id) := content], link := Up(0, false, [], Stored(id)));
    run := [s, queued, offered, received, stored];
    events := [Connect(0, false, [id]), Pick, Deliver(|content|), Rename];
  }

  /** From an idle state: publish, fetch, validate, acknowledge and part. The frame has left the
      spool, and client 0 has it. */
  lemma CanHandOver(accepts: Content -> bool, s: State, p: Publication) returns (run: seq<State>, events: seq<Event>)
    requires s.link.Down? && s.late == {} && s.spool == map[]
    requires p.content != [] && accepts(p.content) && p.id.sequence < SEQUENCE_LIMIT
    ensures IsRunFrom(accepts, s, run, events)
    ensures run[|run| - 1] == s.(stores := s.stores[(0, p.id) := p.content], published := s.published + [p],
                                 acked := s.acked + [p.id])
  {
    var publish := Publish(p.id, p.content);
    run, events := [s, Apply(accepts, s, publish)], [publish];
    assert run[1].spool == map[p.id := p.content];
    var sent, sending := CanDeliver(accepts, run[1], p.id, p.content);
    RunsJoin(accepts, s, run, events, sent, sending);
    run, events := run + sent[1..], events + sending;
    OneStepMore(accepts, s, run, events, Validate);
    run, events := run + [Apply(accepts, run[|run| - 1], Validate)], events + [Validate];
    OneStepMore(accepts, s, run, events, Acknowledge);
    run, events := run + [Apply(accepts, run[|run| - 1], Acknowledge)], events + [Acknowledge];
    assert map[p.id := p.content] - {p.id} == map[];
    OneStepMore(accepts, s, run, events, Finish);
    run, events := run + [Apply(accepts, run[|run| - 1], Finish)], events + [Finish];
  }

  // ----- which publications can be lost

  /** Some name is published with two different contents. */
  ghost predicate Conflicts(list: seq<Publication>)
  {
    exists i, j :: 0 <= i < j < |list| && list[i].id == list[j].id && list[i].content != list[j].content
  }

  /** Frames that are published as the sampler and the writers produce them: not empty, numbered
      in 64 bits, and valid. */
  ghost predicate Publishable(accepts: Content -> bool, list: seq<Publication>)
  {
    forall i :: 0 <= i < |list| ==>
      list[i].content != [] && accepts(list[i].content) && list[i].id.sequence < SEQUENCE_LIMIT
  }

  ghost predicate LosesNothing(accepts: Content -> bool, run: seq<State>)
  {
    forall k, i :: 0 <= k < |run| && 0 <= i < |run[k].published| ==> Safe(accepts, run[k], run[k].published[i])
  }

  lemma {:induction false} PublishedGrows(accepts: Content -> bool, run: seq<State>, events: seq<Event>, k: nat, n: nat)
    requires IsRun(accepts, run, events) && k <= n < |run|
    ensures run[k].published <= run[n].published
    decreases n - k
  {
    if k < n {
      PublishedGrows(accepts, run, events, k + 1, n);
    }
  }

  lemma WithoutConflictNothingIsLost(accepts: Content -> bool, run: seq<State>, events: seq<Event>)
    requires IsRun(accepts, run, events) && !Conflicts(run[|run| - 1].published)
    ensures LosesNothing(accepts, run)
  {
    var all := run[|run| - 1].published;
    forall k, i | 0 <= k < |run| && 0 <= i < |run[k].published|
      ensures Safe(accepts, run[k], run[k].published[i])
    {
      PublishedGrows(accepts, run, events, k, |run| - 1);
      var published := run[k].published;
      assert forall j :: 0 <= j < |published| ==> published[j] == all[j];
      assert !Replaced(published, i);
      NothingIsLost(accepts, run, events, k, i);
    }
  }

  /** The latest content under a name, or nothing. */
  function Latest(list: seq<Publication>, id: FrameId): Content
  {
    if list == [] then []
    else if list[|list| - 1].id == id then list[|list| - 1].content
    else Latest(list[..|list| - 1], id)
  }

  /** Everything was handed over to client 0 one after the other. */
  ghost predicate HandedOver(s: State, list: seq<Publication>)
  {
    && s.link.Down? && s.late == {} && s.spool == map[] && s.published == list
    && forall key :: key in s.stores ==> key.0 == 0 && s.stores[key] == Latest(list, key.1)
  }

  lemma {:induction false} CanHandOverAll(accepts: Content -> bool, list: seq<Publication>)
    returns (run: seq<State>, events: seq<Event>)
    requires Publishable(accepts, list)
    ensures IsRun(accepts, run, events) && HandedOver(run[|run| - 1], list)
  {
    if list == [] {
      run, events := [EMPTY], [];
    } else {
      var front, p := list[..|list| - 1], list[|list| - 1];
      run, events := CanHandOverAll(accepts, front);
      var s := run[|run| - 1];
      var more, moreEvents := CanHandOver(accepts, s, p);
      RunsJoin(accepts, EMPTY, run, events, more, moreEvents);
      run, events := run + more[1..], events + moreEvents;
      assert run[|run| - 1] == more[|moreEvents|];
      OneMoreHandedOver(s, run[|run| - 1], front, p);
      assert front + [p] == list;
    }
  }

  lemma OneMoreHandedOver(s: State, s': State, front: seq<Publication>, p: Publication)
    requires HandedOver(s, front)
    requires s' == s.(stores := s.stores[(0, p.id) := p.content], published := s.published + [p],
                      acked := s.acked + [p.id])
    ensures HandedOver(s', front + [p])
  {
    assert (front + [p])[..|front|] == front;
  }

  /** After all frames were handed over, only the latest content of each name is left. */
  lemma OnlyLatestIsLeft(accepts: Content -> bool, s: State, list: seq<Publication>, i: nat)
    requires HandedOver(s, list) && i < |list| && list[i].content != Latest(list, list[i].id)
    ensures !Safe(accepts, s, list[i])
  {
  }

  lemma ConflictLoses(accepts: Content -> bool, list: seq<Publication>) returns (run: seq<State>, events: seq<Event>)
    requires Publishable(accepts, list) && Conflicts(list)
    ensures IsRun(accepts, run, events) && run[|run| - 1].published == list && !LosesNothing(accepts, run)
  {
    run, events := CanHandOverAll(accepts, list);
    var s := run[|run| - 1];
    var i, j :| 0 <= i < j < |list| && list[i].id == list[j].id && list[i].content != list[j].content;
    var lost := if list[i].content != Latest(list, list[i].id) then i else j;
    OnlyLatestIsLeft(accepts, s, list, lost);
    assert !Safe(accepts, s, s.published[lost]);
  }

  /** For a list of valid publications: every run that publishes them keeps every frame at all
      times if and only if no name occurs in the list with two different contents. */
  lemma NothingIsLostExactly(accepts: Content -> bool, list: seq<Publication>)
    requires Publishable(accepts, list)
    ensures (forall run: seq<State>, events: seq<Event> ::
               IsRun(accepts, run, events) && run[|run| - 1].published == list ==> LosesNothing(accepts, run))
            <==> !Conflicts(list)
  {
    if Conflicts(list) {
      var run, events := ConflictLoses(accepts, list);
    } else {
      forall run: seq<State>, events: seq<Event> | IsRun(accepts, run, events) && run[|run| - 1].published == list
        ensures LosesNothing(accepts, run)
      {
        WithoutConflictNothingIsLost(accepts, run, events);
      }
    }
  }

  /** An instance in which the second frame is not even valid: once acknowledged the first one
      leaves the spool, and the second replaces it on the client's disk. */
  lemma ReuseCanLose(accepts: Content -> bool, id: FrameId, first: Content, second: Content)
    returns (run: seq<State>, events: seq<Event>)
    requires first != [] && second != [] && first != second && accepts(first) && id.sequence < SEQUENCE_LIMIT
    ensures IsRun(accepts, run, events)
    ensures var last := run[|run| - 1];
            && |last.published| == 2 && last.published[0] == Publication(id, first) && Replaced(last.published, 0)
            && !Safe(accepts, last, last.published[0])
  {
    run, events := CanHandOver(accepts, EMPTY, Publication(id, first));
    OneStepMore(accepts, EMPTY, run, events, Publish(id, second));
    run, events := run + [Apply(accepts, run[|run| - 1], Publish(id, second))], events + [Publish(id, second)];
    var queued := run[|run| - 1];
    assert queued.spool == map[id := second];
    var again, sending := CanDeliver(accepts, queued, id, second);
    RunsJoin(accepts, EMPTY, run, events, again, sending);
    run, events := run + again[1..], events + sending;
    var last := run[|run| - 1];
    assert last.published[1].id == id;
  }

  // ----- acknowledgements in order

  /** The frames that the connection has still to acknowledge. */
  function Pending(link: Link): seq<FrameId>
  {
    if link.Down? then []
    else (if link.stage.Choosing? then [] else [link.stage.id]) + link.queue
  }

  /** Sequence numbers of a session only grow, as the sampler hands them out. */
  ghost predicate Orderly(s: State, e: Event)
  {
    e.Publish? ==>
      forall i :: 0 <= i < |s.published| && s.published[i].id.session == e.id.session ==>
        s.published[i].id.sequence < e.id.sequence
  }

  ghost predicate WasPublished(s: State, id: FrameId)
  {
    exists i :: 0 <= i < |s.published| && s.published[i].id == id
  }

  /** Every known name was published. */
  ghost predicate Known(s: State)
  {
    && (forall id :: id in s.spool ==> WasPublished(s, id))
    && (forall i :: 0 <= i < |Pending(s.link)| ==> WasPublished(s, Pending(s.link)[i]))
    && (forall i :: 0 <= i < |s.acked| ==> WasPublished(s, s.acked[i]))
    && (forall i :: 0 <= i < |s.published| ==> s.published[i].id.sequence < SEQUENCE_LIMIT)
  }

  ghost predicate Before(a: FrameId, b: FrameId)
  {
    a.session == b.session ==> a.sequence < b.sequence
  }

  ghost predicate Ascends(ids: seq<FrameId>)
  {
    forall i, j :: 0 <= i < j < |ids| ==> Before(ids[i], ids[j])
  }

  /** Queued frames are pending or newer than everything pending. */
  ghost predicate NewerOrPending(queued: set<FrameId>, pending: seq<FrameId>)
  {
    forall id, i :: id in queued && 0 <= i < |pending| ==> id in pending || Before(pending[i], id)
  }

  ghost predicate Older(acked: seq<FrameId>, queued: set<FrameId>)
  {
    forall id, i :: id in queued && 0 <= i < |acked| ==> Before(acked[i], id)
  }

  /** What is pending is sorted; queued frames that are not pending are newer; acknowledged
      frames are older than all queued ones; acknowledgements came in ascending order. */
  ghost predicate InOrder(s: State)
  {
    && Ascends(Pending(s.link)) && NewerOrPending(s.spool.Keys, Pending(s.link))
    && Older(s.acked, s.spool.Keys) && Ascends(s.acked)
  }

  /** The first pending frame is dealt with: it is not queued any more. */
  lemma FirstIsDone(queued: set<FrameId>, pending: seq<FrameId>, id: FrameId, rest: seq<FrameId>, left: set<FrameId>)
    requires pending == [id] + rest && Ascends(pending) && NewerOrPending(queued, pending)
    requires left <= queued && id !in left
    ensures Ascends(rest) && NewerOrPending(left, rest)
  {
    forall i | 0 <= i < |rest|
      ensures rest[i] == pending[i + 1]
    {
    }
  }

  /** The acknowledged frame is the oldest queued one of its session. */
  lemma FirstIsOldest(acked: seq<FrameId>, queued: set<FrameId>, pending: seq<FrameId>, left: set<FrameId>)
    requires pending != [] && Ascends(pending) && NewerOrPending(queued, pending) && pending[0] in queued
    requires Older(acked, queued) && Ascends(acked) && left <= queued && pending[0] !in left
    ensures Older(acked + [pending[0]], left) && Ascends(acked + [pending[0]])
  {
    forall x | x in left
      ensures Before(pending[0], x)
    {
      if x in pending {
        var i :| 0 <= i < |pending| && pending[i] == x;
        assert Before(pending[0], pending[i]);
      }
    }
  }

  lemma ListingIsOrdered(s: State, listing: seq<FrameId>)
    requires Known(s) && IsListing(listing, s.spool)
    ensures Ascends(listing)
    ensures forall i :: 0 <= i < |listing| ==> WasPublished(s, listing[i])
  {
    forall i | 0 <= i < |listing|
      ensures WasPublished(s, listing[i]) && listing[i].sequence < SEQUENCE_LIMIT
    {
      assert listing[i] in listing;
    }
    forall i, j | 0 <= i < j < |listing|
      ensures Before(listing[i], listing[j])
    {
      assert Less(NameOf(listing[i]), NameOf(listing[j]));
      if listing[i].session == listing[j].session {
        NamesSortBySequence(listing[i].session, listing[i].sequence, listing[j].sequence);
      }
    }
  }

  lemma NewListing(s: State, s': State, listing: seq<FrameId>)
    requires Known(s) && InOrder(s) && IsListing(listing, s.spool)
    requires s'.spool == s.spool && s'.published == s.published && s'.acked == s.acked
    requires Pending(s'.link) == listing
    ensures Known(s') && InOrder(s')
  {
    ListingIsOrdered(s, listing);
    KnownStays(s, s');
  }

  lemma KnownStays(s: State, s': State)
    requires Known(s) && s'.spool.Keys <= s.spool.Keys && s'.published == s.published && s'.acked == s.acked
    requires forall i :: 0 <= i < |Pending(s'.link)| ==> WasPublished(s, Pending(s'.link)[i])
    ensures Known(s')
  {
    forall id
      ensures WasPublished(s, id) ==> WasPublished(s', id)
    {
      if i :| 0 <= i < |s.published| && s.published[i].id == id {
        assert s'.published[i].id == id;
      }
    }
    assert forall i :: 0 <= i < |s'.acked| ==> WasPublished(s, s'.acked[i]);
  }

  lemma PublishInOrder(accepts: Content -> bool, s: State, e: Event)
    requires Known(s) && InOrder(s) && e.Publish? && Enabled(s, e) && Orderly(s, e)
    ensures Known(Apply(accepts, s, e)) && InOrder(Apply(accepts, s, e))
  {
    var s' := Apply(accepts, s, e);
    forall id | WasPublished(s, id)
      ensures WasPublished(s', id) && Before(id, e.id)
    {
      var i :| 0 <= i < |s.published| && s.published[i].id == id;
      assert s'.published[i].id == id;
    }
    assert s'.published[|s.published|].id == e.id;
    assert WasPublished(s', e.id);
    forall id | id in s'.spool
      ensures WasPublished(s', id)
    {
      if id != e.id {
        assert WasPublished(s, id);
      }
    }
  }

  lemma PickInOrder(accepts: Content -> bool, s: State)
    requires Known(s) && InOrder(s) && Enabled(s, Pick)
    ensures Known(Apply(accepts, s, Pick)) && InOrder(Apply(accepts, s, Pick))
  {
    var s' := Apply(accepts, s, Pick);
    var id, rest := s.link.queue[0], s.link.queue[1..];
    assert Pending(s.link) == [id] + rest;
    if id in s.spool {
      assert Pending(s'.link) == Pending(s.link);
    } else {
      assert Pending(s'.link) == rest;
      FirstIsDone(s.spool.Keys, Pending(s.link), id, rest, s.spool.Keys);
      assert forall i :: 0 <= i < |rest| ==> rest[i] == Pending(s.link)[i + 1];
    }
    KnownStays(s, s');
  }

  lemma AcknowledgeInOrder(accepts: Content -> bool, s: State)
    requires Known(s) && InOrder(s) && Enabled(s, Acknowledge) && s.link.stage.id in s.spool
    ensures Known(Apply(accepts, s, Acknowledge)) && InOrder(Apply(accepts, s, Acknowledge))
  {
    var s' := Apply(accepts, s, Acknowledge);
    var id, rest := s.link.stage.id, s.link.queue;
    assert Pending(s.link) == [id] + rest && Pending(s'.link) == rest;
    FirstIsDone(s.spool.Keys, Pending(s.link), id, rest, s'.spool.Keys);
    FirstIsOldest(s.acked, s.spool.Keys, Pending(s.link), s'.spool.Keys);
    AcknowledgeKnown(s, s', id);
  }

  lemma AcknowledgeKnown(s: State, s': State, id: FrameId)
    requires Known(s) && s'.spool.Keys <= s.spool.Keys && s'.published == s.published && id in s.spool
    requires s'.acked == s.acked + [id]
    requires forall i :: 0 <= i < |Pending(s'.link)| ==> Pending(s'.link)[i] in Pending(s.link)
    ensures Known(s')
  {
    forall x
      ensures WasPublished(s, x) ==> WasPublished(s', x)
    {
      if i :| 0 <= i < |s.published| && s.published[i].id == x {
        assert s'.published[i].id == x;
      }
    }
    forall i | 0 <= i < |s'.acked|
      ensures WasPublished(s', s'.acked[i])
    {
      if i < |s.acked| {
        assert WasPublished(s, s.acked[i]);
      } else {
        assert WasPublished(s, id);
      }
    }
    forall i | 0 <= i < |Pending(s'.link)|
      ensures WasPublished(s', Pending(s'.link)[i])
    {
      var j :| 0 <= j < |Pending(s.link)| && Pending(s.link)[j] == Pending(s'.link)[i];
      assert WasPublished(s, Pending(s.link)[j]);
    }
  }

  lemma StepInOrder(accepts: Content -> bool, s: State, e: Event)
    requires Kept(accepts, s) && Known(s) && InOrder(s) && Enabled(s, e) && Orderly(s, e)
    ensures Known(Apply(accepts, s, e)) && InOrder(Apply(accepts, s, e))
  {
    var s' := Apply(accepts, s, e);
    match e
    case Publish(_, _) => PublishInOrder(accepts, s, e);
    case Connect(_, _, listing) =>
      assert Pending(s'.link) == listing;
      NewListing(s, s', listing);
    case Rescan(listing) =>
      assert Pending(s'.link) == listing;
      NewListing(s, s', listing);
    case Pick => PickInOrder(accepts, s);
    case Acknowledge => AcknowledgeInOrder(accepts, s);
    case _ =>
      assert Pending(s'.link) == Pending(s.link) || Pending(s'.link) == [];
      KnownStays(s, s');
  }

  /** In every run whose sessions number their frames upwards, the acknowledged frames of each
      session come in increasing order, across all connections. */
  lemma {:induction false} AcknowledgementsAscend(accepts: Content -> bool, run: seq<State>, events: seq<Event>, k: nat)
    requires IsRun(accepts, run, events) && k < |run|
    requires forall i :: 0 <= i < |events| ==> Orderly(run[i], events[i])
    ensures Known(run[k]) && InOrder(run[k])
    decreases k
  {
    if k > 0 {
      AcknowledgementsAscend(accepts, run, events, k - 1);
      EveryRunIsKept(accepts, run, events, k - 1);
      StepInOrder(accepts, run[k - 1], events[k - 1]);
    }
  }

  ghost predicate Fresh(s: State)
  {
    forall i, j :: 0 <= i < j < |s.published| ==> Before(s.published[i].id, s.published[j].id)
  }

  lemma {:induction false} OrderlyRunsAreFresh(accepts: Content -> bool, run: seq<State>, events: seq<Event>, k: nat)
    requires IsRun(accepts, run, events) && k < |run|
    requires forall i :: 0 <= i < |events| ==> Orderly(run[i], events[i])
    ensures Fresh(run[k])
    decreases k
  {
    if k > 0 {
      OrderlyRunsAreFresh(accepts, run, events, k - 1);
      var s, e := run[k - 1], events[k - 1];
      assert Enabled(s, e) && Orderly(s, e) && run[k] == Apply(accepts, s, e);
    }
  }

  /** When every session numbers its frames upwards, no frame is ever lost. */
  lemma OrderlyRunsLoseNothing(accepts: Content -> bool, run: seq<State>, events: seq<Event>, k: nat, i: nat)
    requires IsRun(accepts, run, events) && k < |run| && i < |run[k].published|
    requires forall j :: 0 <= j < |events| ==> Orderly(run[j], events[j])
    ensures Safe(accepts, run[k], run[k].published[i])
  {
    OrderlyRunsAreFresh(accepts, run, events, k);
    forall j | i < j < |run[k].published|
      ensures run[k].published[j].id != run[k].published[i].id
    {
      assert Before(run[k].published[i].id, run[k].published[j].id);
    }
    NothingIsLost(accepts, run, events, k, i);
  }
}
