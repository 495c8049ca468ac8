/** Properties of the mesh node's step functions: what reaches a handler,
    to whom a vote is attributed, how the view evolves over many units, the
    monotone master flag, request correlation, and the outcomes of a tick. */
module NodeProperties {
  import opened Wrappers
  import Envelope
  import opened Messages
  import opened Election
  import opened MeshNode

  // -----------------------------------------------------------------------
  // The receive path

  /** A unit broadcast by a peer whose id holds no space reaches the handler
      as the very message that was sent, attributed to that peer. */
  lemma DeliveredFromPeer(self: string, codec: Codec, sender: string, m: Message)
    requires RoundTrips(codec) && ' ' !in sender && sender != self
    ensures Parse(self, codec, Wire(sender, codec, m)) == Deliver(sender, m)
  {
    WireSplits(sender, codec, m);
  }

  /** The node's own broadcasts, echoed back by the bus, change nothing. */
  lemma OwnUnitIgnored(d: NodeData, self: string, codec: Codec, m: Message)
    requires ' ' !in self
    ensures Parse(self, codec, Wire(self, codec, m)) == OwnMessage
    ensures Receive(d, self, codec, Wire(self, codec, m)) == Step(d, [])
  {
    WireSplits(self, codec, m);
  }

  /** A unit with only two fields is dropped (the unpacking raises). */
  lemma TwoFieldUnitIgnored(d: NodeData, self: string, codec: Codec, a: string, b: string)
    requires ' ' !in a && ' ' !in b
    ensures Parse(self, codec, a + " " + b) == Malformed
    ensures Receive(d, self, codec, a + " " + b) == Step(d, [])
  {
    Envelope.TwoFieldsRejected(a, b);
  }

  /** A peer's unit whose tag is not a known class name is dropped. */
  lemma UnknownTagIgnored(d: NodeData, self: string, codec: Codec, sender: string, tag: string, payload: string)
    requires ' ' !in sender && ' ' !in tag && sender != self && tag !in MessageMap
    ensures Parse(self, codec, Envelope.Format(sender, tag, payload)) == UnknownType(tag)
    ensures Receive(d, self, codec, Envelope.Format(sender, tag, payload)) == Step(d, [])
  {
    Envelope.SplitFormatRoundTrip(sender, tag, payload);
  }

  /** A peer's unit with a known tag whose payload the codec rejects is
      dropped. */
  lemma UndecodableIgnored(d: NodeData, self: string, codec: Codec, sender: string, tag: string, payload: string)
    requires ' ' !in sender && ' ' !in tag && sender != self && tag in MessageMap
    requires codec.decode(tag, payload) == None
    ensures Parse(self, codec, Envelope.Format(sender, tag, payload)) == Undecodable(tag)
    ensures Receive(d, self, codec, Envelope.Format(sender, tag, payload)) == Step(d, [])
  {
    Envelope.SplitFormatRoundTrip(sender, tag, payload);
  }

  /** A MasterVote from a peer is recorded under that peer's id, whatever id
      the payload names, and nothing else changes. */
  lemma VoteAttributedToSender(d: NodeData, self: string, codec: Codec, sender: string, target: string)
    requires RoundTrips(codec) && ' ' !in sender && sender != self
    ensures Receive(d, self, codec, Wire(sender, codec, MasterVote(target)))
            == Step(d.(votes := d.votes[sender := target]), [])
  {
    DeliveredFromPeer(self, codec, sender, MasterVote(target));
    var raw := Wire(sender, codec, MasterVote(target));
    assert Receive(d, self, codec, raw) == Handle(d, self, sender, MasterVote(target));
    VoteHandled(d, self, sender, target);
  }

  lemma VoteHandled(d: NodeData, self: string, sender: string, target: string)
    ensures Handle(d, self, sender, MasterVote(target)) == Step(d.(votes := d.votes[sender := target]), [])
  {
  }

  /** No unit can set or change the recorded vote of an id other than the
      unit's own sender field. */
  lemma VoteCannotBeForged(d: NodeData, self: string, codec: Codec, raw: string, voter: string)
    ensures var v := Receive(d, self, codec, raw).data.votes;
            voter in v && (voter !in d.votes || v[voter] != d.votes[voter]) ==>
              Envelope.SplitEnvelope(raw).Some? && Envelope.SplitEnvelope(raw).value.sender == voter
  {
    match Parse(self, codec, raw)
    case Deliver(sender, m) =>
      HandleVotes(d, self, sender, m);
      assert Envelope.SplitEnvelope(raw).value.sender == sender;
    case _ =>
  }

  /** Which handler touches the vote map, and how. */
  lemma HandleVotes(d: NodeData, self: string, sender: string, m: Message)
    ensures Handle(d, self, sender, m).data.votes
            == if m.MasterVote? then d.votes[sender := m.nodeId]
               else if m.MasterElected? then map[]
               else d.votes
  {
    match m
    case Heartbeat(_) =>
    case ClusterStateRequest(_) =>
    case ClusterStateResponse(_, _) =>
    case MasterCandidate(_) =>
    case MasterVote(_) =>
    case MasterElected(_) =>
  }

  /** Which handler touches a peer's entry of the view, and how. */
  lemma HandlePeerEntry(d: NodeData, self: string, sender: string, m: Message, k: string)
    requires k != self
    ensures var n := Handle(d, self, sender, m).data.nodes;
            if m.Heartbeat? && m.state.nodeId == k then k in n && n[k] == m.state
            else (k in n <==> k in d.nodes) && (k in d.nodes ==> n[k] == d.nodes[k])
  {
    match m
    case Heartbeat(_) =>
    case ClusterStateRequest(_) =>
    case ClusterStateResponse(_, _) =>
    case MasterCandidate(_) =>
    case MasterVote(_) =>
    case MasterElected(_) =>
  }

  /** Only a response for an outstanding id touches the request bookkeeping. */
  lemma HandleRequests(d: NodeData, self: string, sender: string, m: Message)
    ensures var r := Handle(d, self, sender, m).data;
            if m.ClusterStateResponse? && m.requestId in d.requests
            then r.requests == d.requests - {m.requestId} && r.handled == d.handled + [m.requestId]
            else r.requests == d.requests && r.handled == d.handled
  {
    match m
    case Heartbeat(_) =>
    case ClusterStateRequest(_) =>
    case ClusterStateResponse(_, _) =>
    case MasterCandidate(_) =>
    case MasterVote(_) =>
    case MasterElected(_) =>
  }

  // -----------------------------------------------------------------------
  // Many units in a row

  /** A unit as the handler sees it: the envelope's sender and the message. */
  datatype Arrival = Arrival(sender: string, msg: Message)

  /** The handlers run over arrivals in order; the broadcasts accumulate. */
  function HandleAll(d: NodeData, self: string, arrivals: seq<Arrival>): Step
    decreases |arrivals|
  {
    if arrivals == [] then Step(d, [])
    else
      var before := HandleAll(d, self, arrivals[..|arrivals| - 1]);
      var a := arrivals[|arrivals| - 1];
      var s := Handle(before.data, self, a.sender, a.msg);
      Step(s.data, before.sent + s.sent)
  }

  /** The state carried by the last Heartbeat about `k`, if any. */
  function LastBeat(arrivals: seq<Arrival>, k: string): (r: Option<NodeState>)
    ensures r.Some? ==> r.value.nodeId == k && Heartbeat(r.value) in (set a | a in arrivals :: a.msg)
    decreases |arrivals|
  {
    if arrivals == [] then None
    else
      var a := arrivals[|arrivals| - 1];
      if a.msg.Heartbeat? && a.msg.state.nodeId == k then Some(a.msg.state)
      else
        var r := LastBeat(arrivals[..|arrivals| - 1], k);
        assert r.Some? ==> Heartbeat(r.value) in (set a | a in arrivals[..|arrivals| - 1] :: a.msg);
        r
  }

  /** Last arrival wins: after any sequence of units, the view's entry for a
      peer is the state of the last Heartbeat about it, or what it was if no
      Heartbeat named it. */
  lemma {:induction false} PeerEntryIsLastHeartbeat(d: NodeData, self: string, arrivals: seq<Arrival>, k: string)
    requires k != self
    ensures var n := HandleAll(d, self, arrivals).data.nodes;
            match LastBeat(arrivals, k)
            case Some(p) => k in n && n[k] == p
            case None => (k in n <==> k in d.nodes) && (k in d.nodes ==> n[k] == d.nodes[k])
  {
    if arrivals != [] {
      var init := arrivals[..|arrivals| - 1];
      var a := arrivals[|arrivals| - 1];
      PeerEntryIsLastHeartbeat(d, self, init, k);
      HandlePeerEntry(HandleAll(d, self, init).data, self, a.sender, a.msg, k);
    }
  }

  /** A Heartbeat nominates this node (with its start-up timestamp) exactly
      when, after the upsert, no entry of the view is flagged master. */
  lemma HeartbeatNominates(d: NodeData, self: string, sender: string, p: NodeState)
    requires Consistent(d, self)
    ensures var s := Handle(d, self, sender, Heartbeat(p));
            && s.data.nodes == d.nodes[p.nodeId := p]
            && (NoMaster(s.data.nodes) ==>
                  s.sent == [MasterCandidate(Candidate(self, d.own.heartbeat))]
                  && s.data.candidates == d.candidates[self := Candidate(self, d.own.heartbeat)])
            && (!NoMaster(s.data.nodes) ==> s.sent == [] && s.data.candidates == d.candidates)
  {
  }

  // -----------------------------------------------------------------------
  // The master flag

  /** The node's own flag is set by a MasterElected naming it and by nothing
      else, and no handler ever clears it. */
  lemma OwnMasterOnlyByElection(d: NodeData, self: string, sender: string, m: Message)
    ensures Handle(d, self, sender, m).data.own.isMaster <==> d.own.isMaster || m == MasterElected(self)
  {
  }

  /** Over any sequence of units the own flag never goes back to false. */
  lemma {:induction false} OwnMasterNeverCleared(d: NodeData, self: string, arrivals: seq<Arrival>)
    requires d.own.isMaster
    ensures HandleAll(d, self, arrivals).data.own.isMaster
  {
    if arrivals != [] {
      var init, a := arrivals[..|arrivals| - 1], arrivals[|arrivals| - 1];
      OwnMasterNeverCleared(d, self, init);
      OwnMasterOnlyByElection(HandleAll(d, self, init).data, self, a.sender, a.msg);
    }
  }

  /** A tick never clears the own flag, and sets it only when this node is the
      unique plurality winner of the tally. */
  lemma TickOwnMaster(d: NodeData, self: string, now: int, choice: Option<string>)
    ensures var t := TickStep(d, self, now, choice);
            && (d.own.isMaster ==> t.data.own.isMaster)
            && (t.data.own.isMaster && !d.own.isMaster ==>
                  VoteDue(d.candidates, now) && Leader(CastVote(d.votes, self, choice)) == Some(self))
  {
  }

  // -----------------------------------------------------------------------
  // Request correlation

  /** Every unit keeps the correlation between sent, outstanding and handled
      request ids (the method `Node.OnMessage` keeps it on the node). */
  lemma CorrelationPreserved(d: NodeData, self: string, codec: Codec, raw: string, sent: seq<string>)
    requires Correlated(sent, d.requests, d.handled)
    ensures var r := Receive(d, self, codec, raw).data;
            Correlated(sent, r.requests, r.handled)
  {
    var r := Receive(d, self, codec, raw).data;
    var p := Parse(self, codec, raw);
    if p.Deliver? {
      HandleRequests(d, self, p.sender, p.msg);
    }
    if r.handled != d.handled {
      var rid := p.msg.requestId;
      assert r.handled == d.handled + [rid] && r.requests == d.requests - {rid};
      forall x ensures multiset(r.handled)[x] + (if x in r.requests then 1 else 0) <= multiset(sent)[x] {
        assert multiset(r.handled)[x] == multiset(d.handled)[x] + (if x == rid then 1 else 0);
      }
    }
  }

  /** A response is never handled for an id that was never sent, and an id
      that is still outstanding was sent. */
  lemma NeverSentNeverHandled(sent: seq<string>, requests: set<string>, handled: seq<string>, rid: string)
    requires Correlated(sent, requests, handled) && rid !in sent
    ensures rid !in handled && rid !in requests
  {
    assert multiset(sent)[rid] == 0;
  }

  /** An id sent once is handled at most once; once handled it is no longer
      outstanding. */
  lemma HandledAtMostOnce(sent: seq<string>, requests: set<string>, handled: seq<string>, rid: string)
    requires Correlated(sent, requests, handled) && multiset(sent)[rid] == 1
    ensures multiset(handled)[rid] <= 1
    ensures rid in handled ==> rid !in requests
  {
    assert multiset(handled)[rid] + (if rid in requests then 1 else 0) <= 1;
  }

  /** After the response for an outstanding id has been handled, a second
      response with the same id changes nothing and sends nothing. */
  lemma SecondResponseIgnored(d: NodeData, self: string, sender1: string, sender2: string, rid: string,
                              view1: map<string, NodeState>, view2: map<string, NodeState>)
    requires rid in d.requests
    ensures var s1 := Handle(d, self, sender1, ClusterStateResponse(rid, view1));
            && s1.data == d.(requests := d.requests - {rid}, handled := d.handled + [rid])
            && Handle(s1.data, self, sender2, ClusterStateResponse(rid, view2)) == Step(s1.data, [])
  {
  }

  // -----------------------------------------------------------------------
  // A tick

  /** The targets of the MasterVote messages among `ms`, in order. */
  function VotesIn(ms: seq<Message>): (r: seq<string>)
    ensures |r| <= |ms|
    decreases |ms|
  {
    if ms == [] then []
    else
      var last := ms[|ms| - 1];
      VotesIn(ms[..|ms| - 1]) + (if last.MasterVote? then [last.nodeId] else [])
  }

  /** The ids named by the MasterElected messages among `ms`, in order. */
  function ElectedIn(ms: seq<Message>): (r: seq<string>)
    ensures |r| <= |ms|
    decreases |ms|
  {
    if ms == [] then []
    else
      var last := ms[|ms| - 1];
      ElectedIn(ms[..|ms| - 1]) + (if last.MasterElected? then [last.electedNodeId] else [])
  }

  lemma {:induction false} VotesInAppend(a: seq<Message>, b: seq<Message>)
    ensures VotesIn(a + b) == VotesIn(a) + VotesIn(b)
    decreases |b|
  {
    if b != [] {
      assert (a + b)[..|a + b| - 1] == a + b[..|b| - 1];
      VotesInAppend(a, b[..|b| - 1]);
    } else {
      assert a + b == a;
    }
  }

  lemma {:induction false} ElectedInAppend(a: seq<Message>, b: seq<Message>)
    ensures ElectedIn(a + b) == ElectedIn(a) + ElectedIn(b)
    decreases |b|
  {
    if b != [] {
      assert (a + b)[..|a + b| - 1] == a + b[..|b| - 1];
      ElectedInAppend(a, b[..|b| - 1]);
    } else {
      assert a + b == a;
    }
  }

  /** The tally sends no vote, and announces the unique winner when the view
      knows it. */
  lemma TallySent(d: NodeData, self: string)
    ensures var t := TallyStep(d, self);
            && VotesIn(t.sent) == []
            && ElectedIn(t.sent) == (if Leader(d.votes).Some? && Leader(d.votes).value in d.nodes
                                     then [Leader(d.votes).value] else [])
  {
    var t := TallyStep(d, self);
    if t.sent != [] {
      var w := Leader(d.votes).value;
      assert t.sent[..1] == [MasterElected(w)];
      assert t.sent[..1][..0] == [];
    }
  }

  /** The due phase sends this node's vote, if it casts one, then what the
      tally sends. */
  lemma DuePhaseSent(d: NodeData, self: string, choice: Option<string>)
    ensures var r := DuePhase(d, self, choice);
            var v := CastVote(d.votes, self, choice);
            && VotesIn(r.sent) == (if self !in d.votes && choice.Some? then [choice.value] else [])
            && ElectedIn(r.sent) == (if TallyReady(v, d) && Leader(v).Some? && Leader(v).value in d.nodes
                                     then [Leader(v).value] else [])
  {
    var v := CastVote(d.votes, self, choice);
    var vote: seq<Message> := if self !in d.votes && choice.Some? then [MasterVote(choice.value)] else [];
    assert VotesIn(vote) == (if vote == [] then [] else [choice.value]) by {
      if vote != [] { assert vote[..0] == []; }
    }
    assert ElectedIn(vote) == [] by {
      if vote != [] { assert vote[..0] == []; }
    }
    var d1 := d.(votes := v);
    assert TallyReady(v, d1) == TallyReady(v, d);
    var tally := if TallyReady(v, d) then TallyStep(d1, self).sent else [];
    assert DuePhase(d, self, choice).sent == vote + tally;
    if TallyReady(v, d) {
      TallySent(d1, self);
    }
    assert VotesIn(tally) == [];
    assert ElectedIn(tally) == (if TallyReady(v, d) && Leader(v).Some? && Leader(v).value in d.nodes
                                then [Leader(v).value] else []);
    VotesInAppend(vote, tally);
    ElectedInAppend(vote, tally);
  }

  /** What a tick broadcasts, in election terms: it starts with the
      Heartbeat; it holds exactly one MasterVote, naming the pick, when the
      vote is due and this node has not voted; and it announces exactly the
      unique plurality winner when a due tally finds one the view knows, and
      nobody otherwise. */
  lemma TickBroadcasts(d: NodeData, self: string, now: int, choice: Option<string>)
    ensures var t := TickStep(d, self, now, choice);
            var v := CastVote(d.votes, self, choice);
            && |t.sent| >= 1 && t.sent[0] == Heartbeat(d.own)
            && VotesIn(t.sent) == (if VoteDue(d.candidates, now) && self !in d.votes && choice.Some?
                                   then [choice.value] else [])
            && ElectedIn(t.sent) == (if VoteDue(d.candidates, now) && TallyReady(v, d)
                                        && Leader(v).Some? && Leader(v).value in d.nodes
                                     then [Leader(v).value] else [])
  {
    var beat := [Heartbeat(d.own)];
    assert VotesIn(beat) == [] by { assert beat[..0] == []; }
    assert ElectedIn(beat) == [] by { assert beat[..0] == []; }
    if VoteDue(d.candidates, now) {
      var r := DuePhase(d, self, choice);
      DuePhaseSent(d, self, choice);
      VotesInAppend(beat, r.sent);
      ElectedInAppend(beat, r.sent);
    }
  }

  /** A unique plurality winner that the view knows is flagged master and
      announced, and only it; nobody else's entry changes; both election
      maps are cleared. */
  lemma TickElectsUniqueLeader(d: NodeData, self: string, now: int, choice: Option<string>, w: string)
    requires VoteDue(d.candidates, now)
    requires TallyReady(CastVote(d.votes, self, choice), d)
    requires UniqueLeader(CastVote(d.votes, self, choice), w) && w in d.nodes
    ensures var t := TickStep(d, self, now, choice);
            && !t.crashed && ElectedIn(t.sent) == [w]
            && w in t.data.nodes && t.data.nodes[w].isMaster
            && (forall k :: k in d.nodes && k != w ==> k in t.data.nodes && t.data.nodes[k] == d.nodes[k])
            && t.data.candidates == map[] && t.data.votes == map[]
  {
    LeaderOf(CastVote(d.votes, self, choice), w);
    TickBroadcasts(d, self, now, choice);
    var t := TickStep(d, self, now, choice);
    assert ElectedIn(t.sent) != [];
  }

  /** When two ids share the largest count nobody is announced, the view is
      untouched, and both election maps are cleared. */
  lemma TickTieElectsNobody(d: NodeData, self: string, now: int, choice: Option<string>, c1: string, c2: string)
    requires VoteDue(d.candidates, now)
    requires var v := CastVote(d.votes, self, choice);
             && TallyReady(v, d)
             && c1 != c2 && c1 in v.Values && c2 in v.Values
             && VoteCount(v, c1) == VoteCount(v, c2)
             && (forall c :: c in v.Values ==> VoteCount(v, c) <= VoteCount(v, c1))
    ensures var t := TickStep(d, self, now, choice);
            && !t.crashed && ElectedIn(t.sent) == []
            && t.data == d.(candidates := map[], votes := map[])
  {
    TieHasNoLeader(CastVote(d.votes, self, choice), c1, c2);
    TickBroadcasts(d, self, now, choice);
  }

  /** A unique winner missing from the view is the KeyError of the tally: the
      loop dies after the vote, and neither map is cleared. */
  lemma TickCrashesOnUnknownWinner(d: NodeData, self: string, now: int, choice: Option<string>, w: string)
    requires VoteDue(d.candidates, now)
    requires TallyReady(CastVote(d.votes, self, choice), d)
    requires UniqueLeader(CastVote(d.votes, self, choice), w) && w !in d.nodes
    ensures var t := TickStep(d, self, now, choice);
            && t.crashed && ElectedIn(t.sent) == []
            && t.data == d.(votes := CastVote(d.votes, self, choice))
  {
    LeaderOf(CastVote(d.votes, self, choice), w);
    TickBroadcasts(d, self, now, choice);
  }

  /** Without a due vote, or before the vote, candidate and view sizes agree, a tick
      neither tallies nor clears anything; the only change is this node's own
      vote. */
  lemma TickWithoutTally(d: NodeData, self: string, now: int, choice: Option<string>)
    requires !VoteDue(d.candidates, now) || !TallyReady(CastVote(d.votes, self, choice), d)
    ensures var t := TickStep(d, self, now, choice);
            && !t.crashed && ElectedIn(t.sent) == []
            && t.data == d.(votes := if VoteDue(d.candidates, now) then CastVote(d.votes, self, choice) else d.votes)
  {
    TickBroadcasts(d, self, now, choice);
  }
}
