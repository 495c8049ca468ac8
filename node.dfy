/** The mesh node of `fork_node`: its membership view, candidate and vote
    maps, outstanding request ids, the receive path `on_msg` with its six
    handlers, and one pass of the heartbeat loop.

    The closure variables become the fields of class `Node`; `emit_message` is
    the `outbox` the node appends units to. The pure functions `Receive` and
    `TickStep` say what one received unit and one tick do to the node's data,
    and the class's methods are proved to do exactly that. */
module MeshNode {
  import opened Wrappers
  import Envelope
  import opened Messages
  import opened Election

  /** The node's mutable data. `own` is the `node_state` object; `ownAliased`
      records whether `nodes[self]` still is that same object (it stops being
      so once a Heartbeat whose payload names our own id arrives from another
      sender and replaces the entry). `handled` lists the request ids for which
      the cluster-state response handler ran. */
  datatype NodeData = NodeData(
    nodes: map<string, NodeState>,
    own: NodeState,
    ownAliased: bool,
    candidates: map<string, Candidate>,
    votes: map<string, string>,
    requests: set<string>,
    handled: seq<string>)

  /** What holds of a node's data at all times: it knows itself, and while
      the entry is shared it is the node's own record. */
  ghost predicate Consistent(d: NodeData, self: string) {
    && self in d.nodes
    && d.own.nodeId == self
    && (d.ownAliased ==> d.nodes[self] == d.own)
  }

  /** At-most-once correlation: every run of the response handler for an id,
      plus the id still being outstanding, is paid for by one sent request. */
  ghost predicate Correlated(sent: seq<string>, requests: set<string>, handled: seq<string>) {
    forall rid :: multiset(handled)[rid] + (if rid in requests then 1 else 0) <= multiset(sent)[rid]
  }

  // -----------------------------------------------------------------------
  // Receiving a unit

  /** What `on_msg` makes of a unit before any handler runs. */
  datatype Inbound =
    | Malformed                       // fewer than three fields: ValueError, logged
    | OwnMessage                      // sent by this node: ignored
    | UnknownType(tag: string)        // not in MESSAGE_MAP: logged
    | Undecodable(tag: string)        // json.loads or decode raised: logged
    | Deliver(sender: string, msg: Message)

  function Parse(self: string, codec: Codec, raw: string): Inbound {
    match Envelope.SplitEnvelope(raw)
    case None => Malformed
    case Some(f) =>
      if f.sender == self then OwnMessage
      else if f.tag !in MessageMap then UnknownType(f.tag)
      else match codec.decode(f.tag, f.payload)
        case None => Undecodable(f.tag)
        case Some(m) => Deliver(f.sender, m)
  }

  /** No entry of the view is flagged master. */
  predicate NoMaster(nodes: map<string, NodeState>) {
    forall k :: k in nodes ==> !nodes[k].isMaster
  }

  /** The data after a step and the messages broadcast during it, in order. */
  datatype Step = Step(data: NodeData, sent: seq<Message>)

  /** The six handlers; `sender` is the envelope's sender id (the message
      metadata of the source). */
  function Handle(d: NodeData, self: string, sender: string, m: Message): Step {
    match m
    case Heartbeat(p) =>
      var d1 := d.(nodes := d.nodes[p.nodeId := p], ownAliased := d.ownAliased && p.nodeId != self);
      if NoMaster(d1.nodes) then
        Step(d1.(candidates := d.candidates[d.own.nodeId := Candidate(d.own.nodeId, d.own.heartbeat)]),
             [MasterCandidate(Candidate(self, d.own.heartbeat))])
      else Step(d1, [])
    case ClusterStateRequest(rid) =>
      Step(d, [ClusterStateResponse(rid, d.nodes)])
    case ClusterStateResponse(rid, _) =>
      if rid in d.requests then
        Step(d.(requests := d.requests - {rid}, handled := d.handled + [rid]), [])
      else Step(d, [])
    case MasterCandidate(c) =>
      Step(d.(candidates := d.candidates[c.nodeId := c]), [])
    case MasterVote(target) =>
      Step(d.(votes := d.votes[sender := target]), [])
    case MasterElected(w) =>
      var d1 := d.(candidates := map[], votes := map[]);
      if w == self then
        var own := d.own.(isMaster := true);
        Step(d1.(own := own, nodes := if d.ownAliased then d.nodes[self := own] else d.nodes),
             [Heartbeat(own)])
      else Step(d1, [])
  }

  /** One unit through `on_msg`: parsed, then handled if delivered; every
      failure before the handler leaves the data as it was. */
  function Receive(d: NodeData, self: string, codec: Codec, raw: string): Step {
    match Parse(self, codec, raw)
    case Deliver(sender, m) => Handle(d, self, sender, m)
    case _ => Step(d, [])
  }

  // -----------------------------------------------------------------------
  // One pass of the heartbeat loop

  /** The votes after the vote phase: a node that has not voted records its
      pick under its own id. */
  function CastVote(votes: map<string, string>, self: string, choice: Option<string>): map<string, string> {
    if self !in votes && choice.Some? then votes[self := choice.value] else votes
  }

  /** Line 347: as many recorded votes as candidates, and as many candidates
      as known nodes (only the sizes are compared). */
  predicate TallyReady(votes: map<string, string>, d: NodeData) {
    |votes| == |d.candidates| && |d.candidates| == |d.nodes|
  }

  datatype TickResult = TickResult(data: NodeData, sent: seq<Message>, crashed: bool)

  /** The tally of lines 348-379 over `d.votes`: a unique plurality winner is
      flagged master in the view (the node's own record too, while shared) and
      announced; a tie announces nobody; both clear the election maps. An
      elected id missing from the view is the uncaught KeyError of line 368:
      the loop dies and nothing is cleared. */
  ghost function TallyStep(d: NodeData, self: string): TickResult {
    match Leader(d.votes)
    case None => TickResult(d.(candidates := map[], votes := map[]), [], false)
    case Some(w) =>
      if w !in d.nodes then TickResult(d, [], true)
      else
        var own := if w == self && d.ownAliased then d.own.(isMaster := true) else d.own;
        TickResult(d.(nodes := d.nodes[w := d.nodes[w].(isMaster := true)], own := own,
                      candidates := map[], votes := map[]),
                   [MasterElected(w), Heartbeat(own)], false)
  }

  /** The vote and tally phases of a pass whose vote is due: the node votes
      for `choice` unless it already voted, then tallies once the vote,
      candidate and view sizes agree. */
  ghost function DuePhase(d: NodeData, self: string, choice: Option<string>): TickResult {
    var sent := if self !in d.votes && choice.Some? then [MasterVote(choice.value)] else [];
    var d1 := d.(votes := CastVote(d.votes, self, choice));
    if !TallyReady(d1.votes, d1) then TickResult(d1, sent, false)
    else
      var t := TallyStep(d1, self);
      TickResult(t.data, sent + t.sent, t.crashed)
  }

  /** One pass of the `while` body. `choice` is what `random.choice` picked
      (used only when this node votes). */
  ghost function TickStep(d: NodeData, self: string, now: int, choice: Option<string>): TickResult {
    var beat := [Heartbeat(d.own)];
    if !VoteDue(d.candidates, now) then TickResult(d, beat, false)
    else
      var r := DuePhase(d, self, choice);
      TickResult(r.data, beat + r.sent, r.crashed)
  }

  /** A due pass is the heartbeat followed by the due phase. */
  lemma DueTickFrames(d: NodeData, self: string, codec: Codec, now: int, choice: Option<string>, out: seq<string>)
    requires VoteDue(d.candidates, now)
    ensures var r := DuePhase(d, self, choice);
            var t := TickStep(d, self, now, choice);
            && t.data == r.data && t.crashed == r.crashed
            && out + Frames(self, codec, t.sent)
               == out + Frames(self, codec, [Heartbeat(d.own)]) + Frames(self, codec, r.sent)
  {
    FramesAppend(self, codec, [Heartbeat(d.own)], DuePhase(d, self, choice).sent);
  }

  // -----------------------------------------------------------------------
  // The node

  class Node {
    const id: string
    const codec: Codec
    var nodes: map<string, NodeState>
    var own: NodeState
    var ownAliased: bool
    var candidates: map<string, Candidate>
    var votes: map<string, string>
    var requests: set<string>
    var handled: seq<string>
    var outbox: seq<string>
    /** False once the heartbeat loop has died of the KeyError. */
    var loopRunning: bool
    /** Every request id ever passed to `send_request`, in order. */
    ghost var sentRequests: seq<string>

    function Data(): NodeData
      reads this
    {
      NodeData(nodes, own, ownAliased, candidates, votes, requests, handled)
    }

    ghost predicate Valid()
      reads this
    {
      Consistent(Data(), id)
    }

    /** Responses are correlated with the requests sent: see `Correlated`. */
    ghost predicate Paid()
      reads this`sentRequests, this`requests, this`handled
    {
      Correlated(sentRequests, requests, handled)
    }

    /** The data is the step's and the outbox has grown by the step's units. */
    ghost predicate Reflects(s: Step, outboxBefore: seq<string>)
      reads this
    {
      Data() == s.data && outbox == outboxBefore + Frames(id, codec, s.sent)
    }

    /** Start-up state (lines 302-311): the node's own record seeds the
        view; no candidates, votes or outstanding requests. */
    constructor Init(id: string, codec: Codec, now: int)
      ensures Valid() && Paid() && loopRunning
      ensures this.id == id && this.codec == codec
      ensures own == NodeState(id, now, false) && ownAliased
      ensures nodes == map[id := own]
      ensures candidates == map[] && votes == map[]
      ensures requests == {} && handled == [] && sentRequests == [] && outbox == []
    {
      this.id := id;
      this.codec := codec;
      requests := {};
      own := NodeState(id, now, false);
      ownAliased := true;
      candidates := map[];
      votes := map[];
      nodes := map[id := NodeState(id, now, false)];
      handled := [];
      outbox := [];
      loopRunning := true;
      sentRequests := [];
    }

    /** Lines 313-315: send a ClusterStateRequest under the fresh id `rid`,
        then broadcast a first Heartbeat. */
    method Announce(rid: string)
      requires Valid() && Paid()
      modifies this`requests, this`sentRequests, this`outbox
      ensures Valid() && Paid()
      ensures requests == old(requests) + {rid} && sentRequests == old(sentRequests) + [rid]
      ensures outbox == old(outbox) + Frames(id, codec, [ClusterStateRequest(rid), Heartbeat(own)])
    {
      SendRequest(rid);
      Broadcast(Heartbeat(own));
    }

    /** `broadcast`: format the unit and emit it. */
    method Broadcast(m: Message)
      modifies this`outbox
      ensures outbox == old(outbox) + [Wire(id, codec, m)]
    {
      outbox := outbox + [Wire(id, codec, m)];
    }

    /** `send_request`: record the id as outstanding, then broadcast. */
    method SendRequest(rid: string)
      requires Valid() && Paid()
      modifies this`requests, this`sentRequests, this`outbox
      ensures Valid() && Paid()
      ensures requests == old(requests) + {rid} && sentRequests == old(sentRequests) + [rid]
      ensures outbox == old(outbox) + [Wire(id, codec, ClusterStateRequest(rid))]
    {
      requests := requests + {rid};
      sentRequests := sentRequests + [rid];
      Broadcast(ClusterStateRequest(rid));
    }

    method OnHeartbeat(sender: string, p: NodeState)
      requires Valid()
      modifies this`nodes, this`ownAliased, this`candidates, this`outbox
      ensures Valid() && Reflects(Handle(old(Data()), id, sender, Heartbeat(p)), old(outbox))
    {
      nodes := nodes[p.nodeId := p];
      if p.nodeId == id {
        ownAliased := false;
      }
      if NoMaster(nodes) {
        candidates := candidates[own.nodeId := Candidate(own.nodeId, own.heartbeat)];
        Broadcast(MasterCandidate(Candidate(id, own.heartbeat)));
      }
    }

    method OnClusterStateRequest(sender: string, rid: string)
      requires Valid()
      modifies this`outbox
      ensures Valid() && Reflects(Handle(old(Data()), id, sender, ClusterStateRequest(rid)), old(outbox))
    {
      Broadcast(ClusterStateResponse(rid, nodes));
    }

    /** `on_cluster_state_response` wrapped by `handle_response`: the handler
        (which only logs) runs only for an outstanding id, removed first. */
    method OnClusterStateResponse(sender: string, rid: string, view: map<string, NodeState>)
      requires Valid() && Paid()
      modifies this`requests, this`handled
      ensures Valid() && Paid() && Reflects(Handle(old(Data()), id, sender, ClusterStateResponse(rid, view)), old(outbox))
    {
      if rid in requests {
        requests := requests - {rid};
        handled := handled + [rid];
      }
    }

    method OnMasterCandidate(sender: string, c: Candidate)
      requires Valid()
      modifies this`candidates
      ensures Valid() && Reflects(Handle(old(Data()), id, sender, MasterCandidate(c)), old(outbox))
    {
      candidates := candidates[c.nodeId := c];
    }

    /** The voter is the envelope's sender, never a field of the payload. */
    method OnMasterVote(sender: string, target: string)
      requires Valid()
      modifies this`votes
      ensures Valid() && Reflects(Handle(old(Data()), id, sender, MasterVote(target)), old(outbox))
    {
      votes := votes[sender := target];
    }

    method OnMasterElected(sender: string, w: string)
      requires Valid()
      modifies this`nodes, this`own, this`candidates, this`votes, this`outbox
      ensures Valid() && Reflects(Handle(old(Data()), id, sender, MasterElected(w)), old(outbox))
    {
      candidates := map[];
      votes := map[];
      if w == id {
        own := own.(isMaster := true);
        if ownAliased {
          nodes := nodes[id := own];
        }
        Broadcast(Heartbeat(own));
      }
    }

    /** `on_msg`: split, drop own units, look the tag up, decode, dispatch.
        Every failure on the way is caught and logged and changes nothing. */
    method OnMessage(raw: string)
      requires Valid() && Paid()
      modifies this`nodes, this`own, this`ownAliased, this`candidates, this`votes, this`requests, this`handled, this`outbox
      ensures Valid() && Paid() && Reflects(Receive(old(Data()), id, codec, raw), old(outbox))
    {
      ghost var ignored := Step(Data(), []);
      assert Frames(id, codec, []) == [];
      var fields := Envelope.SplitEnvelope(raw);
      if fields.None? {
        assert Receive(Data(), id, codec, raw) == ignored;
        return;
      }
      var f := fields.value;
      if f.sender == id {
        assert Receive(Data(), id, codec, raw) == ignored;
        return;
      }
      if f.tag !in MessageMap {
        assert Receive(Data(), id, codec, raw) == ignored;
        return;
      }
      var decoded := codec.decode(f.tag, f.payload);
      if decoded.None? {
        assert Receive(Data(), id, codec, raw) == ignored;
        return;
      }
      assert Receive(Data(), id, codec, raw) == Handle(Data(), id, f.sender, decoded.value);
      Dispatch(f.sender, decoded.value);
    }

    /** `message_handlers[type(msg)](msg, metadata)`: the handler for the
        message's class. */
    method Dispatch(sender: string, m: Message)
      requires Valid() && Paid()
      modifies this`nodes, this`own, this`ownAliased, this`candidates, this`votes, this`requests, this`handled, this`outbox
      ensures Valid() && Paid() && Reflects(Handle(old(Data()), id, sender, m), old(outbox))
    {
      match m
      case Heartbeat(p) => OnHeartbeat(sender, p);
      case ClusterStateRequest(rid) => OnClusterStateRequest(sender, rid);
      case ClusterStateResponse(rid, view) => OnClusterStateResponse(sender, rid, view);
      case MasterCandidate(c) => OnMasterCandidate(sender, c);
      case MasterVote(target) => OnMasterVote(sender, target);
      case MasterElected(w) => OnMasterElected(sender, w);
    }

    /** The vote phase: a node that has not voted yet picks one of the
        candidates (`random.choice`), records the vote under its own id and
        broadcasts it. */
    method CastOwnVote() returns (choice: Option<string>)
      requires Valid() && candidates != map[]
      modifies this`votes, this`outbox
      ensures Valid()
      ensures choice.Some? <==> id !in old(votes)
      ensures choice.Some? ==> choice.value in candidates
      ensures votes == CastVote(old(votes), id, choice)
      ensures outbox == old(outbox) + (if choice.Some? then [Wire(id, codec, MasterVote(choice.value))] else [])
    {
      choice := None;
      if id !in votes {
        var pick :| pick in candidates;
        choice := Some(pick);
        votes := votes[id := pick];
        Broadcast(MasterVote(pick));
      }
    }

    /** The tally phase, entered once the vote, candidate and view sizes
        agree. */
    method TallyVotes() returns (crashed: bool)
      requires Valid() && TallyReady(votes, Data())
      modifies this`nodes, this`own, this`candidates, this`votes, this`outbox
      ensures Valid()
      ensures var r := TallyStep(old(Data()), id);
              Reflects(Step(r.data, r.sent), old(outbox)) && crashed == r.crashed
    {
      crashed := false;
      assert id in nodes;
      var winner := Tally(votes);
      if winner.Some? {
        crashed := winner.value !in nodes;
        if !crashed {
          ElectWinner(winner.value);
        }
      } else {
        candidates := map[];
        votes := map[];
      }
    }

    /** Lines 368-370 and 378-379 for a winner `w` present in the view. */
    method ElectWinner(w: string)
      requires Valid() && w in nodes
      modifies this`nodes, this`own, this`candidates, this`votes, this`outbox
      ensures Valid()
      ensures var own' := if w == id && old(ownAliased) then old(own).(isMaster := true) else old(own);
              && nodes == old(nodes)[w := old(nodes)[w].(isMaster := true)]
              && own == own'
              && outbox == old(outbox) + Frames(id, codec, [MasterElected(w), Heartbeat(own')])
      ensures candidates == map[] && votes == map[]
    {
      nodes := nodes[w := nodes[w].(isMaster := true)];
      if w == id && ownAliased {
        own := own.(isMaster := true);
      }
      Broadcast(MasterElected(w));
      Broadcast(Heartbeat(own));
      candidates := map[];
      votes := map[];
    }

    /** Lines 333-379 once the vote is due: vote, and tally when ready. */
    method VoteAndTally() returns (choice: Option<string>, crashed: bool)
      requires Valid() && candidates != map[]
      modifies this`nodes, this`own, this`candidates, this`votes, this`outbox
      ensures Valid()
      ensures choice.Some? <==> id !in old(votes)
      ensures choice.Some? ==> choice.value in old(candidates)
      ensures var r := DuePhase(old(Data()), id, choice);
              Reflects(Step(r.data, r.sent), old(outbox)) && crashed == r.crashed
    {
      ghost var d0, out0 := Data(), outbox;
      crashed := false;
      choice := CastOwnVote();
      ghost var sent := if choice.Some? then [MasterVote(choice.value)] else [];
      assert outbox == out0 + Frames(id, codec, sent);
      ghost var d1 := Data();
      assert d1 == d0.(votes := CastVote(d0.votes, id, choice));
      ghost var r := DuePhase(d0, id, choice);
      if |votes| == |candidates| && |candidates| == |nodes| {
        ghost var t := TallyStep(d1, id);
        assert r == TickResult(t.data, sent + t.sent, t.crashed);
        crashed := TallyVotes();
        FramesAfter(id, codec, out0, sent, t.sent);
      } else {
        assert r == TickResult(d1, sent, false);
      }
    }

    /** Lines 320-333: the vote is due when the earliest candidate's
        nomination is older than the interval (never with no candidates). */
    method VoteIsDue(now: int) returns (due: bool)
      ensures due <==> VoteDue(candidates, now)
      ensures due ==> candidates != map[]
    {
      var earliest := EarliestCandidate(candidates);
      due := earliest.Some? && now - earliest.value.timestamp > HeartbeatInterval;
      if earliest.Some? {
        EarliestDecidesDue(candidates, earliest.value, now);
      } else {
        assert candidates.Values == {};
      }
    }

    /** One pass of the heartbeat loop at time `now`: broadcast a Heartbeat of
        the (never refreshed) own record; when the earliest candidate is older
        than the interval, vote once and, once the vote, candidate and view
        sizes agree, tally. `choice` is the random pick, `crashed` the
        KeyError that ends the loop. */
    method Tick(now: int) returns (choice: Option<string>, crashed: bool)
      requires Valid() && loopRunning
      modifies this`nodes, this`own, this`candidates, this`votes, this`outbox, this`loopRunning
      ensures Valid()
      ensures choice.Some? <==> VoteDue(old(candidates), now) && id !in old(votes)
      ensures choice.Some? ==> choice.value in old(candidates)
      ensures var r := TickStep(old(Data()), id, now, choice);
              Reflects(Step(r.data, r.sent), old(outbox)) && crashed == r.crashed
      ensures loopRunning == !crashed
    {
      ghost var d0, out0 := Data(), outbox;
      ghost var beat := [Heartbeat(d0.own)];
      Broadcast(Heartbeat(own));
      assert outbox == out0 + Frames(id, codec, beat);
      assert Valid();
      var due := VoteIsDue(now);
      if due {
        choice, crashed := VoteAndTally();
        DueTickFrames(d0, id, codec, now, choice, out0);
        loopRunning := !crashed;
      } else {
        choice, crashed := None, false;
        assert TickStep(d0, id, now, choice) == TickResult(d0, beat, false);
      }
    }
  }
}
