/** The records and the six message kinds of the mesh node
    (`NodeState`, `Heartbeat`, `ClusterStateRequest`, `ClusterStateResponse`,
    `MasterCandidate`, `MasterVote`, `MasterElected`), the type registry
    `MESSAGE_MAP`, and the JSON codec as a pair of functions. */
module Messages {
  import opened Wrappers
  import Envelope

  /** `NODE_HEARTBEAT_INTERVAL`, in seconds. */
  const HeartbeatInterval: int := 5

  /** A peer's last known liveness and role. Timestamps are whole seconds. */
  datatype NodeState = NodeState(nodeId: string, heartbeat: int, isMaster: bool)

  /** A self-nomination; the message `MasterCandidate` is stored as it is. */
  datatype Candidate = Candidate(nodeId: string, timestamp: int)

  datatype Message =
    | Heartbeat(state: NodeState)
    | ClusterStateRequest(requestId: string)
    | ClusterStateResponse(requestId: string, nodes: map<string, NodeState>)
    | MasterCandidate(candidate: Candidate)
    | MasterVote(nodeId: string)
    | MasterElected(electedNodeId: string)

  /** The class name written as the second field of a unit. */
  function TypeName(m: Message): (name: string)
    ensures name in MessageMap
  {
    match m
    case Heartbeat(_) => "Heartbeat"
    case ClusterStateRequest(_) => "ClusterStateRequest"
    case ClusterStateResponse(_, _) => "ClusterStateResponse"
    case MasterCandidate(_) => "MasterCandidate"
    case MasterVote(_) => "MasterVote"
    case MasterElected(_) => "MasterElected"
  }

  /** The tags `MESSAGE_MAP` knows. */
  const MessageMap: set<string> := {
    "Heartbeat", "ClusterStateRequest", "ClusterStateResponse",
    "MasterCandidate", "MasterVote", "MasterElected"
  }

  /** `json.dumps(encode(msg))` and `decode(json.loads(data), MESSAGE_MAP[tag])`.
      The codec itself is not part of this model: `decode` returns None where
      `json.loads` or `decode` would raise. */
  datatype Codec = Codec(encode: Message -> string, decode: (string, string) -> Option<Message>)

  /** What the model assumes of the codec where a lemma needs it: decoding the
      encoding of a message under its own class name gives the message back. */
  ghost predicate RoundTrips(codec: Codec) {
    forall m :: codec.decode(TypeName(m), codec.encode(m)) == Some(m)
  }

  /** The unit `broadcast(msg)` hands to `emit_message`. */
  function Wire(sender: string, codec: Codec, m: Message): string {
    Envelope.Format(sender, TypeName(m), codec.encode(m))
  }

  /** The units for a sequence of broadcasts, in order: one unit per
      message, and under a space-free sender id each unit splits back into
      that sender, its message's class name and its encoded payload. */
  function Frames(sender: string, codec: Codec, ms: seq<Message>): (units: seq<string>)
    ensures |units| == |ms|
    ensures ' ' !in sender ==>
              forall i :: 0 <= i < |ms| ==>
                Envelope.SplitEnvelope(units[i]) == Some(Envelope.Fields(sender, TypeName(ms[i]), codec.encode(ms[i])))
  {
    FramesSplit(sender, codec, ms);
    seq(|ms|, i requires 0 <= i < |ms| => Wire(sender, codec, ms[i]))
  }

  /** `WireSplits` for every message of a sequence. */
  lemma FramesSplit(sender: string, codec: Codec, ms: seq<Message>)
    ensures ' ' !in sender ==>
              forall i :: 0 <= i < |ms| ==>
                Envelope.SplitEnvelope(Wire(sender, codec, ms[i])) == Some(Envelope.Fields(sender, TypeName(ms[i]), codec.encode(ms[i])))
  {
    if ' ' !in sender {
      forall i | 0 <= i < |ms|
        ensures Envelope.SplitEnvelope(Wire(sender, codec, ms[i])) == Some(Envelope.Fields(sender, TypeName(ms[i]), codec.encode(ms[i])))
      {
        WireSplits(sender, codec, ms[i]);
      }
    }
  }

  lemma FramesAppend(sender: string, codec: Codec, a: seq<Message>, b: seq<Message>)
    ensures Frames(sender, codec, a + b) == Frames(sender, codec, a) + Frames(sender, codec, b)
  {
  }

  /** Units broadcast in two stretches extend an outbox as those broadcast in one. */
  lemma FramesAfter(sender: string, codec: Codec, out: seq<string>, a: seq<Message>, b: seq<Message>)
    ensures out + Frames(sender, codec, a) + Frames(sender, codec, b) == out + Frames(sender, codec, a + b)
  {
    FramesAppend(sender, codec, a, b);
  }

  /** The sender and class name of a broadcast unit are recovered by the
      receiver whenever the sender id holds no space. */
  lemma WireSplits(sender: string, codec: Codec, m: Message)
    requires ' ' !in sender
    ensures Envelope.SplitEnvelope(Wire(sender, codec, m))
            == Some(Envelope.Fields(sender, TypeName(m), codec.encode(m)))
  {
    assert ' ' !in TypeName(m) by {
      match m
      case Heartbeat(_) =>
      case ClusterStateRequest(_) =>
      case ClusterStateResponse(_, _) =>
      case MasterCandidate(_) =>
      case MasterVote(_) =>
      case MasterElected(_) =>
    }
    Envelope.SplitFormatRoundTrip(sender, TypeName(m), codec.encode(m));
  }
}
