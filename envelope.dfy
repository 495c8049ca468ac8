/** The wire unit of the mesh: `"<sender> <TypeName> <json>"`, built by
    `broadcast` and taken apart by `on_msg` with `split(b" ", maxsplit=2)`.
    Bytes are modelled as characters; UTF-8 is not modelled. */
module Envelope {
  import opened Wrappers

  /** The three fields of a unit that split successfully. */
  datatype Fields = Fields(sender: string, tag: string, payload: string)

  /** Formatting a unit: the three fields joined by single spaces. */
  function Format(sender: string, tag: string, payload: string): string {
    sender + " " + tag + " " + payload
  }

  /** Index of the first space of `s`, if any. */
  function FirstSpace(s: string): (r: Option<nat>)
    ensures r.None? <==> ' ' !in s
    ensures r.Some? ==> r.value < |s| && s[r.value] == ' ' && ' ' !in s[..r.value]
  {
    if s == [] then None
    else if s[0] == ' ' then Some(0)
    else match FirstSpace(s[1..])
      case None => None
      case Some(i) =>
        assert s[..i + 1] == [s[0]] + s[1..][..i];
        Some(i + 1)
  }

  /** `bytes.split(b" ", maxsplit=2)` unpacked into exactly three names: the
      result is None when the unit holds fewer than two spaces (the unpacking
      raises). Empty fields are allowed, as in Python. */
  function SplitEnvelope(raw: string): (r: Option<Fields>)
    ensures r.Some? ==> raw == Format(r.value.sender, r.value.tag, r.value.payload)
    ensures r.Some? ==> ' ' !in r.value.sender && ' ' !in r.value.tag
  {
    match FirstSpace(raw)
    case None => None
    case Some(i) =>
      var rest := raw[i + 1..];
      match FirstSpace(rest)
      case None => None
      case Some(j) =>
        RejoinAtSpaces(raw, i, j);
        Some(Fields(raw[..i], rest[..j], rest[j + 1..]))
  }

  /** Cutting at two spaces loses nothing: the pieces rejoin to the unit. */
  lemma RejoinAtSpaces(raw: string, i: nat, j: nat)
    requires i < |raw| && raw[i] == ' '
    requires j < |raw[i + 1..]| && raw[i + 1..][j] == ' '
    ensures raw == Format(raw[..i], raw[i + 1..][..j], raw[i + 1..][j + 1..])
  {
    var rest := raw[i + 1..];
    assert rest == rest[..j] + " " + rest[j + 1..];
    assert raw == raw[..i] + " " + rest;
  }

  lemma {:induction false} FirstSpaceAfterWord(s: string, tail: string)
    requires ' ' !in s
    ensures FirstSpace(s + " " + tail) == Some(|s|)
  {
    if s != [] {
      assert (s + " " + tail)[1..] == s[1..] + " " + tail;
      FirstSpaceAfterWord(s[1..], tail);
    }
  }

  /** Formatting and then splitting recovers sender, tag and payload exactly
      when neither sender nor tag contains a space; the payload may contain
      any number of spaces. */
  lemma SplitFormatRoundTrip(sender: string, tag: string, payload: string)
    ensures SplitEnvelope(Format(sender, tag, payload)) == Some(Fields(sender, tag, payload))
            <==> ' ' !in sender && ' ' !in tag
  {
    var raw := Format(sender, tag, payload);
    if ' ' !in sender && ' ' !in tag {
      var rest := tag + " " + payload;
      assert raw == sender + " " + rest;
      FirstSpaceAfterWord(sender, rest);
      assert raw[..|sender|] == sender;
      assert raw[|sender| + 1..] == rest;
      FirstSpaceAfterWord(tag, payload);
      assert rest[..|tag|] == tag;
      assert rest[|tag| + 1..] == payload;
    }
  }

  /** A unit is split into fields exactly when it has some decomposition into
      a space-free sender, a space-free tag and a payload. */
  lemma SplitSucceedsIffWellFormed(raw: string)
    ensures SplitEnvelope(raw).Some? <==>
            exists s, t, p :: ' ' !in s && ' ' !in t && raw == Format(s, t, p)
  {
    if SplitEnvelope(raw).Some? {
      var f := SplitEnvelope(raw).value;
      assert ' ' !in f.sender && ' ' !in f.tag && raw == Format(f.sender, f.tag, f.payload);
    }
    if exists s, t, p :: ' ' !in s && ' ' !in t && raw == Format(s, t, p) {
      var s, t, p :| ' ' !in s && ' ' !in t && raw == Format(s, t, p);
      SplitFormatRoundTrip(s, t, p);
    }
  }

  /** A unit with a single space (two fields) is rejected. */
  lemma {:induction false} TwoFieldsRejected(a: string, b: string)
    requires ' ' !in a && ' ' !in b
    ensures SplitEnvelope(a + " " + b) == None
  {
    FirstSpaceAfterWord(a, b);
    assert (a + " " + b)[|a| + 1..] == b;
  }

  /** Characters of `string.ascii_letters + string.digits`. */
  predicate IsIdChar(c: char) {
    'a' <= c <= 'z' || 'A' <= c <= 'Z' || '0' <= c <= '9'
  }

  predicate IsRequestId(rid: string) {
    |rid| == 8 && forall i :: 0 <= i < |rid| ==> IsIdChar(rid[i])
  }

  /** `gen_request_id`: eight characters drawn (here: chosen arbitrarily)
      from letters and digits. */
  method GenRequestId() returns (rid: string)
    ensures |rid| == 8
    ensures forall i :: 0 <= i < |rid| ==> IsIdChar(rid[i])
    ensures ' ' !in rid
  {
    var sample := "aaaaaaaa";
    assert IsRequestId(sample);
    var picked :| IsRequestId(picked);
    assert IsRequestId(picked);
    rid := picked;
  }
}
