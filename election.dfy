/** The election arithmetic of the heartbeat loop: the earliest candidate
    (`node.py` lines 320-331) and the plurality tally over the recorded votes
    (lines 347-366). */
module Election {
  import opened Wrappers
  import opened Messages

  // ---------------------------------------------------------------------
  // Earliest candidate

  /** `c` is a candidate with the least nomination timestamp. */
  ghost predicate IsEarliest(cands: map<string, Candidate>, c: Candidate) {
    c in cands.Values && forall d :: d in cands.Values ==> c.timestamp <= d.timestamp
  }

  /** The vote phase of a tick is due: some candidate's nomination is older
      than the heartbeat interval. */
  ghost predicate VoteDue(cands: map<string, Candidate>, now: int) {
    exists c :: c in cands.Values && now - c.timestamp > HeartbeatInterval
  }

  /** The source tests only the earliest candidate's age; that test is the same
      as asking whether any candidate is older than the interval. */
  lemma EarliestDecidesDue(cands: map<string, Candidate>, e: Candidate, now: int)
    requires IsEarliest(cands, e)
    ensures now - e.timestamp > HeartbeatInterval <==> VoteDue(cands, now)
  {
    if VoteDue(cands, now) {
      var c :| c in cands.Values && now - c.timestamp > HeartbeatInterval;
      assert e.timestamp <= c.timestamp;
    }
  }

  /** The `next(...)` search for a candidate whose timestamp equals the
      minimum; which of several such candidates is found does not matter. */
  method EarliestCandidate(cands: map<string, Candidate>) returns (r: Option<Candidate>)
    ensures r.None? <==> cands == map[]
    ensures r.Some? ==> IsEarliest(cands, r.value)
  {
    r := None;
    var pending := cands.Keys;
    while pending != {}
      invariant pending <= cands.Keys
      invariant r.None? <==> pending == cands.Keys
      invariant r.Some? ==> r.value in cands.Values
      invariant r.Some? ==> forall k :: k in cands && k !in pending ==> r.value.timestamp <= cands[k].timestamp
      decreases pending
    {
      var k :| k in pending;
      if r.None? || cands[k].timestamp < r.value.timestamp {
        r := Some(cands[k]);
      }
      pending := pending - {k};
    }
    if cands != map[] {
      var k :| k in cands;
      assert k !in pending;
    }
  }

  // ---------------------------------------------------------------------
  // Vote tally

  /** How many of `voters` voted for `c`. */
  ghost function CountAmong(votes: map<string, string>, voters: set<string>, c: string): nat {
    |set v | v in voters && v in votes && votes[v] == c|
  }

  /** How many recorded votes name `c`. */
  ghost function VoteCount(votes: map<string, string>, c: string): nat {
    CountAmong(votes, votes.Keys, c)
  }

  /** `w` received votes and strictly more of them than every other id that
      received votes. */
  ghost predicate UniqueLeader(votes: map<string, string>, w: string) {
    && w in votes.Values
    && forall c :: c in votes.Values && c != w ==> VoteCount(votes, c) < VoteCount(votes, w)
  }

  /** The outcome of a tally: the unique plurality winner, or None on a tie. */
  ghost function Leader(votes: map<string, string>): (r: Option<string>)
    ensures r.Some? ==> UniqueLeader(votes, r.value)
    ensures r.None? ==> forall w :: !UniqueLeader(votes, w)
  {
    if exists w :: UniqueLeader(votes, w) then
      Some(var w :| UniqueLeader(votes, w); w)
    else None
  }

  /** There is at most one unique leader. */
  lemma LeaderIsUnique(votes: map<string, string>, w1: string, w2: string)
    requires UniqueLeader(votes, w1) && UniqueLeader(votes, w2)
    ensures w1 == w2
  {
  }

  /** A unique leader is what `Leader` returns. */
  lemma LeaderOf(votes: map<string, string>, w: string)
    requires UniqueLeader(votes, w)
    ensures Leader(votes) == Some(w)
  {
    LeaderIsUnique(votes, w, Leader(votes).value);
  }

  /** Two ids with the same, largest count mean that nobody wins. */
  lemma TieHasNoLeader(votes: map<string, string>, c1: string, c2: string)
    requires c1 != c2 && c1 in votes.Values && c2 in votes.Values
    requires VoteCount(votes, c1) == VoteCount(votes, c2)
    requires forall c :: c in votes.Values ==> VoteCount(votes, c) <= VoteCount(votes, c1)
    ensures Leader(votes) == None
  {
    forall w | w in votes.Values ensures !UniqueLeader(votes, w) {
      var other := if w != c1 then c1 else c2;
      assert other in votes.Values && other != w;
      assert VoteCount(votes, w) <= VoteCount(votes, other);
    }
  }

  lemma CountAmongAdd(votes: map<string, string>, done: set<string>, v: string, c: string)
    requires v in votes && v !in done
    ensures CountAmong(votes, done + {v}, c)
            == CountAmong(votes, done, c) + (if votes[v] == c then 1 else 0)
  {
    var a := set u | u in done && u in votes && votes[u] == c;
    var b := set u | u in done + {v} && u in votes && votes[u] == c;
    if votes[v] == c {
      assert b == a + {v};
    } else {
      assert b == a;
    }
  }

  /** An id has votes exactly when its count is positive. */
  lemma CountPositive(votes: map<string, string>, c: string)
    ensures c in votes.Values <==> VoteCount(votes, c) > 0
  {
    var s := set v | v in votes.Keys && v in votes && votes[v] == c;
    if c in votes.Values {
      var v :| v in votes && votes[v] == c;
      assert v in s;
    }
    if |s| > 0 {
      var v :| v in s;
    }
  }

  /** The `votes_count` loop (lines 348-354): one entry per id that received
      votes, holding its number of votes. */
  method CountVotes(votes: map<string, string>) returns (counts: map<string, nat>)
    ensures forall c :: c in counts <==> c in votes.Values
    ensures forall c :: c in counts ==> counts[c] == VoteCount(votes, c)
  {
    counts := map[];
    var voters := votes.Keys;
    while voters != {}
      invariant voters <= votes.Keys
      invariant forall c :: c in counts <==> CountAmong(votes, votes.Keys - voters, c) > 0
      invariant forall c :: c in counts ==> counts[c] == CountAmong(votes, votes.Keys - voters, c)
      decreases voters
    {
      var v :| v in voters;
      var c := votes[v];
      assert votes.Keys - (voters - {v}) == (votes.Keys - voters) + {v};
      forall d ensures CountAmong(votes, votes.Keys - (voters - {v}), d)
                       == CountAmong(votes, votes.Keys - voters, d) + (if c == d then 1 else 0)
      {
        CountAmongAdd(votes, votes.Keys - voters, v, d);
      }
      if c in counts {
        counts := counts[c := counts[c] + 1];
      } else {
        counts := counts[c := 1];
      }
      voters := voters - {v};
    }
    assert votes.Keys - voters == votes.Keys;
    forall c ensures c in counts <==> c in votes.Values {
      CountPositive(votes, c);
    }
  }

  /** The `votes_nodes_by_count` loop (lines 356-362): for every count that
      occurs, the non-empty set of ids having exactly that count. */
  method GroupByCount(counts: map<string, nat>) returns (byCount: map<nat, set<string>>)
    ensures forall c :: c in counts ==> counts[c] in byCount
    ensures forall k :: k in byCount ==> byCount[k] != {}
    ensures forall k, c :: k in byCount ==> (c in byCount[k] <==> c in counts && counts[c] == k)
  {
    byCount := map[];
    var rest := counts.Keys;
    while rest != {}
      invariant rest <= counts.Keys
      invariant forall c :: c in counts && c !in rest ==> counts[c] in byCount
      invariant forall k :: k in byCount ==> byCount[k] != {}
      invariant forall k, c :: k in byCount ==> (c in byCount[k] <==> c in counts && c !in rest && counts[c] == k)
      decreases rest
    {
      var c :| c in rest;
      if counts[c] in byCount {
        byCount := byCount[counts[c] := byCount[counts[c]] + {c}];
      } else {
        byCount := byCount[counts[c] := {c}];
      }
      rest := rest - {c};
    }
  }

  /** `max(...)` over a non-empty set of counts. */
  method MaxCount(keys: set<nat>) returns (m: nat)
    requires keys != {}
    ensures m in keys
    ensures forall k :: k in keys ==> k <= m
  {
    var pending := keys;
    m :| m in pending;
    pending := pending - {m};
    while pending != {}
      invariant pending <= keys && m in keys
      invariant forall k :: k in keys && k !in pending ==> k <= m
      decreases pending
    {
      var k :| k in pending;
      if k > m {
        m := k;
      }
      pending := pending - {k};
    }
  }

  /** The tally of lines 348-366: count the votes per id, group the ids by
      count, take the largest count and elect its id when it is the only one
      with that count; otherwise it is a tie. */
  method Tally(votes: map<string, string>) returns (winner: Option<string>)
    requires votes != map[]
    ensures winner == Leader(votes)
  {
    var counts := CountVotes(votes);
    var byCount := GroupByCount(counts);
    var v0 :| v0 in votes;
    assert votes[v0] in counts;
    var maxVotes := MaxCount(byCount.Keys);
    var top := byCount[maxVotes];
    assert forall c :: c in votes.Values ==> VoteCount(votes, c) <= maxVotes by {
      forall c | c in votes.Values ensures VoteCount(votes, c) <= maxVotes {
        assert counts[c] in byCount;
      }
    }
    if |top| == 1 {
      var w :| w in top;
      assert top == {w} by {
        assert |top - {w}| == |top| - 1 == 0;
        assert top - {w} == {};
      }
      winner := Some(w);
      assert UniqueLeader(votes, w) by {
        forall c | c in votes.Values && c != w
          ensures VoteCount(votes, c) < VoteCount(votes, w)
        {
          assert c !in top;
        }
      }
      LeaderOf(votes, w);
    } else {
      var w1 :| w1 in top;
      assert |top - {w1}| == |top| - 1;
      var w2 :| w2 in top - {w1};
      TieHasNoLeader(votes, w1, w2);
      winner := None;
    }
  }
}
