/** The in-memory store of password-reset tokens: a set of (email, token)
    records. */
module ResetTokens {
  import opened Wrappers

  /** A frozen record, so equal fields mean the same set element. */
  datatype Token = Token(email: string, token: string)

  /** The error `get_token` raises. */
  datatype LookupError = TokenNotFound

  /** Some stored record carries the token string `t`. */
  ghost predicate Findable(tokens: set<Token>, t: string) {
    exists r :: r in tokens && r.token == t
  }

  /** Marking a pair pending makes its token findable, whatever was stored
      before. */
  lemma PendingIsFindable(tokens: set<Token>, email: string, t: string)
    ensures Findable(tokens + {Token(email, t)}, t)
  {
    assert Token(email, t) in tokens + {Token(email, t)};
  }

  /** Marking the same pair pending twice stores it once. */
  lemma PendingIdempotent(tokens: set<Token>, email: string, t: string)
    ensures tokens + {Token(email, t)} + {Token(email, t)} == tokens + {Token(email, t)}
    ensures |tokens + {Token(email, t)}| == |tokens| + (if Token(email, t) in tokens then 0 else 1)
  {
    var x := Token(email, t);
    if x in tokens {
      assert tokens + {x} == tokens;
    } else {
      assert tokens * {x} == {};
    }
  }

  /** Adding a record never hides one already findable. */
  lemma PendingKeepsFindable(tokens: set<Token>, email: string, t: string, u: string)
    requires Findable(tokens, u)
    ensures Findable(tokens + {Token(email, t)}, u)
  {
  }

  class InMemoryEmailPasswordResetRepository {
    var tokens: set<Token>

    constructor ()
      ensures tokens == {}
    {
      tokens := {};
    }

    /** Lines 17-18: does nothing. */
    method MarkSent(email: string)
      modifies this`tokens
      ensures tokens == old(tokens)
    {
    }

    /** Lines 20-21: add the record to the set. */
    method MarkPending(email: string, t: string)
      modifies this`tokens
      ensures tokens == old(tokens) + {Token(email, t)}
      ensures Findable(tokens, t)
    {
      tokens := tokens + {Token(email, t)};
      PendingIsFindable(old(tokens), email, t);
    }

    /** Lines 23-28: some stored record with this token string (the set's
        iteration order decides which), or `TokenNotFound` when there is
        none. The set is not changed. */
    method GetToken(t: string) returns (r: Result<Token, LookupError>)
      ensures r.Ok? ==> r.value in tokens && r.value.token == t
      ensures r.Err? <==> !Findable(tokens, t)
    {
      if found :| found in tokens && found.token == t {
        r := Ok(found);
      } else {
        r := Err(TokenNotFound);
      }
    }

    /** Lines 30-31: does nothing. */
    method MarkDone(t: string)
      modifies this`tokens
      ensures tokens == old(tokens)
    {
    }
  }
}
