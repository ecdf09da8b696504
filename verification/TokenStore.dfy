/**
  The in-process token store shared by every gate (src/gate/store.ts). The clock and the
  random token of a mint are parameters.
 */
module TokenStore {
  import opened Wrappers
  import opened AckTypes

  const DEFAULT_TTL_MS: nat := 10 * 60 * 1000

  /** One classifier's contribution to the hashed material of a token. */
  datatype Slice = Slice(kind: string, fields: Json)

  datatype StoredToken = StoredToken(kind: string, payloadHash: string, hashInput: seq<Slice>,
    issuedAt: int, expiresAt: int)

  type Tokens = map<string, StoredToken>

  predicate Live(tokens: Tokens, token: string, now: int)
  {
    token in tokens && now < tokens[token].expiresAt
  }

  function Entry(kind: string, payloadHash: string, hashInput: seq<Slice>, now: int): StoredToken
  {
    StoredToken(kind, payloadHash, hashInput, now, now + DEFAULT_TTL_MS)
  }

  /** What remains after the lookup of `token`: an expired entry is deleted on read. */
  function AfterLookup(tokens: Tokens, token: string, now: int): Tokens
  {
    if Live(tokens, token, now) then tokens else tokens - {token}
  }

  function AfterSweep(tokens: Tokens, now: int): Tokens
  {
    map t | t in tokens && now < tokens[t].expiresAt :: tokens[t]
  }

  class Store {
    var tokens: Tokens

    constructor ()
      ensures tokens == map[]
    {
      tokens := map[];
    }

    method Issue(drawn: string, kind: string, payloadHash: string, hashInput: seq<Slice>, now: int)
      modifies this
      ensures tokens == old(tokens)[drawn := Entry(kind, payloadHash, hashInput, now)]
    {
      tokens := tokens[drawn := StoredToken(kind, payloadHash, hashInput, now, now + DEFAULT_TTL_MS)];
    }

    method Lookup(token: string, now: int) returns (stored: Option<StoredToken>)
      modifies this
      ensures tokens == AfterLookup(old(tokens), token, now)
      ensures stored == if Live(old(tokens), token, now) then Some(old(tokens)[token]) else None
    {
      if token !in tokens {
        assert tokens - {token} == tokens;
        return None;
      }
      if tokens[token].expiresAt <= now {
        tokens := tokens - {token};
        return None;
      }
      stored := Some(tokens[token]);
    }

    method Consume(token: string)
      modifies this
      ensures tokens == old(tokens) - {token}
    {
      tokens := tokens - {token};
    }

    /** One tick of the sweeper, visiting the entries in any order. */
    method Sweep(now: int)
      modifies this
      ensures tokens == AfterSweep(old(tokens), now)
    {
      var pending := tokens.Keys;
      while pending != {}
        invariant pending <= old(tokens).Keys
        invariant tokens.Keys <= old(tokens).Keys
        invariant forall t :: t in pending ==> t in tokens
        invariant forall t :: t in tokens ==> tokens[t] == old(tokens)[t]
        invariant forall t :: t in old(tokens) && t !in pending ==> (t in tokens <==> now < old(tokens)[t].expiresAt)
        decreases pending
      {
        var t :| t in pending;
        if tokens[t].expiresAt <= now {
          tokens := tokens - {t};
        }
        pending := pending - {t};
      }
    }
  }
}
