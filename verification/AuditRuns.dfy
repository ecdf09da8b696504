/**
  Whole runs of the audit: any number of audits over one token store, with an agent that sends
  arbitrary payloads, acknowledgements, answers and tokens, a sweeper, and other gates that mint
  and drop tokens of their own kinds.
 */
module AuditRuns {
  import opened Wrappers
  import opened AckTypes
  import opened TokenStore
  import opened Audit
  import opened AuditCall

  datatype Event =
    | Call(spec: Spec, env: Env, p: Json, c: Json, input: Input)
    | Sweep(at: int)
    | OtherGateMints(token: string, entry: StoredToken)
    | OtherGateConsumes(token: string)

  function Step(tokens: Tokens, e: Event): Tokens
  {
    match e
    case Call(spec, env, p, c, input) => Evaluate(spec, env, tokens, p, c, input).tokens
    case Sweep(at) => AfterSweep(tokens, at)
    case OtherGateMints(token, entry) => tokens[token := entry]
    case OtherGateConsumes(token) => tokens - {token}
  }

  /** The store after the first n events of a run that starts empty. */
  function After(run: seq<Event>, n: nat): Tokens
    requires n <= |run|
  {
    if n == 0 then map[] else Step(After(run, n - 1), run[n - 1])
  }

  function ResultAt(run: seq<Event>, i: nat): Result
    requires i < |run| && run[i].Call?
  {
    var e := run[i];
    Evaluate(e.spec, e.env, After(run, i), e.p, e.c, e.input).result
  }

  predicate DrawsToken(e: Event)
  {
    e.Call? || e.OtherGateMints?
  }

  function Drawn(e: Event): string
    requires DrawsToken(e)
  {
    if e.Call? then e.env.drawn else e.token
  }

  /** Random tokens never repeat, and no other gate uses the namespace of an audit of the run. */
  ghost predicate WellFormed(run: seq<Event>)
  {
    && (forall i, j :: 0 <= i < j < |run| && DrawsToken(run[i]) && DrawsToken(run[j]) ==>
          Drawn(run[i]) != Drawn(run[j]))
    && (forall i, j :: 0 <= i < |run| && 0 <= j < |run| && run[i].Call? && run[j].OtherGateMints? ==>
          run[i].spec.kind != run[j].entry.kind)
  }

  predicate MintsAt(run: seq<Event>, j: nat, t: string)
    requires j < |run|
  {
    run[j].Call? && Mints(ResultAt(run, j)) && run[j].env.drawn == t
  }

  /** Where a stored token came from: one earlier event drew it, and its entry is what that event stored. */
  ghost predicate ComesFrom(run: seq<Event>, n: nat, t: string, j: nat)
    requires n <= |run|
  {
    j < n && t in After(run, n) &&
    ((MintsAt(run, j, t) && After(run, n)[t] == EntryOf(run[j].spec, run[j].env, run[j].p, run[j].c)) ||
     (run[j].OtherGateMints? && run[j].token == t && After(run, n)[t] == run[j].entry))
  }

  /** An entry that an event leaves was there before it, or is what the event stored. */
  lemma StepProvenance(run: seq<Event>, n: nat, t: string)
    requires n < |run| && t in After(run, n + 1)
    ensures ComesFrom(run, n + 1, t, n) || (t in After(run, n) && After(run, n)[t] == After(run, n + 1)[t])
  {
    var e := run[n];
    if e.Call? {
      StoreStep(e.spec, e.env, After(run, n), e.p, e.c, e.input, t);
    }
  }

  lemma {:induction false} TokenProvenance(run: seq<Event>, n: nat, t: string) returns (j: nat)
    requires n <= |run| && t in After(run, n)
    ensures ComesFrom(run, n, t, j)
  {
    StepProvenance(run, n - 1, t);
    if ComesFrom(run, n, t, n - 1) {
      return n - 1;
    }
    j := TokenProvenance(run, n - 1, t);
  }

  /** A drawn token that is absent after it was drawn never returns. */
  lemma {:induction false} GoneForGood(run: seq<Event>, m: nat, n: nat, t: string, j: nat)
    requires WellFormed(run) && j < m <= n <= |run| && DrawsToken(run[j]) && Drawn(run[j]) == t
    requires t !in After(run, m)
    ensures t !in After(run, n)
    decreases n
  {
    if m < n {
      GoneForGood(run, m, n - 1, t, j);
      var e := run[n - 1];
      assert DrawsToken(e) ==> Drawn(e) != t;
      if e.Call? {
        StoreStep(e.spec, e.env, After(run, n - 1), e.p, e.c, e.input, t);
      }
    }
  }

  /** Event i is a real run that committed on the strength of token t. */
  ghost predicate BackedBy(run: seq<Event>, i: nat, t: string)
    requires i < |run|
  {
    run[i].Call? && !run[i].input.dryRun && run[i].input.token == Some(t) &&
    ReachesToken(run[i].spec, run[i].p, run[i].c, run[i].input) && ResultAt(run, i).Committed?
  }

  lemma BackingTokenIsLive(run: seq<Event>, i: nat)
    requires i < |run| && run[i].Call? && ResultAt(run, i).Committed?
    requires ReachesToken(run[i].spec, run[i].p, run[i].c, run[i].input)
    ensures TokenBacks(run[i].spec, run[i].env, After(run, i), run[i].p, run[i].c, run[i].input)
    ensures Consistent(run[i].spec, run[i].p, run[i].c, run[i].input.answers)
  {
    var e := run[i];
    TokenCallCommits(e.spec, e.env, After(run, i), e.p, e.c, e.input,
                     RunStage1(e.spec, e.p, e.c, e.input.acks).warnings);
  }

  /** A real commit on a token takes the token out of the store. */
  lemma CommitSpends(spec: Spec, env: Env, tokens: Tokens, p: Json, c: Json, input: Input)
    requires ReachesToken(spec, p, c, input) && !input.dryRun && input.token != Some(env.drawn)
    requires Evaluate(spec, env, tokens, p, c, input).result.Committed?
    ensures input.token.value !in Evaluate(spec, env, tokens, p, c, input).tokens
  {
    StoreStep(spec, env, tokens, p, c, input, input.token.value);
  }

  lemma CommitSpendsAt(run: seq<Event>, i: nat, t: string)
    requires i < |run| && BackedBy(run, i, t) && run[i].env.drawn != t
    ensures t !in After(run, i + 1)
  {
    var e := run[i];
    CommitSpends(e.spec, e.env, After(run, i), e.p, e.c, e.input);
  }

  lemma ProvenanceDraws(run: seq<Event>, n: nat, t: string, j: nat)
    requires n <= |run| && ComesFrom(run, n, t, j)
    ensures j < n && DrawsToken(run[j]) && Drawn(run[j]) == t
  {
  }

  /** A token that backed a commit was drawn by an earlier event, and not by the committing call itself. */
  lemma BackingTokenWasDrawn(run: seq<Event>, i: nat, t: string) returns (j: nat)
    requires WellFormed(run) && i < |run| && BackedBy(run, i, t)
    ensures j < i && DrawsToken(run[j]) && Drawn(run[j]) == t && run[i].env.drawn != t
  {
    BackingTokenIsLive(run, i);
    j := TokenProvenance(run, i, t);
    ProvenanceDraws(run, i, t, j);
    assert DrawsToken(run[i]) && Drawn(run[i]) == run[i].env.drawn;
  }

  lemma SpentTokenIsGone(run: seq<Event>, i: nat, n: nat, t: string)
    requires WellFormed(run) && i < n <= |run|
    requires BackedBy(run, i, t)
    ensures t !in After(run, n)
  {
    var j := BackingTokenWasDrawn(run, i, t);
    CommitSpendsAt(run, i, t);
    GoneForGood(run, i + 1, n, t, j);
  }

  /** No token backs two real commits. */
  lemma NoTokenBacksTwoCommits(run: seq<Event>, i: nat, k: nat, t: string)
    requires WellFormed(run) && i < k < |run|
    requires BackedBy(run, i, t)
    ensures !BackedBy(run, k, t)
  {
    SpentTokenIsGone(run, i, k, t);
    if BackedBy(run, k, t) {
      BackingTokenIsLive(run, k);
    }
  }

  ghost predicate Injective(hash: seq<Slice> -> string)
  {
    forall a, b :: hash(a) == hash(b) ==> a == b
  }

  /** What a commit in a run rests on. */
  ghost predicate CommitIsSound(run: seq<Event>, i: nat)
    requires i < |run| && run[i].Call?
  {
    var e := run[i];
    && (e.input.skipShapeChecks || ShapeClean(e.spec, e.p, e.c))
    && WarningsCleared(e.spec, e.p, e.c, e.input.acks)
    && (NothingToClassify(e.spec, e.p, e.c)
        || (NoToken(e.input.token) && AllAnswerableFirst(e.spec, e.p, e.c, e.env.mode)
            && Consistent(e.spec, e.p, e.c, e.input.answers))
        || (Consistent(e.spec, e.p, e.c, e.input.answers) && MintedEarlier(run, i)))
  }

  /** An earlier call of the same audit kind minted the echoed token over the same slices, and nobody spent it since. */
  ghost predicate MintedEarlier(run: seq<Event>, i: nat)
    requires i < |run| && run[i].Call?
  {
    var e := run[i];
    exists j :: 0 <= j < i && !NoToken(e.input.token) && MintsAt(run, j, e.input.token.value) &&
      run[j].spec.kind == e.spec.kind &&
      Slices(run[j].spec, run[j].p, run[j].c) == Slices(e.spec, e.p, e.c) &&
      e.env.now < run[j].env.now + DEFAULT_TTL_MS &&
      (forall k :: j < k < i ==> !BackedBy(run, k, e.input.token.value))
  }

  /**
    Commit soundness over every run: each commit passes every stage, and a token commit echoes its own unspent
    mint.
   */
  lemma EveryCommitIsSound(run: seq<Event>, hash: seq<Slice> -> string, i: nat)
    requires WellFormed(run) && Injective(hash)
    requires forall k :: 0 <= k < |run| && run[k].Call? ==> run[k].env.hash == hash
    requires i < |run| && run[i].Call? && ResultAt(run, i).Committed?
    ensures CommitIsSound(run, i)
  {
    var e := run[i];
    CommitsExactly(e.spec, e.env, After(run, i), e.p, e.c, e.input);
    if TokenBacks(e.spec, e.env, After(run, i), e.p, e.c, e.input) && !NothingToClassify(e.spec, e.p, e.c) {
      var t := e.input.token.value;
      var j := TokenProvenance(run, i, t);
      assert MintsAt(run, j, t);
      assert hash(Slices(run[j].spec, run[j].p, run[j].c)) == hash(Slices(e.spec, e.p, e.c));
      PassesExact(e.spec, e.p, e.c, e.input);
      ActiveExact(e.spec, e.p, e.c);
      forall k | j < k < i ensures !BackedBy(run, k, t) {
        if BackedBy(run, k, t) {
          assert BackedBy(run, i, t) || e.input.dryRun;
          SpentTokenIsGone(run, k, i, t);
        }
      }
    }
  }

  // ---------- Convergence ----------

  /** The payload has acceptable acknowledgements and consistent answers, and the agent holds them. */
  ghost predicate Answered(spec: Spec, p: Json, c: Json, input: Input)
  {
    (input.skipShapeChecks || ShapeClean(spec, p, c)) && WarningsCleared(spec, p, c, input.acks) &&
    AcksWellFormed(spec, p, c, input.acks) && Consistent(spec, p, c, input.answers)
  }

  /** The token is stored for exactly this payload and will not expire before `now`. */
  ghost predicate Usable(spec: Spec, hash: seq<Slice> -> string, tokens: Tokens, p: Json, c: Json, t: string, now: int)
  {
    t != "" && Live(tokens, t, now) && tokens[t].kind == spec.kind && tokens[t].payloadHash == hash(Slices(spec, p, c))
  }

  ghost predicate OffersUsable(spec: Spec, env: Env, o: Outcome, p: Json, c: Json)
    requires o.result.Rejected?
  {
    o.result.rejection.token.Some? && Usable(spec, env.hash, o.tokens, p, c, o.result.rejection.token.value, env.now)
  }

  lemma MintIsUsable(spec: Spec, env: Env, tokens: Tokens, p: Json, c: Json)
    requires env.drawn != ""
    ensures Usable(spec, env.hash, Minted(env, tokens, spec, Slices(spec, p, c)), p, c, env.drawn, env.now)
  {
  }

  lemma MismatchMints(spec: Spec, env: Env, tokens: Tokens, p: Json, c: Json, input: Input, warnings: seq<Issue>,
                      token: string)
    requires env.drawn != "" && !TokenMatches(spec, env, tokens, p, c, token)
    ensures var o := TokenCall(spec, env, tokens, p, c, input, warnings, token);
            o.result.Rejected? ==> OffersUsable(spec, env, o, p, c)
  {
    var seen := AfterLookup(tokens, token, env.now);
    MintIsUsable(spec, env, seen, p, c);
    MintIsUsable(spec, env, Spent(input, seen, token), p, c);
  }

  lemma MatchKeeps(spec: Spec, env: Env, tokens: Tokens, p: Json, c: Json, input: Input, warnings: seq<Issue>,
                   token: string)
    requires token != "" && TokenMatches(spec, env, tokens, p, c, token)
    ensures var o := TokenCall(spec, env, tokens, p, c, input, warnings, token);
            o.result.Rejected? ==> OffersUsable(spec, env, o, p, c)
  {
  }

  lemma TokenCallOffersUsable(spec: Spec, env: Env, tokens: Tokens, p: Json, c: Json, input: Input,
                              warnings: seq<Issue>)
    requires env.drawn != "" && !NoToken(input.token)
    ensures var o := TokenCall(spec, env, tokens, p, c, input, warnings, input.token.value);
            o.result.Rejected? ==> OffersUsable(spec, env, o, p, c)
  {
    if TokenMatches(spec, env, tokens, p, c, input.token.value) {
      MatchKeeps(spec, env, tokens, p, c, input, warnings, input.token.value);
    } else {
      MismatchMints(spec, env, tokens, p, c, input, warnings, input.token.value);
    }
  }

  lemma FirstCallOffersUsable(spec: Spec, env: Env, tokens: Tokens, p: Json, c: Json, input: Input,
                              warnings: seq<Issue>)
    requires env.drawn != ""
    ensures var o := FirstCall(spec, env, tokens, p, c, input, warnings);
            o.result.Rejected? ==> OffersUsable(spec, env, o, p, c)
  {
  }

  lemma Stage2OffersUsable(spec: Spec, env: Env, tokens: Tokens, p: Json, c: Json, input: Input, warnings: seq<Issue>)
    requires env.drawn != ""
    ensures var o := Stage2(spec, env, tokens, p, c, input, warnings);
            o.result.Rejected? ==> OffersUsable(spec, env, o, p, c)
  {
    if NoToken(input.token) {
      FirstCallOffersUsable(spec, env, tokens, p, c, input, warnings);
    } else {
      TokenCallOffersUsable(spec, env, tokens, p, c, input, warnings);
    }
  }

  /** Every rejection that carries a token carries one that is stored for this payload. */
  lemma RejectionTokenIsUsable(spec: Spec, env: Env, tokens: Tokens, p: Json, c: Json, input: Input)
    requires env.drawn != ""
    ensures var o := Evaluate(spec, env, tokens, p, c, input);
            o.result.Rejected? && o.result.rejection.token.Some? ==>
            Usable(spec, env.hash, o.tokens, p, c, o.result.rejection.token.value, env.now)
  {
    Stage2OffersUsable(spec, env, tokens, p, c, input, RunStage1(spec, p, c, input.acks).warnings);
  }

  /** Fully answered and echoing a usable token: the call commits. */
  lemma UsableTokenCommits(spec: Spec, env: Env, tokens: Tokens, p: Json, c: Json, input: Input)
    requires Answered(spec, p, c, input)
    requires input.token.Some? && Usable(spec, env.hash, tokens, p, c, input.token.value, env.now)
    ensures Evaluate(spec, env, tokens, p, c, input).result.Committed?
  {
    CommitsExactly(spec, env, tokens, p, c, input);
  }

  lemma PassingCallReachesStage2(spec: Spec, env: Env, tokens: Tokens, p: Json, c: Json, input: Input)
    requires Passes(spec, p, c, input)
    ensures exists warnings ::
              Evaluate(spec, env, tokens, p, c, input) == Stage2(spec, env, tokens, p, c, input, warnings)
  {
    var s1 := RunStage1(spec, p, c, input.acks);
    assert Evaluate(spec, env, tokens, p, c, input) == Stage2(spec, env, tokens, p, c, input, s1.warnings);
  }

  /** Fully answered, with any token or none: the call commits or is handed a token. */
  lemma AnsweredCallGetsAToken(spec: Spec, env: Env, tokens: Tokens, p: Json, c: Json, input: Input)
    requires Answered(spec, p, c, input)
    ensures var r := Evaluate(spec, env, tokens, p, c, input).result;
            r.Rejected? ==> r.rejection.token.Some?
  {
    PassesExact(spec, p, c, input);
    PassingCallReachesStage2(spec, env, tokens, p, c, input);
    var warnings :| Evaluate(spec, env, tokens, p, c, input) == Stage2(spec, env, tokens, p, c, input, warnings);
  }

  /** The token the agent echoes next: the one it was just given, else the one it had. */
  function Echo(r: Result, previous: Option<string>): Option<string>
  {
    if r.Rejected? && r.rejection.token.Some? then r.rejection.token else previous
  }

  /** Between two calls the store may change in any way that keeps the echoed token's entry until `now`. */
  ghost predicate Keeps(before: Tokens, after: Tokens, t: Option<string>, now: int)
  {
    t.Some? && t.value in before ==>
      t.value in after && after[t.value] == before[t.value] && now < after[t.value].expiresAt
  }

  /**
    Convergence: whatever the first call was, an agent that then resends every acknowledgement
    and answer and echoes the last token it was given commits by the third call.
   */
  lemma CommitsWithinThreeCalls(
    spec: Spec, p: Json, c: Json, first: Input, env1: Env, env2: Env, env3: Env,
    store1: Tokens, store2: Tokens, store3: Tokens, acks: seq<AckEntry>, answers: Option<map<string, Json>>)
    requires env1.hash == env2.hash == env3.hash && env1.drawn != "" && env2.drawn != ""
    requires Answered(spec, p, c, Input(None, answers, acks, false, first.skipShapeChecks))
    requires var o1 := Evaluate(spec, env1, store1, p, c, first);
             Keeps(o1.tokens, store2, Echo(o1.result, first.token), env2.now)
    requires var o1 := Evaluate(spec, env1, store1, p, c, first);
             var second := Input(Echo(o1.result, first.token), answers, acks, false, first.skipShapeChecks);
             var o2 := Evaluate(spec, env2, store2, p, c, second);
             Keeps(o2.tokens, store3, Echo(o2.result, second.token), env3.now)
    ensures var o1 := Evaluate(spec, env1, store1, p, c, first);
            var second := Input(Echo(o1.result, first.token), answers, acks, false, first.skipShapeChecks);
            var o2 := Evaluate(spec, env2, store2, p, c, second);
            var third := Input(Echo(o2.result, second.token), answers, acks, false, first.skipShapeChecks);
            var o3 := Evaluate(spec, env3, store3, p, c, third);
            o2.result.Committed? || o3.result.Committed?
  {
    var o1 := Evaluate(spec, env1, store1, p, c, first);
    var second := Input(Echo(o1.result, first.token), answers, acks, false, first.skipShapeChecks);
    var o2 := Evaluate(spec, env2, store2, p, c, second);
    var third := Input(Echo(o2.result, second.token), answers, acks, false, first.skipShapeChecks);
    AnsweredCallGetsAToken(spec, env2, store2, p, c, second);
    RejectionTokenIsUsable(spec, env2, store2, p, c, second);
    if o2.result.Rejected? {
      UsableTokenCommits(spec, env3, store3, p, c, third);
    }
  }

  /** When the first call already carried a token back, the second call commits. */
  lemma CommitsOnceHandedAToken(
    spec: Spec, p: Json, c: Json, first: Input, env1: Env, env2: Env, store1: Tokens, store2: Tokens, input: Input)
    requires env1.hash == env2.hash && env1.drawn != ""
    requires var o1 := Evaluate(spec, env1, store1, p, c, first);
             o1.result.Rejected? && o1.result.rejection.token.Some? && input.token == o1.result.rejection.token &&
             Keeps(o1.tokens, store2, input.token, env2.now)
    requires Answered(spec, p, c, input)
    ensures Evaluate(spec, env2, store2, p, c, input).result.Committed?
  {
    RejectionTokenIsUsable(spec, env1, store1, p, c, first);
    UsableTokenCommits(spec, env2, store2, p, c, input);
  }
}
