/**
  What one call of the audit promises: exactly when it commits, what it leaves of the token
  store, and how dry runs, payload edits and the first-call mode relate to one another.
 */
module AuditCall {
  import opened Wrappers
  import opened AckTypes
  import opened TokenStore
  import opened Audit

  // ---------- Reading the stages without their order of evaluation ----------

  ghost predicate ShapeClean(spec: Spec, p: Json, c: Json)
  {
    forall k :: k in spec.shapeChecks ==> k.check(p, c) == []
  }

  /** Some detector emitted an issue that carries this kind once kinds are defaulted. */
  ghost predicate Fired(spec: Spec, p: Json, c: Json, kind: string)
  {
    exists d, i :: d in spec.detectors && 0 <= i < |d.detect(p, c)| && WithKind(d.detect(p, c)[i], d.kind).kind == kind
  }

  ghost predicate AcksAccepted(spec: Spec, p: Json, c: Json, acks: seq<AckEntry>, kind: string)
  {
    exists a :: a in acks && a.kind == kind && AckValid(spec, p, c, a)
  }

  /** A non-blank reason that the kind's own validator, if any, has nothing against. */
  ghost predicate AckValid(spec: Spec, p: Json, c: Json, a: AckEntry)
  {
    var ack := NormalizeAck(a.raw);
    var owner := DetectorFor(spec.detectors, a.kind);
    ack.Some? &&
    (owner.Some? && owner.value.validateAck.Some? ==>
       owner.value.validateAck.value(ack.value, OfKind(Warnings(spec.detectors, p, c), a.kind)) == [])
  }

  /** No acknowledgement is malformed, and none that answers a fired warning is refused. */
  ghost predicate AcksWellFormed(spec: Spec, p: Json, c: Json, acks: seq<AckEntry>)
  {
    forall a :: a in acks ==>
      NormalizeAck(a.raw).Some? && (Fired(spec, p, c, a.kind) ==> AckValid(spec, p, c, a))
  }

  ghost predicate WarningsCleared(spec: Spec, p: Json, c: Json, acks: seq<AckEntry>)
  {
    forall kind :: Fired(spec, p, c, kind) && DetectorFor(spec.detectors, kind).Some? ==>
      DetectorFor(spec.detectors, kind).value.ackReason == Required && AcksAccepted(spec, p, c, acks, kind)
  }

  ghost predicate Consistent(spec: Spec, p: Json, c: Json, answers: Option<map<string, Json>>)
  {
    forall k :: k in spec.classifiers && IsActive(k, p, c) ==> k.validate(p, c, AnswerFor(answers, k)) == []
  }

  ghost predicate AllAnswerableFirst(spec: Spec, p: Json, c: Json, mode: FirstCallMode)
  {
    forall k :: k in spec.classifiers && IsActive(k, p, c) ==> AnswerableFirst(mode, k)
  }

  ghost predicate NothingToClassify(spec: Spec, p: Json, c: Json)
  {
    forall k :: k in spec.classifiers ==> !IsActive(k, p, c)
  }

  function Slices(spec: Spec, p: Json, c: Json): seq<Slice>
  {
    SliceFor(Active(spec.classifiers, p, c), p, c)
  }

  /** The echoed token is unexpired, of this audit's kind and bound to this payload's slices. */
  ghost predicate TokenBacks(spec: Spec, env: Env, tokens: Tokens, p: Json, c: Json, input: Input)
  {
    !NoToken(input.token) && Live(tokens, input.token.value, env.now) &&
    tokens[input.token.value].kind == spec.kind &&
    tokens[input.token.value].payloadHash == env.hash(Slices(spec, p, c))
  }

  /** Nothing is to be classified, or all of it is answered, at once or on a token that backs the call. */
  ghost predicate Stage2Condition(spec: Spec, env: Env, tokens: Tokens, p: Json, c: Json, input: Input)
  {
    || NothingToClassify(spec, p, c)
    || (NoToken(input.token) && HasAnswers(input) && AllAnswerableFirst(spec, p, c, env.mode)
        && Consistent(spec, p, c, input.answers))
    || (TokenBacks(spec, env, tokens, p, c, input) && Consistent(spec, p, c, input.answers))
  }

  ghost predicate CommitCondition(spec: Spec, env: Env, tokens: Tokens, p: Json, c: Json, input: Input)
  {
    && (input.skipShapeChecks || ShapeClean(spec, p, c))
    && WarningsCleared(spec, p, c, input.acks)
    && AcksWellFormed(spec, p, c, input.acks)
    && Stage2Condition(spec, env, tokens, p, c, input)
  }

  lemma {:induction false} ShapeIssuesExact(checks: seq<ShapeCheck>, p: Json, c: Json)
    ensures ShapeIssues(checks, p, c) == [] <==> forall k :: k in checks ==> k.check(p, c) == []
  {
    if checks != [] {
      var last := checks[|checks| - 1];
      ShapeIssuesExact(checks[..|checks| - 1], p, c);
      assert checks == checks[..|checks| - 1] + [last];
    }
  }

  lemma {:induction false} WarningsExact(detectors: seq<Detector>, p: Json, c: Json, w: Issue)
    ensures w in Warnings(detectors, p, c) <==>
            exists d, i :: d in detectors && 0 <= i < |d.detect(p, c)| && WithKind(d.detect(p, c)[i], d.kind) == w
  {
    if detectors != [] {
      var last := detectors[|detectors| - 1];
      WarningsExact(detectors[..|detectors| - 1], p, c, w);
      assert detectors == detectors[..|detectors| - 1] + [last];
      var named := WithKinds(last.detect(p, c), last.kind);
      if exists i :: 0 <= i < |last.detect(p, c)| && WithKind(last.detect(p, c)[i], last.kind) == w {
        var i :| 0 <= i < |last.detect(p, c)| && WithKind(last.detect(p, c)[i], last.kind) == w;
        assert named[i] == w;
      }
    }
  }

  lemma {:induction false} OfKindExact(warnings: seq<Issue>, kind: string)
    ensures OfKind(warnings, kind) != [] <==> exists w :: w in warnings && w.kind == kind
  {
    if warnings != [] {
      OfKindExact(warnings[..|warnings| - 1], kind);
      assert warnings == warnings[..|warnings| - 1] + [warnings[|warnings| - 1]];
    }
  }

  lemma FiredExact(spec: Spec, p: Json, c: Json, kind: string)
    ensures Fired(spec, p, c, kind) <==> OfKind(Warnings(spec.detectors, p, c), kind) != []
    ensures Fired(spec, p, c, kind) <==> exists w :: w in Warnings(spec.detectors, p, c) && w.kind == kind
  {
    OfKindExact(Warnings(spec.detectors, p, c), kind);
    if Fired(spec, p, c, kind) {
      var d, i :| d in spec.detectors && 0 <= i < |d.detect(p, c)| && WithKind(d.detect(p, c)[i], d.kind).kind == kind;
      WarningsExact(spec.detectors, p, c, WithKind(d.detect(p, c)[i], d.kind));
    }
    if w :| w in Warnings(spec.detectors, p, c) && w.kind == kind {
      WarningsExact(spec.detectors, p, c, w);
    }
  }

  lemma {:induction false} BlockingExact(detectors: seq<Detector>, acked: set<string>, warnings: seq<Issue>)
    ensures Blocking(detectors, acked, warnings) == [] <==> forall w :: w in warnings ==> !Blocks(detectors, acked, w)
  {
    if warnings != [] {
      BlockingExact(detectors, acked, warnings[..|warnings| - 1]);
      assert warnings == warnings[..|warnings| - 1] + [warnings[|warnings| - 1]];
    }
  }

  lemma {:induction false} AckIssuesExact(detectors: seq<Detector>, warnings: seq<Issue>, acks: seq<AckEntry>)
    ensures AckIssues(detectors, warnings, acks) == [] <==>
            forall a :: a in acks ==> !JudgeAck(detectors, warnings, a).Refused?
  {
    if acks != [] {
      AckIssuesExact(detectors, warnings, acks[..|acks| - 1]);
      assert acks == acks[..|acks| - 1] + [acks[|acks| - 1]];
    }
  }

  /** What stage 1 has computed, said of kinds. */
  lemma KindsExact(spec: Spec, p: Json, c: Json, acks: seq<AckEntry>, kind: string)
    ensures var warnings := Warnings(spec.detectors, p, c);
            && (Fired(spec, p, c, kind) <==> exists w :: w in warnings && w.kind == kind)
            && (kind in AckedKinds(spec.detectors, warnings, acks) <==>
                  Fired(spec, p, c, kind) && AcksAccepted(spec, p, c, acks, kind))
  {
    FiredExact(spec, p, c, kind);
    AckedExact(spec, p, c, acks, kind);
  }

  lemma ClearedBlocksNothing(spec: Spec, p: Json, c: Json, acks: seq<AckEntry>, w: Issue)
    requires WarningsCleared(spec, p, c, acks) && w in Warnings(spec.detectors, p, c)
    ensures !Blocks(spec.detectors, AckedKinds(spec.detectors, Warnings(spec.detectors, p, c), acks), w)
  {
    KindsExact(spec, p, c, acks, w.kind);
    assert Fired(spec, p, c, w.kind);
  }

  lemma UnblockedIsCleared(spec: Spec, p: Json, c: Json, acks: seq<AckEntry>, kind: string)
    requires var warnings := Warnings(spec.detectors, p, c);
             forall w :: w in warnings ==> !Blocks(spec.detectors, AckedKinds(spec.detectors, warnings, acks), w)
    requires Fired(spec, p, c, kind) && DetectorFor(spec.detectors, kind).Some?
    ensures DetectorFor(spec.detectors, kind).value.ackReason == Required && AcksAccepted(spec, p, c, acks, kind)
  {
    var warnings := Warnings(spec.detectors, p, c);
    KindsExact(spec, p, c, acks, kind);
    var w :| w in warnings && w.kind == kind;
    assert !Blocks(spec.detectors, AckedKinds(spec.detectors, warnings, acks), w);
  }

  lemma ClearedExact(spec: Spec, p: Json, c: Json, acks: seq<AckEntry>)
    ensures var s1 := RunStage1(spec, p, c, acks);
            |s1.blocking| == 0 <==> WarningsCleared(spec, p, c, acks)
  {
    var warnings := Warnings(spec.detectors, p, c);
    BlockingExact(spec.detectors, AckedKinds(spec.detectors, warnings, acks), warnings);
    if WarningsCleared(spec, p, c, acks) {
      forall w | w in warnings { ClearedBlocksNothing(spec, p, c, acks, w); }
    } else if |RunStage1(spec, p, c, acks).blocking| == 0 {
      forall kind | Fired(spec, p, c, kind) && DetectorFor(spec.detectors, kind).Some? {
        UnblockedIsCleared(spec, p, c, acks, kind);
      }
    }
  }

  lemma WellFormedExact(spec: Spec, p: Json, c: Json, acks: seq<AckEntry>)
    ensures |AckIssues(spec.detectors, Warnings(spec.detectors, p, c), acks)| == 0 <==> AcksWellFormed(spec, p, c, acks)
  {
    AckIssuesExact(spec.detectors, Warnings(spec.detectors, p, c), acks);
    forall a
      ensures !JudgeAck(spec.detectors, Warnings(spec.detectors, p, c), a).Refused? <==>
              NormalizeAck(a.raw).Some? && (Fired(spec, p, c, a.kind) ==> AckValid(spec, p, c, a))
    {
      FiredExact(spec, p, c, a.kind);
    }
  }

  /** Stage 1 lets a call through exactly when every warning is cleared and no acknowledgement is bad. */
  lemma Stage1Exact(spec: Spec, p: Json, c: Json, acks: seq<AckEntry>)
    ensures Clear(RunStage1(spec, p, c, acks)) <==>
            WarningsCleared(spec, p, c, acks) && AcksWellFormed(spec, p, c, acks)
  {
    ClearedExact(spec, p, c, acks);
    WellFormedExact(spec, p, c, acks);
  }

  lemma AckedExact(spec: Spec, p: Json, c: Json, acks: seq<AckEntry>, kind: string)
    ensures kind in AckedKinds(spec.detectors, Warnings(spec.detectors, p, c), acks) <==>
            Fired(spec, p, c, kind) && AcksAccepted(spec, p, c, acks, kind)
  {
    FiredExact(spec, p, c, kind);
    var warnings := Warnings(spec.detectors, p, c);
    if kind in AckedKinds(spec.detectors, warnings, acks) {
      var i :| 0 <= i < |acks| && JudgeAck(spec.detectors, warnings, acks[i]).Accepted? && acks[i].kind == kind;
      assert acks[i] in acks && AckValid(spec, p, c, acks[i]);
    }
    if Fired(spec, p, c, kind) && AcksAccepted(spec, p, c, acks, kind) {
      var a :| a in acks && a.kind == kind && AckValid(spec, p, c, a);
      var i :| 0 <= i < |acks| && acks[i] == a;
      assert JudgeAck(spec.detectors, warnings, acks[i]).Accepted?;
    }
  }

  lemma {:induction false} ActiveMembers(classifiers: seq<Classifier>, p: Json, c: Json, k: Classifier)
    ensures k in Active(classifiers, p, c) <==> k in classifiers && IsActive(k, p, c)
  {
    if classifiers != [] {
      ActiveMembers(classifiers[..|classifiers| - 1], p, c, k);
      assert classifiers == classifiers[..|classifiers| - 1] + [classifiers[|classifiers| - 1]];
    }
  }

  lemma ActiveExact(spec: Spec, p: Json, c: Json)
    ensures |Active(spec.classifiers, p, c)| == 0 <==> NothingToClassify(spec, p, c)
  {
    var active := Active(spec.classifiers, p, c);
    forall k { ActiveMembers(spec.classifiers, p, c, k); }
    if |active| > 0 {
      assert active[0] in active;
    }
  }

  /** Nothing is deferred exactly when every classifier may be answered first, and then all are asked. */
  lemma {:induction false} AnswerableExact(mode: FirstCallMode, active: seq<Classifier>)
    ensures |Answerable(mode, active)| <= |active|
    ensures |Answerable(mode, active)| == |active| <==> forall k :: k in active ==> AnswerableFirst(mode, k)
    ensures |Answerable(mode, active)| == |active| ==> Answerable(mode, active) == active
  {
    if active != [] {
      AnswerableExact(mode, active[..|active| - 1]);
      assert active == active[..|active| - 1] + [active[|active| - 1]];
    }
  }

  lemma {:induction false} ClassifierIssuesExact(
    asked: seq<Classifier>, p: Json, c: Json, answers: Option<map<string, Json>>)
    ensures |ClassifierIssues(asked, p, c, answers)| == 0 <==>
            forall k :: k in asked ==> k.validate(p, c, AnswerFor(answers, k)) == []
  {
    if asked != [] {
      ClassifierIssuesExact(asked[..|asked| - 1], p, c, answers);
      assert asked == asked[..|asked| - 1] + [asked[|asked| - 1]];
    }
  }

  lemma ConsistentExact(spec: Spec, p: Json, c: Json, answers: Option<map<string, Json>>)
    ensures |ClassifierIssues(Active(spec.classifiers, p, c), p, c, answers)| == 0 <==> Consistent(spec, p, c, answers)
  {
    ClassifierIssuesExact(Active(spec.classifiers, p, c), p, c, answers);
    forall k { ActiveMembers(spec.classifiers, p, c, k); }
  }

  lemma FirstCallCommits(spec: Spec, env: Env, tokens: Tokens, p: Json, c: Json, input: Input, warnings: seq<Issue>)
    requires |Active(spec.classifiers, p, c)| > 0
    ensures FirstCall(spec, env, tokens, p, c, input, warnings).result.Committed? <==>
            HasAnswers(input) && AllAnswerableFirst(spec, p, c, env.mode) && Consistent(spec, p, c, input.answers)
  {
    AnswerableExact(env.mode, Active(spec.classifiers, p, c));
    ConsistentExact(spec, p, c, input.answers);
    forall k { ActiveMembers(spec.classifiers, p, c, k); }
  }

  lemma TokenCallCommits(spec: Spec, env: Env, tokens: Tokens, p: Json, c: Json, input: Input, warnings: seq<Issue>)
    requires !NoToken(input.token)
    ensures TokenCall(spec, env, tokens, p, c, input, warnings, input.token.value).result.Committed? <==>
            TokenBacks(spec, env, tokens, p, c, input) && Consistent(spec, p, c, input.answers)
  {
    ConsistentExact(spec, p, c, input.answers);
  }

  /** Stages 0 and 1 let the call through. */
  predicate Passes(spec: Spec, p: Json, c: Json, input: Input)
  {
    ShapePasses(spec, p, c, input) && Clear(RunStage1(spec, p, c, input.acks))
  }

  lemma PassesExact(spec: Spec, p: Json, c: Json, input: Input)
    ensures Passes(spec, p, c, input) <==>
            (input.skipShapeChecks || ShapeClean(spec, p, c)) &&
            WarningsCleared(spec, p, c, input.acks) && AcksWellFormed(spec, p, c, input.acks)
  {
    ShapeIssuesExact(spec.shapeChecks, p, c);
    Stage1Exact(spec, p, c, input.acks);
  }

  lemma Stage2Commits(spec: Spec, env: Env, tokens: Tokens, p: Json, c: Json, input: Input, warnings: seq<Issue>)
    ensures Stage2(spec, env, tokens, p, c, input, warnings).result.Committed? <==>
            Stage2Condition(spec, env, tokens, p, c, input)
  {
    ActiveExact(spec, p, c);
    if |Active(spec.classifiers, p, c)| > 0 {
      if NoToken(input.token) {
        FirstCallCommits(spec, env, tokens, p, c, input, warnings);
      } else {
        TokenCallCommits(spec, env, tokens, p, c, input, warnings);
      }
    }
  }

  /** A call commits exactly when its shape, its acknowledgements and its classifiers all allow it. */
  lemma CommitsExactly(spec: Spec, env: Env, tokens: Tokens, p: Json, c: Json, input: Input)
    ensures Evaluate(spec, env, tokens, p, c, input).result.Committed? <==>
            CommitCondition(spec, env, tokens, p, c, input)
  {
    PassesExact(spec, p, c, input);
    Stage2Commits(spec, env, tokens, p, c, input, RunStage1(spec, p, c, input.acks).warnings);
  }

  // ---------- The audit's own description of "satisfied" ----------

  /** Every issue stands under a kind whose owner treats acknowledgements as its emitter does. */
  ghost predicate KindsAreOwned(spec: Spec, p: Json, c: Json)
  {
    forall d, i :: d in spec.detectors && 0 <= i < |d.detect(p, c)| ==> IsOwned(spec, p, c, d, i)
  }

  predicate IsOwned(spec: Spec, p: Json, c: Json, d: Detector, i: nat)
    requires i < |d.detect(p, c)|
  {
    var owner := DetectorFor(spec.detectors, WithKind(d.detect(p, c)[i], d.kind).kind);
    owner.Some? && owner.value.ackReason == d.ackReason
  }

  /**
    Every detector is satisfied: the never-ackable ones are silent, and every issue has an accepted
    acknowledgement.
   */
  ghost predicate Satisfied(spec: Spec, p: Json, c: Json, acks: seq<AckEntry>)
  {
    && (forall d :: d in spec.detectors && d.ackReason == Never ==> d.detect(p, c) == [])
    && (forall d, i :: d in spec.detectors && 0 <= i < |d.detect(p, c)| ==>
          AcksAccepted(spec, p, c, acks, WithKind(d.detect(p, c)[i], d.kind).kind))
  }

  lemma OwnedKindsSatisfied(spec: Spec, env: Env, tokens: Tokens, p: Json, c: Json, input: Input)
    requires KindsAreOwned(spec, p, c)
    requires Evaluate(spec, env, tokens, p, c, input).result.Committed?
    ensures Satisfied(spec, p, c, input.acks)
  {
    CommitsExactly(spec, env, tokens, p, c, input);
    forall d | d in spec.detectors && d.ackReason == Never ensures d.detect(p, c) == [] {
      if |d.detect(p, c)| > 0 {
        assert IsOwned(spec, p, c, d, 0);
        assert Fired(spec, p, c, WithKind(d.detect(p, c)[0], d.kind).kind);
      }
    }
    forall d, i | d in spec.detectors && 0 <= i < |d.detect(p, c)|
      ensures AcksAccepted(spec, p, c, input.acks, WithKind(d.detect(p, c)[i], d.kind).kind)
    {
      assert IsOwned(spec, p, c, d, i);
      assert Fired(spec, p, c, WithKind(d.detect(p, c)[i], d.kind).kind);
    }
  }

  function WithoutKind(acks: seq<AckEntry>, kind: string): seq<AckEntry>
  {
    if |acks| == 0 then []
    else WithoutKind(acks[..|acks| - 1], kind) + (if acks[|acks| - 1].kind == kind then [] else [acks[|acks| - 1]])
  }

  lemma {:induction false} WithoutKindExact(acks: seq<AckEntry>, kind: string, a: AckEntry)
    ensures a in WithoutKind(acks, kind) <==> a in acks && a.kind != kind
  {
    if |acks| > 0 {
      var n := |acks| - 1;
      WithoutKindExact(acks[..n], kind, a);
      assert acks == acks[..n] + [acks[n]];
    }
  }

  lemma FewerAcksClear(spec: Spec, p: Json, c: Json, acks: seq<AckEntry>, kind: string)
    requires DetectorFor(spec.detectors, kind).None?
    requires WarningsCleared(spec, p, c, acks) && AcksWellFormed(spec, p, c, acks)
    ensures var fewer := WithoutKind(acks, kind);
            WarningsCleared(spec, p, c, fewer) && AcksWellFormed(spec, p, c, fewer) &&
            !AcksAccepted(spec, p, c, fewer, kind)
  {
    var fewer := WithoutKind(acks, kind);
    forall a ensures a in fewer <==> a in acks && a.kind != kind {
      WithoutKindExact(acks, kind, a);
    }
    forall k | Fired(spec, p, c, k) && DetectorFor(spec.detectors, k).Some? ensures AcksAccepted(spec, p, c, fewer, k) {
      assert AcksAccepted(spec, p, c, acks, k);
    }
  }

  lemma AcksAreReplaceable(spec: Spec, env: Env, tokens: Tokens, p: Json, c: Json, input: Input, acks: seq<AckEntry>)
    requires CommitCondition(spec, env, tokens, p, c, input)
    requires WarningsCleared(spec, p, c, acks) && AcksWellFormed(spec, p, c, acks)
    ensures CommitCondition(spec, env, tokens, p, c, input.(acks := acks))
  {
  }

  /** An acknowledgement whose kind nobody owns is not needed: the call commits without it. */
  lemma UnownedAcksAreNotNeeded(spec: Spec, env: Env, tokens: Tokens, p: Json, c: Json, input: Input, kind: string)
    requires DetectorFor(spec.detectors, kind).None?
    requires Evaluate(spec, env, tokens, p, c, input).result.Committed?
    ensures var fewer := WithoutKind(input.acks, kind);
            Evaluate(spec, env, tokens, p, c, input.(acks := fewer)).result.Committed? &&
            !AcksAccepted(spec, p, c, fewer, kind)
  {
    var fewer := WithoutKind(input.acks, kind);
    CommitsExactly(spec, env, tokens, p, c, input);
    FewerAcksClear(spec, p, c, input.acks, kind);
    AcksAreReplaceable(spec, env, tokens, p, c, input, fewer);
    CommitsExactly(spec, env, tokens, p, c, input.(acks := fewer));
  }

  /** An issue that is not owned alike leaves its detector unsatisfied in some committing call. */
  lemma UnownedKindEscapes(spec: Spec, env: Env, tokens: Tokens, p: Json, c: Json, input: Input) returns (other: Input)
    requires !KindsAreOwned(spec, p, c)
    requires Evaluate(spec, env, tokens, p, c, input).result.Committed?
    ensures Evaluate(spec, env, tokens, p, c, other).result.Committed? && !Satisfied(spec, p, c, other.acks)
  {
    var d, i :| d in spec.detectors && 0 <= i < |d.detect(p, c)| && !IsOwned(spec, p, c, d, i);
    var kind := WithKind(d.detect(p, c)[i], d.kind).kind;
    other := input;
    CommitsExactly(spec, env, tokens, p, c, input);
    assert Fired(spec, p, c, kind);
    if d.ackReason != Never {
      UnownedAcksAreNotNeeded(spec, env, tokens, p, c, input, kind);
      other := input.(acks := WithoutKind(input.acks, kind));
    }
  }

  /**
    What a commit means for the detectors: given that a payload can commit at all, every committing call
    leaves all detectors satisfied if and only if every issue stands under a kind whose owner treats it alike.
   */
  lemma SatisfiedExact(spec: Spec, env: Env, tokens: Tokens, p: Json, c: Json, input: Input)
    requires Evaluate(spec, env, tokens, p, c, input).result.Committed?
    ensures (forall other: Input ::
              Evaluate(spec, env, tokens, p, c, other).result.Committed? ==> Satisfied(spec, p, c, other.acks))
            <==> KindsAreOwned(spec, p, c)
  {
    if KindsAreOwned(spec, p, c) {
      forall other: Input | Evaluate(spec, env, tokens, p, c, other).result.Committed?
        ensures Satisfied(spec, p, c, other.acks)
      {
        OwnedKindsSatisfied(spec, env, tokens, p, c, other);
      }
    } else {
      var other := UnownedKindEscapes(spec, env, tokens, p, c, input);
    }
  }

  const STRAY := Issue("elsewhere", "stray", None, None)

  const STRAY_SPEC :=
    Spec("save", [], [Detector("own", (p, c) => [STRAY], Never, None, None)], [])

  /** Without owned kinds a never-ackable detector can fire and the call still commit. */
  lemma StrayKindIsNotBlocked(env: Env, tokens: Tokens, p: Json, c: Json)
    ensures Warnings(STRAY_SPEC.detectors, p, c) == [STRAY]
    ensures Evaluate(STRAY_SPEC, env, tokens, p, c, Input(None, None, [], false, false)).result == Committed([STRAY])
  {
    var d := STRAY_SPEC.detectors[0];
    assert STRAY_SPEC.detectors == [d];
    assert STRAY_SPEC.detectors[..0] == [];
    var named := WithKinds([STRAY], d.kind);
    assert named == [STRAY];
    assert Warnings([d], p, c) == Warnings([], p, c) + named;
    assert DetectorFor([d], "elsewhere") == DetectorFor([], "elsewhere");
    assert Blocking([d], {}, [STRAY]) == Blocking([d], {}, []) by { assert [STRAY][..0] == []; }
    assert AckedKinds([d], [STRAY], []) == {};
  }

  // ---------- What a call does to the store ----------

  function EntryOf(spec: Spec, env: Env, p: Json, c: Json): StoredToken
  {
    Entry(spec.kind, env.hash(Slices(spec, p, c)), Slices(spec, p, c), env.now)
  }

  predicate Mints(r: Result)
  {
    r.Rejected? && (r.rejection.reason in {Pending, TokenUnknownOrExpired, PayloadChanged} ||
                    (r.rejection.reason == AnswersInconsistent && r.rejection.firstCallAnswers))
  }

  /** A token was echoed to a call that passed stages 0 and 1 with some classifier active. */
  predicate ReachesToken(spec: Spec, p: Json, c: Json, input: Input)
  {
    Passes(spec, p, c, input) && |Active(spec.classifiers, p, c)| > 0 && !NoToken(input.token)
  }

  /** The echoed token leaves the store: it expired, or a real run spent it on a commit or a changed payload. */
  predicate TokenDropped(spec: Spec, env: Env, tokens: Tokens, p: Json, c: Json, input: Input)
  {
    ReachesToken(spec, p, c, input) &&
    (var t := input.token.value;
     var r := Evaluate(spec, env, tokens, p, c, input).result;
     !Live(tokens, t, env.now) || (!input.dryRun && (r.Committed? || r.rejection.reason == PayloadChanged)))
  }

  /** The echoed token is stored for this audit kind and these slices. */
  predicate TokenMatches(spec: Spec, env: Env, tokens: Tokens, p: Json, c: Json, token: string)
  {
    Live(tokens, token, env.now) && tokens[token].kind == spec.kind &&
    tokens[token].payloadHash == env.hash(SliceFor(Active(spec.classifiers, p, c), p, c))
  }

  /** What a call that echoes a token leaves of entry t. */
  ghost predicate TokenCallKeeps(spec: Spec, env: Env, tokens: Tokens, p: Json, c: Json, input: Input, token: string,
                                 o: Outcome, t: string)
  {
    var gone := !Live(tokens, token, env.now) ||
                (!input.dryRun && (o.result.Committed? || o.result.rejection.reason == PayloadChanged));
    && (t in o.tokens <==> (Mints(o.result) && t == env.drawn) || (t in tokens && !(t == token && gone)))
    && (t in o.tokens ==>
          o.tokens[t] == (if Mints(o.result) && t == env.drawn then EntryOf(spec, env, p, c) else tokens[t]))
  }

  lemma UnknownStore(spec: Spec, env: Env, tokens: Tokens, p: Json, c: Json, input: Input, warnings: seq<Issue>,
                     token: string, t: string)
    requires !Live(tokens, token, env.now) || tokens[token].kind != spec.kind
    ensures var o := TokenCall(spec, env, tokens, p, c, input, warnings, token);
            TokenCallKeeps(spec, env, tokens, p, c, input, token, o, t)
  {
  }

  lemma ChangedStore(spec: Spec, env: Env, tokens: Tokens, p: Json, c: Json, input: Input, warnings: seq<Issue>,
                     token: string, t: string)
    requires Live(tokens, token, env.now) && tokens[token].kind == spec.kind
    requires tokens[token].payloadHash != env.hash(SliceFor(Active(spec.classifiers, p, c), p, c))
    ensures var o := TokenCall(spec, env, tokens, p, c, input, warnings, token);
            TokenCallKeeps(spec, env, tokens, p, c, input, token, o, t)
  {
  }

  /** What is kept of a matched token's entry, when its answers are consistent and when they are not. */
  lemma MatchStore(spec: Spec, env: Env, tokens: Tokens, p: Json, c: Json, input: Input, warnings: seq<Issue>,
                   token: string, t: string)
    requires TokenMatches(spec, env, tokens, p, c, token)
    ensures var o := TokenCall(spec, env, tokens, p, c, input, warnings, token);
            TokenCallKeeps(spec, env, tokens, p, c, input, token, o, t)
  {
    var o := TokenCall(spec, env, tokens, p, c, input, warnings, token);
    MatchOutcome(spec, env, tokens, p, c, input, warnings, token);
    assert !Mints(o.result);
  }

  lemma MatchOutcome(spec: Spec, env: Env, tokens: Tokens, p: Json, c: Json, input: Input, warnings: seq<Issue>,
                     token: string)
    requires TokenMatches(spec, env, tokens, p, c, token)
    ensures var o := TokenCall(spec, env, tokens, p, c, input, warnings, token);
            if o.result.Committed? then o.tokens == Spent(input, tokens, token)
            else o.tokens == tokens && o.result.rejection.reason == AnswersInconsistent &&
                 !o.result.rejection.firstCallAnswers
  {
  }

  lemma TokenCallStore(spec: Spec, env: Env, tokens: Tokens, p: Json, c: Json, input: Input, warnings: seq<Issue>,
                       t: string)
    requires !NoToken(input.token)
    ensures var o := TokenCall(spec, env, tokens, p, c, input, warnings, input.token.value);
            TokenCallKeeps(spec, env, tokens, p, c, input, input.token.value, o, t)
  {
    var token := input.token.value;
    if TokenMatches(spec, env, tokens, p, c, token) {
      MatchStore(spec, env, tokens, p, c, input, warnings, token, t);
    } else if Live(tokens, token, env.now) && tokens[token].kind == spec.kind {
      ChangedStore(spec, env, tokens, p, c, input, warnings, token, t);
    } else {
      UnknownStore(spec, env, tokens, p, c, input, warnings, token, t);
    }
  }

  lemma Stage2Store(spec: Spec, env: Env, tokens: Tokens, p: Json, c: Json, input: Input, warnings: seq<Issue>,
                    t: string)
    ensures var o := Stage2(spec, env, tokens, p, c, input, warnings);
            var dropped := |Active(spec.classifiers, p, c)| > 0 && !NoToken(input.token) &&
                           (!Live(tokens, input.token.value, env.now) ||
                            (!input.dryRun && (o.result.Committed? || o.result.rejection.reason == PayloadChanged)));
            && (t in o.tokens <==>
                  (Mints(o.result) && t == env.drawn) || (t in tokens && !(Some(t) == input.token && dropped)))
            && (t in o.tokens ==>
                  o.tokens[t] == (if Mints(o.result) && t == env.drawn then EntryOf(spec, env, p, c) else tokens[t]))
  {
    if !NoToken(input.token) {
      TokenCallStore(spec, env, tokens, p, c, input, warnings, t);
    } else {
      FirstCallStore(spec, env, tokens, p, c, input, warnings);
    }
  }

  /** The only entry a call adds is its own mint; every entry it keeps is unchanged. */
  lemma StoreStep(spec: Spec, env: Env, tokens: Tokens, p: Json, c: Json, input: Input, t: string)
    ensures var o := Evaluate(spec, env, tokens, p, c, input);
            t in o.tokens <==>
              (Mints(o.result) && t == env.drawn) ||
              (t in tokens && !(Some(t) == input.token && TokenDropped(spec, env, tokens, p, c, input)))
    ensures var o := Evaluate(spec, env, tokens, p, c, input);
            t in o.tokens ==>
              o.tokens[t] == (if Mints(o.result) && t == env.drawn then EntryOf(spec, env, p, c) else tokens[t])
  {
    Stage2Store(spec, env, tokens, p, c, input, RunStage1(spec, p, c, input.acks).warnings, t);
  }

  lemma FirstCallStore(spec: Spec, env: Env, tokens: Tokens, p: Json, c: Json, input: Input, warnings: seq<Issue>)
    ensures var o := FirstCall(spec, env, tokens, p, c, input, warnings);
            o.tokens == (if Mints(o.result) then Minted(env, tokens, spec, Slices(spec, p, c)) else tokens)
  {
  }

  /** Shape and acknowledgement rejections leave the store as it was and hand out no token. */
  lemma EarlyRejectionsTouchNothing(spec: Spec, env: Env, tokens: Tokens, p: Json, c: Json, input: Input)
    requires (!input.skipShapeChecks && !ShapeClean(spec, p, c)) ||
             !WarningsCleared(spec, p, c, input.acks) || !AcksWellFormed(spec, p, c, input.acks)
    ensures var o := Evaluate(spec, env, tokens, p, c, input);
            o.tokens == tokens && o.result.Rejected? && o.result.rejection.token == None
            && o.result.rejection.reason in {InvalidShape, UnackedWarnings}
  {
    ShapeIssuesExact(spec.shapeChecks, p, c);
    Stage1Exact(spec, p, c, input.acks);
  }

  // ---------- Dry runs ----------

  function Renamed(r: Result, from: string, to: string): Result
  {
    if r.Rejected? && r.rejection.token == Some(from) then Rejected(r.rejection.(token := Some(to))) else r
  }

  lemma MatchForetold(spec: Spec, env: Env, drawn: string, tokens: Tokens, p: Json, c: Json, input: Input,
                      warnings: seq<Issue>, token: string)
    requires TokenMatches(spec, env, tokens, p, c, token) && token !in {env.drawn, drawn}
    ensures var dry := TokenCall(spec, env, tokens, p, c, input.(dryRun := true), warnings, token);
            var wet := TokenCall(spec, env.(drawn := drawn), tokens, p, c, input.(dryRun := false), warnings, token);
            wet.result == dry.result == Renamed(dry.result, env.drawn, drawn)
  {
  }

  lemma MismatchForetold(spec: Spec, env: Env, drawn: string, tokens: Tokens, p: Json, c: Json, input: Input,
                         warnings: seq<Issue>, token: string)
    requires !TokenMatches(spec, env, tokens, p, c, token)
    ensures var dry := TokenCall(spec, env, tokens, p, c, input.(dryRun := true), warnings, token);
            var wet := TokenCall(spec, env.(drawn := drawn), tokens, p, c, input.(dryRun := false), warnings, token);
            wet.result == Renamed(dry.result, env.drawn, drawn)
  {
  }

  /** A real stage-2 call against the same store as a dry one. */
  lemma TokenCallForetold(spec: Spec, env: Env, drawn: string, tokens: Tokens, p: Json, c: Json, input: Input,
                          warnings: seq<Issue>)
    requires !NoToken(input.token) && input.token.value !in {env.drawn, drawn}
    ensures var token := input.token.value;
            var dry := TokenCall(spec, env, tokens, p, c, input.(dryRun := true), warnings, token);
            var wet := TokenCall(spec, env.(drawn := drawn), tokens, p, c, input.(dryRun := false), warnings, token);
            wet.result == Renamed(dry.result, env.drawn, drawn)
  {
    if TokenMatches(spec, env, tokens, p, c, input.token.value) {
      MatchForetold(spec, env, drawn, tokens, p, c, input, warnings, input.token.value);
    } else {
      MismatchForetold(spec, env, drawn, tokens, p, c, input, warnings, input.token.value);
    }
  }

  lemma FirstCallForetold(spec: Spec, env: Env, drawn: string, tokens: Tokens, p: Json, c: Json, input: Input,
                          warnings: seq<Issue>)
    ensures var dry := FirstCall(spec, env, tokens, p, c, input.(dryRun := true), warnings);
            var wet := FirstCall(spec, env.(drawn := drawn), tokens, p, c, input.(dryRun := false), warnings);
            wet.result == Renamed(dry.result, env.drawn, drawn)
  {
  }

  lemma Stage2Foretold(spec: Spec, env: Env, drawn: string, tokens: Tokens, p: Json, c: Json, input: Input,
                       warnings: seq<Issue>)
    requires input.token != Some(env.drawn) && input.token != Some(drawn)
    ensures var dry := Stage2(spec, env, tokens, p, c, input.(dryRun := true), warnings);
            var wet := Stage2(spec, env.(drawn := drawn), tokens, p, c, input.(dryRun := false), warnings);
            wet.result == Renamed(dry.result, env.drawn, drawn)
  {
    if NoToken(input.token) {
      FirstCallForetold(spec, env, drawn, tokens, p, c, input, warnings);
    } else {
      TokenCallForetold(spec, env, drawn, tokens, p, c, input, warnings);
    }
  }

  /**
    On the same store a dry run reports what the real call reports: the same status, reason and
    issues, up to the name of a newly minted token.
   */
  lemma DryRunForetells(spec: Spec, env: Env, drawn: string, tokens: Tokens, p: Json, c: Json, input: Input)
    requires input.token != Some(env.drawn) && input.token != Some(drawn)
    ensures var dry := Evaluate(spec, env, tokens, p, c, input.(dryRun := true));
            var wet := Evaluate(spec, env.(drawn := drawn), tokens, p, c, input.(dryRun := false));
            wet.result == Renamed(dry.result, env.drawn, drawn)
  {
    Stage2Foretold(spec, env, drawn, tokens, p, c, input, RunStage1(spec, p, c, input.acks).warnings);
  }

  /** A dry run keeps every unexpired token as it was. */
  lemma DryRunSpendsNothing(spec: Spec, env: Env, tokens: Tokens, p: Json, c: Json, input: Input, t: string)
    requires input.dryRun && Live(tokens, t, env.now) && t != env.drawn
    ensures var after := Evaluate(spec, env, tokens, p, c, input).tokens;
            t in after && after[t] == tokens[t]
  {
    StoreStep(spec, env, tokens, p, c, input, t);
  }

  // ---------- Payload edits ----------

  /** A token rejects as changed exactly when it is usable here and was minted over a different hash. */
  lemma PayloadChangedExact(spec: Spec, env: Env, tokens: Tokens, p: Json, c: Json, input: Input)
    ensures var r := Evaluate(spec, env, tokens, p, c, input).result;
            (r.Rejected? && r.rejection.reason == PayloadChanged) <==>
            ReachesToken(spec, p, c, input) && Live(tokens, input.token.value, env.now) &&
            tokens[input.token.value].kind == spec.kind &&
            tokens[input.token.value].payloadHash != env.hash(Slices(spec, p, c))
  {
  }

  /** The edit keeps which classifiers are active and what each of them hashes. */
  ghost predicate EditKeepsHashedFields(spec: Spec, p: Json, c: Json, p': Json, c': Json)
  {
    forall k :: k in spec.classifiers ==>
      (IsActive(k, p, c) <==> IsActive(k, p', c')) &&
      (IsActive(k, p, c) ==> SliceOf(k, p, c) == SliceOf(k, p', c'))
  }

  lemma {:induction false} SlicesKept(classifiers: seq<Classifier>, p: Json, c: Json, p': Json, c': Json)
    requires forall k :: k in classifiers ==>
      (IsActive(k, p, c) <==> IsActive(k, p', c')) && (IsActive(k, p, c) ==> SliceOf(k, p, c) == SliceOf(k, p', c'))
    ensures Active(classifiers, p, c) == Active(classifiers, p', c')
    ensures SliceFor(Active(classifiers, p, c), p, c) == SliceFor(Active(classifiers, p', c'), p', c')
  {
    if classifiers != [] {
      var last := classifiers[|classifiers| - 1];
      assert classifiers == classifiers[..|classifiers| - 1] + [last];
      SlicesKept(classifiers[..|classifiers| - 1], p, c, p', c');
    }
    var active := Active(classifiers, p, c);
    assert active == Active(classifiers, p', c');
    forall i | 0 <= i < |active| ensures SliceOf(active[i], p, c) == SliceOf(active[i], p', c') {
      ActiveMembers(classifiers, p, c, active[i]);
    }
  }

  /**
    A token whose entry was minted over one payload never answers `payload_changed` for an edit that keeps the
    hashed fields.
   */
  lemma ScopedEditsKeepTheToken(
    spec: Spec, mint: Env, p: Json, c: Json, env: Env, tokens: Tokens, p': Json, c': Json, input: Input)
    requires EditKeepsHashedFields(spec, p, c, p', c') && env.hash == mint.hash
    requires input.token.Some? && input.token.value in tokens ==> tokens[input.token.value] == EntryOf(spec, mint, p, c)
    ensures var r := Evaluate(spec, env, tokens, p', c', input).result;
            r.Rejected? ==> r.rejection.reason != PayloadChanged
  {
    assert Slices(spec, p, c) == Slices(spec, p', c') by {
      SlicesKept(spec.classifiers, p, c, p', c');
    }
    PayloadChangedExact(spec, env, tokens, p', c', input);
  }

  // ---------- The first-call mode ----------

  predicate AtMost(m: FirstCallMode, n: FirstCallMode)
  {
    m == n || m == Off || n == AllExceptConfirmation
  }

  /** A token-less call that commits under a narrower mode commits, with the same warnings, under a wider one. */
  lemma WiderModesCommitToo(spec: Spec, env: Env, wider: FirstCallMode, tokens: Tokens, p: Json, c: Json, input: Input)
    requires NoToken(input.token) && AtMost(env.mode, wider)
    requires Evaluate(spec, env, tokens, p, c, input).result.Committed?
    ensures Evaluate(spec, env.(mode := wider), tokens, p, c, input) == Evaluate(spec, env, tokens, p, c, input)
  {
    CommitsExactly(spec, env, tokens, p, c, input);
    CommitsExactly(spec, env.(mode := wider), tokens, p, c, input);
  }
}
