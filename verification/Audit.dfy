/**
  The save-time audit (src/audit/index.ts): shape checks, detectors with acknowledgements,
  then token-gated classifiers. `Evaluate` is the specification of one call, `Audit.Process`
  the implementation with the source's loops over the shared token store.
 */
module Audit {
  import opened Wrappers
  import opened AckTypes
  import opened TokenStore

  // ---------- The audit's vocabulary ----------

  datatype Issue = Issue(kind: string, message: string, hint: Option<string>, context: Option<Json>)

  datatype AckReason = Required | Never

  datatype UnattendedPolicy = Block | Warn | Skip

  datatype ShapeCheck = ShapeCheck(kind: string, check: (Json, Json) -> seq<string>)

  datatype Detector = Detector(
    kind: string,
    detect: (Json, Json) -> seq<Issue>,
    ackReason: AckReason,
    validateAck: Option<(NormalizedAck, seq<Issue>) -> seq<string>>,
    unattendedPolicy: Option<UnattendedPolicy>)

  datatype Classifier = Classifier(
    kind: string,
    buildItems: (Json, Json) -> Option<Json>,
    validate: (Json, Json, Option<Json>) -> seq<string>,
    hashFields: Option<(Json, Json) -> Json>,
    firstCallAnswerable: Option<bool>,
    unattendedWarnings: Option<(Json, Json) -> seq<Issue>>)

  datatype Spec = Spec(kind: string, shapeChecks: seq<ShapeCheck>,
    detectors: seq<Detector>, classifiers: seq<Classifier>)

  datatype AckEntry = AckEntry(kind: string, raw: Json)

  datatype Input = Input(
    token: Option<string>,
    answers: Option<map<string, Json>>,
    acks: seq<AckEntry>,
    dryRun: bool,
    skipShapeChecks: bool)

  datatype FirstCallMode = Off | SafeSubset | AllExceptConfirmation

  /** What a call reads from outside: the configured mode, the payload hash, the clock and the random token. */
  datatype Env = Env(mode: FirstCallMode, hash: seq<Slice> -> string, now: int, drawn: string)

  datatype Reason =
    InvalidShape | Pending | TokenUnknownOrExpired | PayloadChanged | AnswersInconsistent | UnackedWarnings

  datatype Rejection = Rejection(
    reason: Reason,
    token: Option<string>,
    shapeIssues: seq<string>,
    warnings: seq<Issue>,
    nonAckable: seq<string>,
    ackIssues: seq<string>,
    currentlyAcked: set<string>,
    items: map<string, Option<Json>>,
    classifierIssues: seq<string>,
    firstCallAnswers: bool)

  datatype Result = Committed(warnings: seq<Issue>) | Rejected(rejection: Rejection)

  // ---------- Stage 0 ----------

  function ShapeIssues(checks: seq<ShapeCheck>, p: Json, c: Json): seq<string>
  {
    if checks == [] then []
    else ShapeIssues(checks[..|checks| - 1], p, c) + checks[|checks| - 1].check(p, c)
  }

  // ---------- Stage 1 ----------

  function WithKind(issue: Issue, fallback: string): Issue
  {
    if |issue.kind| > 0 then issue else issue.(kind := fallback)
  }

  function WithKinds(issues: seq<Issue>, fallback: string): seq<Issue>
  {
    seq(|issues|, i requires 0 <= i < |issues| => WithKind(issues[i], fallback))
  }

  function Warnings(detectors: seq<Detector>, p: Json, c: Json): seq<Issue>
  {
    if detectors == [] then []
    else
      var d := detectors[|detectors| - 1];
      Warnings(detectors[..|detectors| - 1], p, c) + WithKinds(d.detect(p, c), d.kind)
  }

  /** `new Map(...)` keeps the last detector of a kind. */
  function DetectorFor(detectors: seq<Detector>, kind: string): Option<Detector>
  {
    if detectors == [] then None
    else if detectors[|detectors| - 1].kind == kind then Some(detectors[|detectors| - 1])
    else DetectorFor(detectors[..|detectors| - 1], kind)
  }

  function OfKind(warnings: seq<Issue>, kind: string): seq<Issue>
  {
    if warnings == [] then []
    else
      var rest := OfKind(warnings[..|warnings| - 1], kind);
      if warnings[|warnings| - 1].kind == kind then rest + [warnings[|warnings| - 1]] else rest
  }

  /** Whether one acknowledgement is refused, has nothing to acknowledge, or is accepted. */
  datatype AckVerdict = Refused(issues: seq<string>) | NothingEmitted | Accepted

  const REASON_REQUIRED := "requires a non-empty reason"

  function JudgeAck(detectors: seq<Detector>, warnings: seq<Issue>, ack: AckEntry): AckVerdict
  {
    var normalized := NormalizeAck(ack.raw);
    if normalized.None? then Refused([REASON_REQUIRED])
    else
      var emitted := OfKind(warnings, ack.kind);
      if emitted == [] then NothingEmitted
      else
        var d := DetectorFor(detectors, ack.kind);
        if d.Some? && d.value.validateAck.Some? then
          var issues := d.value.validateAck.value(normalized.value, emitted);
          if issues != [] then Refused(issues) else Accepted
        else Accepted
  }

  function AckIssues(detectors: seq<Detector>, warnings: seq<Issue>, acks: seq<AckEntry>): seq<string>
  {
    if acks == [] then []
    else
      var verdict := JudgeAck(detectors, warnings, acks[|acks| - 1]);
      AckIssues(detectors, warnings, acks[..|acks| - 1]) + (if verdict.Refused? then verdict.issues else [])
  }

  function AckedKinds(detectors: seq<Detector>, warnings: seq<Issue>, acks: seq<AckEntry>): set<string>
  {
    set i | 0 <= i < |acks| && JudgeAck(detectors, warnings, acks[i]).Accepted? :: acks[i].kind
  }

  predicate Blocks(detectors: seq<Detector>, acked: set<string>, w: Issue)
  {
    var d := DetectorFor(detectors, w.kind);
    d.Some? && (d.value.ackReason == Never || w.kind !in acked)
  }

  function Blocking(detectors: seq<Detector>, acked: set<string>, warnings: seq<Issue>): seq<Issue>
  {
    if warnings == [] then []
    else
      var rest := Blocking(detectors, acked, warnings[..|warnings| - 1]);
      if Blocks(detectors, acked, warnings[|warnings| - 1]) then rest + [warnings[|warnings| - 1]] else rest
  }

  function NeverKinds(detectors: seq<Detector>, blocking: seq<Issue>): seq<string>
  {
    if blocking == [] then []
    else
      var w := blocking[|blocking| - 1];
      var d := DetectorFor(detectors, w.kind);
      NeverKinds(detectors, blocking[..|blocking| - 1]) +
      (if d.Some? && d.value.ackReason == Never then [w.kind] else [])
  }

  // ---------- Stage 2 ----------

  /** `itemsAreNonEmpty` of src/audit/slices.ts; None is `undefined`. */
  predicate ItemsAreNonEmpty(items: Option<Json>)
  {
    match items
    case None => false
    case Some(Null) => false
    case Some(Arr(xs)) => |xs| > 0
    case Some(Obj(fields)) => |fields| > 0
    case Some(_) => true
  }

  predicate IsActive(k: Classifier, p: Json, c: Json)
  {
    ItemsAreNonEmpty(k.buildItems(p, c))
  }

  function Active(classifiers: seq<Classifier>, p: Json, c: Json): seq<Classifier>
  {
    if classifiers == [] then []
    else
      var rest := Active(classifiers[..|classifiers| - 1], p, c);
      var last := classifiers[|classifiers| - 1];
      if IsActive(last, p, c) then rest + [last] else rest
  }

  predicate AnswerableFirst(mode: FirstCallMode, k: Classifier)
  {
    match mode
    case Off => false
    case SafeSubset => k.firstCallAnswerable == Some(true)
    case AllExceptConfirmation => k.firstCallAnswerable != Some(false)
  }

  function Answerable(mode: FirstCallMode, active: seq<Classifier>): seq<Classifier>
  {
    if active == [] then []
    else
      var rest := Answerable(mode, active[..|active| - 1]);
      var last := active[|active| - 1];
      if AnswerableFirst(mode, last) then rest + [last] else rest
  }

  function SliceOf(k: Classifier, p: Json, c: Json): Slice
  {
    Slice(k.kind, if k.hashFields.Some? then k.hashFields.value(p, c) else p)
  }

  function SliceFor(active: seq<Classifier>, p: Json, c: Json): seq<Slice>
  {
    seq(|active|, i requires 0 <= i < |active| => SliceOf(active[i], p, c))
  }

  function AnswerFor(answers: Option<map<string, Json>>, k: Classifier): Option<Json>
  {
    if answers.Some? && k.kind in answers.value then Some(answers.value[k.kind]) else None
  }

  function ClassifierIssues(asked: seq<Classifier>, p: Json, c: Json, answers: Option<map<string, Json>>): seq<string>
  {
    if asked == [] then []
    else
      var last := asked[|asked| - 1];
      ClassifierIssues(asked[..|asked| - 1], p, c, answers) + last.validate(p, c, AnswerFor(answers, last))
  }

  function Items(active: seq<Classifier>, p: Json, c: Json): map<string, Option<Json>>
  {
    if active == [] then map[]
    else
      var last := active[|active| - 1];
      Items(active[..|active| - 1], p, c)[last.kind := last.buildItems(p, c)]
  }

  // ---------- One call ----------

  function ShapeRejection(shapeIssues: seq<string>): Rejection
  {
    Rejection(InvalidShape, None, shapeIssues, [], [], [], {}, map[], [], false)
  }

  function AckRejection(spec: Spec, s1: Stage1): Rejection
  {
    Rejection(UnackedWarnings, None, [], s1.blocking, NeverKinds(spec.detectors, s1.blocking), s1.ackIssues, s1.acked,
              map[], [], false)
  }

  /** A stage-2 rejection carries a token and the checklist of every active classifier. */
  function TokenRejection(reason: Reason, token: string, warnings: seq<Issue>, items: map<string, Option<Json>>,
                          classifierIssues: seq<string>, firstCallAnswers: bool): Rejection
  {
    Rejection(reason, Some(token), [], warnings, [], [], {}, items, classifierIssues, firstCallAnswers)
  }

  datatype Stage1 = Stage1(warnings: seq<Issue>, ackIssues: seq<string>, acked: set<string>, blocking: seq<Issue>)

  function RunStage1(spec: Spec, p: Json, c: Json, acks: seq<AckEntry>): Stage1
  {
    var warnings := Warnings(spec.detectors, p, c);
    var acked := AckedKinds(spec.detectors, warnings, acks);
    Stage1(warnings, AckIssues(spec.detectors, warnings, acks), acked, Blocking(spec.detectors, acked, warnings))
  }

  predicate NoToken(token: Option<string>)
  {
    token.None? || token.value == ""
  }

  predicate HasAnswers(input: Input)
  {
    input.answers.Some? && input.answers.value != map[]
  }

  function Minted(env: Env, tokens: Tokens, spec: Spec, slices: seq<Slice>): Tokens
  {
    tokens[env.drawn := Entry(spec.kind, env.hash(slices), slices, env.now)]
  }

  datatype Outcome = Outcome(result: Result, tokens: Tokens)

  /** Stage 2 of a call without a token. */
  function FirstCall(spec: Spec, env: Env, tokens: Tokens, p: Json, c: Json, input: Input,
                     warnings: seq<Issue>): (o: Outcome)
    ensures o.result.Rejected? ==> o.result.rejection.token.Some?
  {
    var active := Active(spec.classifiers, p, c);
    var items := Items(active, p, c);
    var minted := Minted(env, tokens, spec, SliceFor(active, p, c));
    var pending := Outcome(Rejected(TokenRejection(Pending, env.drawn, warnings, items, [], false)), minted);
    var answerable := Answerable(env.mode, active);
    if !HasAnswers(input) || |answerable| == 0 then pending
    else
      var issues := ClassifierIssues(answerable, p, c, input.answers);
      if |issues| == 0 && |answerable| == |active| then Outcome(Committed(warnings), tokens)
      else if |issues| == 0 then pending
      else Outcome(Rejected(TokenRejection(AnswersInconsistent, env.drawn, warnings, items, issues, true)), minted)
  }

  /** Stage 2 of a call that echoes a token. */
  function TokenCall(spec: Spec, env: Env, tokens: Tokens, p: Json, c: Json, input: Input,
                     warnings: seq<Issue>, token: string): (o: Outcome)
    ensures o.result.Rejected? ==> o.result.rejection.token.Some?
  {
    var active := Active(spec.classifiers, p, c);
    var items := Items(active, p, c);
    var slices := SliceFor(active, p, c);
    var seen := AfterLookup(tokens, token, env.now);
    if !Live(tokens, token, env.now) || tokens[token].kind != spec.kind then
      Outcome(Rejected(TokenRejection(TokenUnknownOrExpired, env.drawn, warnings, items, [], false)),
              Minted(env, seen, spec, slices))
    else if tokens[token].payloadHash != env.hash(slices) then
      Outcome(Rejected(TokenRejection(PayloadChanged, env.drawn, warnings, items, [], false)),
              Minted(env, Spent(input, seen, token), spec, slices))
    else
      var issues := ClassifierIssues(active, p, c, input.answers);
      if |issues| != 0 then
        Outcome(Rejected(TokenRejection(AnswersInconsistent, token, warnings, items, issues, false)), seen)
      else
        Outcome(Committed(warnings), Spent(input, seen, token))
  }

  /** A dry run keeps the token it was given. */
  function Spent(input: Input, tokens: Tokens, token: string): Tokens
  {
    if input.dryRun then tokens else tokens - {token}
  }

  function Stage2(spec: Spec, env: Env, tokens: Tokens, p: Json, c: Json, input: Input,
                  warnings: seq<Issue>): (o: Outcome)
    ensures o.result.Rejected? ==> o.result.rejection.token.Some?
  {
    if |Active(spec.classifiers, p, c)| == 0 then Outcome(Committed(warnings), tokens)
    else if NoToken(input.token) then FirstCall(spec, env, tokens, p, c, input, warnings)
    else TokenCall(spec, env, tokens, p, c, input, warnings, input.token.value)
  }

  predicate ShapePasses(spec: Spec, p: Json, c: Json, input: Input)
  {
    input.skipShapeChecks || |ShapeIssues(spec.shapeChecks, p, c)| == 0
  }

  predicate Clear(s1: Stage1)
  {
    |s1.blocking| == 0 && |s1.ackIssues| == 0
  }

  function Evaluate(spec: Spec, env: Env, tokens: Tokens, p: Json, c: Json, input: Input): Outcome
  {
    if !ShapePasses(spec, p, c, input) then
      Outcome(Rejected(ShapeRejection(ShapeIssues(spec.shapeChecks, p, c))), tokens)
    else
      var s1 := RunStage1(spec, p, c, input.acks);
      if !Clear(s1) then Outcome(Rejected(AckRejection(spec, s1)), tokens)
      else Stage2(spec, env, tokens, p, c, input, s1.warnings)
  }

  // ---------- The implementation ----------

  class Auditor {
    const spec: Spec
    const store: Store

    constructor (spec: Spec, store: Store)
      ensures this.spec == spec && this.store == store
    {
      this.spec := spec;
      this.store := store;
    }

    method CollectShapeIssues(p: Json, c: Json) returns (issues: seq<string>)
      ensures issues == ShapeIssues(spec.shapeChecks, p, c)
    {
      issues := [];
      for i := 0 to |spec.shapeChecks|
        invariant issues == ShapeIssues(spec.shapeChecks[..i], p, c)
      {
        issues := issues + spec.shapeChecks[i].check(p, c);
        assert spec.shapeChecks[..i + 1][..i] == spec.shapeChecks[..i];
      }
      assert spec.shapeChecks[..|spec.shapeChecks|] == spec.shapeChecks;
    }

    method NameIssues(issues: seq<Issue>, fallback: string) returns (named: seq<Issue>)
      ensures named == WithKinds(issues, fallback)
    {
      named := [];
      for j := 0 to |issues|
        invariant |named| == j
        invariant forall i :: 0 <= i < j ==> named[i] == WithKind(issues[i], fallback)
      {
        named := named + [if |issues[j].kind| > 0 then issues[j] else issues[j].(kind := fallback)];
      }
    }

    method CollectWarnings(p: Json, c: Json) returns (warnings: seq<Issue>)
      ensures warnings == Warnings(spec.detectors, p, c)
    {
      warnings := [];
      for i := 0 to |spec.detectors|
        invariant warnings == Warnings(spec.detectors[..i], p, c)
      {
        var d := spec.detectors[i];
        var emitted := NameIssues(d.detect(p, c), d.kind);
        warnings := warnings + emitted;
        assert spec.detectors[..i + 1][..i] == spec.detectors[..i];
      }
      assert spec.detectors[..|spec.detectors|] == spec.detectors;
    }

    method CheckAcks(warnings: seq<Issue>, acks: seq<AckEntry>) returns (ackIssues: seq<string>, acked: set<string>)
      ensures ackIssues == AckIssues(spec.detectors, warnings, acks)
      ensures acked == AckedKinds(spec.detectors, warnings, acks)
    {
      ackIssues, acked := [], {};
      for i := 0 to |acks|
        invariant ackIssues == AckIssues(spec.detectors, warnings, acks[..i])
        invariant acked == AckedKinds(spec.detectors, warnings, acks[..i])
      {
        assert acks[..i + 1][..i] == acks[..i];
        AckedKindsStep(spec.detectors, warnings, acks[..i], acks[i]);
        assert acks[..i] + [acks[i]] == acks[..i + 1];
        var normalized := NormalizeAck(acks[i].raw);
        if normalized.None? {
          ackIssues := ackIssues + [REASON_REQUIRED];
          continue;
        }
        var emitted := OfKind(warnings, acks[i].kind);
        if |emitted| == 0 {
          continue;
        }
        var d := DetectorFor(spec.detectors, acks[i].kind);
        if d.Some? && d.value.validateAck.Some? {
          var issues := d.value.validateAck.value(normalized.value, emitted);
          if |issues| > 0 {
            ackIssues := ackIssues + issues;
            continue;
          }
        }
        acked := acked + {acks[i].kind};
      }
      assert acks[..|acks|] == acks;
    }

    method CollectBlocking(warnings: seq<Issue>, acked: set<string>) returns (blocking: seq<Issue>)
      ensures blocking == Blocking(spec.detectors, acked, warnings)
    {
      blocking := [];
      for i := 0 to |warnings|
        invariant blocking == Blocking(spec.detectors, acked, warnings[..i])
      {
        assert warnings[..i + 1][..i] == warnings[..i];
        var d := DetectorFor(spec.detectors, warnings[i].kind);
        if d.None? {
          continue;
        }
        var requiredButUnacked := d.value.ackReason == Required && warnings[i].kind !in acked;
        var neverAckable := d.value.ackReason == Never;
        if requiredButUnacked || neverAckable {
          blocking := blocking + [warnings[i]];
        }
      }
      assert warnings[..|warnings|] == warnings;
    }

    method CollectClassifierIssues(asked: seq<Classifier>, p: Json, c: Json, answers: Option<map<string, Json>>)
      returns (issues: seq<string>)
      ensures issues == ClassifierIssues(asked, p, c, answers)
    {
      issues := [];
      for i := 0 to |asked|
        invariant issues == ClassifierIssues(asked[..i], p, c, answers)
      {
        issues := issues + asked[i].validate(p, c, AnswerFor(answers, asked[i]));
        assert asked[..i + 1][..i] == asked[..i];
      }
      assert asked[..|asked|] == asked;
    }

    /** Mints this call's token into the shared store and builds the rejection that carries it. */
    method Mint(env: Env, active: seq<Classifier>, p: Json, c: Json, warnings: seq<Issue>, reason: Reason)
      returns (rejection: Rejection)
      modifies store
      ensures store.tokens == Minted(env, old(store.tokens), spec, SliceFor(active, p, c))
      ensures rejection == TokenRejection(reason, env.drawn, warnings, Items(active, p, c), [], false)
    {
      var slices := SliceFor(active, p, c);
      store.Issue(env.drawn, spec.kind, env.hash(slices), slices, env.now);
      rejection := TokenRejection(reason, env.drawn, warnings, Items(active, p, c), [], false);
    }

    method ProcessFirstCall(env: Env, p: Json, c: Json, input: Input, warnings: seq<Issue>) returns (result: Result)
      modifies store
      ensures Outcome(result, store.tokens) == FirstCall(spec, env, old(store.tokens), p, c, input, warnings)
    {
      var active := Active(spec.classifiers, p, c);
      if !HasAnswers(input) {
        var rejection := Mint(env, active, p, c, warnings, Pending);
        return Rejected(rejection);
      }
      var answerable := Answerable(env.mode, active);
      if |answerable| == 0 {
        var rejection := Mint(env, active, p, c, warnings, Pending);
        return Rejected(rejection);
      }
      var issues := CollectClassifierIssues(answerable, p, c, input.answers);
      if |issues| == 0 && |answerable| == |active| {
        return Committed(warnings);
      }
      if |issues| == 0 {
        var rejection := Mint(env, active, p, c, warnings, Pending);
        return Rejected(rejection);
      }
      var rejection := Mint(env, active, p, c, warnings, AnswersInconsistent);
      return Rejected(rejection.(classifierIssues := issues, firstCallAnswers := true));
    }

    method ProcessTokenCall(env: Env, p: Json, c: Json, input: Input, warnings: seq<Issue>, token: string)
      returns (result: Result)
      modifies store
      ensures Outcome(result, store.tokens) == TokenCall(spec, env, old(store.tokens), p, c, input, warnings, token)
    {
      var active := Active(spec.classifiers, p, c);
      var slices := SliceFor(active, p, c);
      var stored := store.Lookup(token, env.now);
      if stored.None? || stored.value.kind != spec.kind {
        var rejection := Mint(env, active, p, c, warnings, TokenUnknownOrExpired);
        return Rejected(rejection);
      }
      if stored.value.payloadHash != env.hash(slices) {
        if !input.dryRun {
          store.Consume(token);
        }
        var rejection := Mint(env, active, p, c, warnings, PayloadChanged);
        return Rejected(rejection);
      }
      result := AnswerOnToken(p, c, input, warnings, token);
    }

    /** The echoed token is this call's: its answers decide, and a real commit spends it. */
    method AnswerOnToken(p: Json, c: Json, input: Input, warnings: seq<Issue>, token: string) returns (result: Result)
      modifies store
      ensures var active := Active(spec.classifiers, p, c);
              var issues := ClassifierIssues(active, p, c, input.answers);
              Outcome(result, store.tokens) ==
              if |issues| != 0 then
                Outcome(Rejected(TokenRejection(
                  AnswersInconsistent, token, warnings, Items(active, p, c), issues, false)), old(store.tokens))
              else Outcome(Committed(warnings), Spent(input, old(store.tokens), token))
    {
      var active := Active(spec.classifiers, p, c);
      var issues := CollectClassifierIssues(active, p, c, input.answers);
      if |issues| > 0 {
        return Rejected(TokenRejection(AnswersInconsistent, token, warnings, Items(active, p, c), issues, false));
      }
      if !input.dryRun {
        store.Consume(token);
      }
      return Committed(warnings);
    }

    method ProcessStage2(env: Env, p: Json, c: Json, input: Input, warnings: seq<Issue>) returns (result: Result)
      modifies store
      ensures Outcome(result, store.tokens) == Stage2(spec, env, old(store.tokens), p, c, input, warnings)
    {
      if |Active(spec.classifiers, p, c)| == 0 {
        return Committed(warnings);
      }
      if NoToken(input.token) {
        result := ProcessFirstCall(env, p, c, input, warnings);
      } else {
        result := ProcessTokenCall(env, p, c, input, warnings, input.token.value);
      }
    }

    method ProcessStage1(p: Json, c: Json, acks: seq<AckEntry>) returns (s1: Stage1)
      ensures s1 == RunStage1(spec, p, c, acks)
    {
      var warnings := CollectWarnings(p, c);
      var ackIssues, acked := CheckAcks(warnings, acks);
      var blocking := CollectBlocking(warnings, acked);
      s1 := Stage1(warnings, ackIssues, acked, blocking);
    }

    method Process(env: Env, p: Json, c: Json, input: Input) returns (result: Result)
      modifies store
      ensures Outcome(result, store.tokens) == Evaluate(spec, env, old(store.tokens), p, c, input)
    {
      if !input.skipShapeChecks {
        var shape := CollectShapeIssues(p, c);
        if |shape| > 0 {
          return Rejected(ShapeRejection(shape));
        }
      }
      var s1 := ProcessStage1(p, c, input.acks);
      if |s1.blocking| > 0 || |s1.ackIssues| > 0 {
        return Rejected(AckRejection(spec, s1));
      }
      result := ProcessStage2(env, p, c, input, s1.warnings);
    }
  }

  lemma AckedKindsStep(detectors: seq<Detector>, warnings: seq<Issue>, acks: seq<AckEntry>, ack: AckEntry)
    ensures AckedKinds(detectors, warnings, acks + [ack]) ==
            AckedKinds(detectors, warnings, acks) +
            (if JudgeAck(detectors, warnings, ack).Accepted? then {ack.kind} else {})
  {
    var longer := acks + [ack];
    forall kind | kind in AckedKinds(detectors, warnings, acks)
      ensures kind in AckedKinds(detectors, warnings, longer)
    {
      var i :| 0 <= i < |acks| && JudgeAck(detectors, warnings, acks[i]).Accepted? && acks[i].kind == kind;
      assert longer[i] == acks[i];
    }
    assert longer[|acks|] == ack;
  }
}
