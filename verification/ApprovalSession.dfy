/** A multi-signature approval session: signers sign or refuse, the session completes when the
    signatures reach the threshold, and a complete session can be executed once. */
module ApprovalSession {
  import opened Basics
  import opened OrderedMap

  datatype Signer = Signer(publicKey: string, weight: int)

  datatype Policy = Policy(signers: seq<Signer>, threshold: int, timeoutMs: int)

  /** Puts the signatures into the transaction; `None` when it throws. */
  type Applier = (string, OMap<string, string>) -> Option<string>

  /** What is fixed when a session starts. */
  datatype Terms = Terms(
    txXdr: string, weights: map<string, int>, threshold: int, timeoutMs: int, expiresAt: int, apply: Applier)

  datatype State = State(
    signatures: OMap<string, string>, rejections: set<string>, completed: bool, rejected: bool, executed: bool)

  datatype Status = IsPending | IsApproved | IsRejected | IsExecuted | IsExpired

  datatype Report = Report(status: Status, weight: int, threshold: int, approvals: nat, rejections: nat)

  datatype Error = TimedOut(timeoutMs: int) | Unauthorized(signer: string) | NotReached | AlreadyExecuted | ApplierThrew

  datatype Outcome =
    | Progress(complete: bool, weight: int)
    | Reported(report: Report)
    | SignedXdr(xdr: string)
    | Threw(error: Error)

  datatype Call =
    | Submit(now: int, signer: string, signature: string)
    | Reject(now: int, signer: string)
    | Execute(now: int)
    | GetSignedXdr(now: int)

  /** A signer listed twice has the later weight. */
  function WeightsOf(signers: seq<Signer>): map<string, int> {
    if signers == [] then map[]
    else WeightsOf(signers[..|signers| - 1])[signers[|signers| - 1].publicKey := signers[|signers| - 1].weight]
  }

  function WeightOf(keys: seq<string>, weights: map<string, int>): int {
    if keys == [] then 0
    else
      var last := keys[|keys| - 1];
      WeightOf(keys[..|keys| - 1], weights) + if last in weights then weights[last] else 0
  }

  function Weight(t: Terms, s: State): int {
    WeightOf(s.signatures.keys, t.weights)
  }

  predicate Active(t: Terms, s: State, now: int) {
    s.completed || s.rejected || now <= t.expiresAt
  }

  function StatusOf(t: Terms, s: State, now: int): Status {
    if s.executed then IsExecuted
    else if s.rejected then IsRejected
    else if s.completed then IsApproved
    else if now > t.expiresAt then IsExpired
    else IsPending
  }

  function ReportOf(t: Terms, s: State, now: int): Report {
    Report(StatusOf(t, s, now), Weight(t, s), t.threshold, |s.signatures.keys|, |s.rejections|)
  }

  /** Whether the call is by a signer of the policy, and not too late. */
  predicate Admitted(t: Terms, s: State, call: Call) {
    && Active(t, s, call.now)
    && (call.Submit? || call.Reject? ==> call.signer in t.weights)
  }

  function Step(t: Terms, s: State, call: Call): State {
    if !Admitted(t, s, call) then s
    else
      match call
      case Submit(_, signer, signature) =>
        var signed := s.(signatures := Put(s.signatures, signer, signature), rejections := s.rejections - {signer});
        signed.(completed := s.completed || Weight(t, signed) >= t.threshold)
      case Reject(_, signer) =>
        s.(rejections := s.rejections + {signer}, signatures := Remove(s.signatures, signer), rejected := true)
      case Execute(_) =>
        s.(executed := s.executed || (s.completed && t.apply(t.txXdr, s.signatures).Some?))
      case GetSignedXdr(_) => s
  }

  function Apply(t: Terms, s: State): Outcome {
    match t.apply(t.txXdr, s.signatures)
    case Some(xdr) => SignedXdr(xdr)
    case None => Threw(ApplierThrew)
  }

  function OutcomeOf(t: Terms, s: State, call: Call): Outcome {
    if !Active(t, s, call.now) then Threw(TimedOut(t.timeoutMs))
    else if !Admitted(t, s, call) then Threw(Unauthorized(call.signer))
    else
      match call
      case Submit(_, _, _) => Progress(Step(t, s, call).completed, Weight(t, Step(t, s, call)))
      case Reject(now, _) => Reported(ReportOf(t, Step(t, s, call), now))
      case Execute(_) =>
        if !s.completed then Threw(NotReached) else if s.executed then Threw(AlreadyExecuted) else Apply(t, s)
      case GetSignedXdr(_) =>
        if !s.completed then Threw(NotReached) else Apply(t, s)
  }

  class Session {
    const txXdr: string
    const policy: Policy
    const applySignatures: Applier
    const signerWeights: map<string, int>
    const expiresAt: int
    var signatures: OMap<string, string>
    var rejections: set<string>
    var completed: bool
    var rejected: bool
    var executed: bool

    ghost function Now(): State
      reads this
    {
      State(signatures, rejections, completed, rejected, executed)
    }

    ghost function Fixed(): Terms {
      Terms(txXdr, signerWeights, policy.threshold, policy.timeoutMs, expiresAt, applySignatures)
    }

    constructor (txXdr: string, policy: Policy, applySignatures: Applier, now: int)
      ensures Now() == Initial()
      ensures this.txXdr == txXdr && this.policy == policy && this.applySignatures == applySignatures
      ensures signerWeights == WeightsOf(policy.signers) && expiresAt == now + policy.timeoutMs
    {
      var weights: map<string, int> := map[];
      for i := 0 to |policy.signers|
        invariant weights == WeightsOf(policy.signers[..i])
      {
        assert policy.signers[..i + 1][..i] == policy.signers[..i];
        weights := weights[policy.signers[i].publicKey := policy.signers[i].weight];
      }
      assert policy.signers[..|policy.signers|] == policy.signers;
      this.txXdr, this.policy, this.applySignatures := txXdr, policy, applySignatures;
      signerWeights := weights;
      expiresAt := now + policy.timeoutMs;
      signatures, rejections := Empty(), {};
      completed, rejected, executed := false, false, false;
    }

    method SubmitSignature(signer: string, signature: string, now: int) returns (r: Outcome)
      requires Valid(signatures)
      modifies this
      ensures Now() == Step(Fixed(), old(Now()), Submit(now, signer, signature))
      ensures r == OutcomeOf(Fixed(), old(Now()), Submit(now, signer, signature))
      ensures Valid(signatures)
    {
      hide Valid, Distinct, WeightOf, ReportOf, Apply, Keep;
      var error := AssertActive(now);
      if error.Some? {
        return Threw(error.value);
      }
      if signer !in signerWeights {
        return Threw(Unauthorized(signer));
      }
      signatures := Put(signatures, signer, signature);
      rejections := rejections - {signer};
      var weight := CurrentWeight();
      if weight >= policy.threshold {
        completed := true;
      }
      r := Progress(completed, weight);
    }

    method RejectBy(signer: string, now: int) returns (r: Outcome)
      requires Valid(signatures)
      modifies this
      ensures Now() == Step(Fixed(), old(Now()), Reject(now, signer))
      ensures r == OutcomeOf(Fixed(), old(Now()), Reject(now, signer))
      ensures Valid(signatures)
    {
      var error := AssertActive(now);
      if error.Some? {
        return Threw(error.value);
      }
      if signer !in signerWeights {
        return Threw(Unauthorized(signer));
      }
      rejections := rejections + {signer};
      RemoveAllValid(signatures, {signer});
      signatures := Remove(signatures, signer);
      rejected := true;
      var report := GetStatus(now);
      r := Reported(report);
    }

    method ExecuteNow(now: int) returns (r: Outcome)
      modifies this
      ensures Now() == Step(Fixed(), old(Now()), Execute(now))
      ensures r == OutcomeOf(Fixed(), old(Now()), Execute(now))
    {
      var error := AssertActive(now);
      if error.Some? {
        return Threw(error.value);
      }
      if !completed {
        return Threw(NotReached);
      }
      if executed {
        return Threw(AlreadyExecuted);
      }
      match applySignatures(txXdr, signatures)
      case None => return Threw(ApplierThrew);
      case Some(xdr) =>
        executed := true;
        r := SignedXdr(xdr);
    }

    method GetSigned(now: int) returns (r: Outcome)
      ensures r == OutcomeOf(Fixed(), Now(), GetSignedXdr(now))
    {
      var error := AssertActive(now);
      if error.Some? {
        return Threw(error.value);
      }
      if !completed {
        return Threw(NotReached);
      }
      match applySignatures(txXdr, signatures)
      case None => return Threw(ApplierThrew);
      case Some(xdr) => r := SignedXdr(xdr);
    }

    method GetStatus(now: int) returns (r: Report)
      ensures r == ReportOf(Fixed(), Now(), now)
    {
      var status := if executed then IsExecuted else if rejected then IsRejected else if completed then IsApproved
                    else if now > expiresAt then IsExpired else IsPending;
      var weight := CurrentWeight();
      r := Report(status, weight, policy.threshold, |signatures.keys|, |rejections|);
    }

    method CurrentWeight() returns (total: int)
      ensures total == Weight(Fixed(), Now())
    {
      total := 0;
      var keys := signatures.keys;
      for i := 0 to |keys|
        invariant total == WeightOf(keys[..i], signerWeights)
      {
        assert keys[..i + 1][..i] == keys[..i];
        total := total + if keys[i] in signerWeights then signerWeights[keys[i]] else 0;
      }
      assert keys[..|keys|] == keys;
    }

    method AssertActive(now: int) returns (error: Option<Error>)
      ensures error == if Active(Fixed(), Now(), now) then None else Some(TimedOut(policy.timeoutMs))
    {
      if completed || rejected {
        return None;
      }
      if now > expiresAt {
        return Some(TimedOut(policy.timeoutMs));
      }
      error := None;
    }
  }

  // ---------------------------------------------------------------------------
  // Runs

  function Initial(): State {
    State(Empty(), {}, false, false, false)
  }

  function Run(t: Terms, calls: seq<Call>): State {
    if calls == [] then Initial() else Step(t, Run(t, calls[..|calls| - 1]), calls[|calls| - 1])
  }

  function Before(t: Terms, calls: seq<Call>, i: nat): State
    requires i <= |calls|
  {
    Run(t, calls[..i])
  }

  /** Signers and refusers are disjoint sets of policy signers, and execution needs completion. */
  ghost predicate Inv(t: Terms, s: State) {
    && Valid(s.signatures)
    && (forall k :: k in s.signatures.vals ==> k in t.weights && k !in s.rejections)
    && (forall k :: k in s.rejections ==> k in t.weights)
    && (s.executed ==> s.completed)
  }

  lemma StepInv(t: Terms, s: State, call: Call)
    requires Inv(t, s)
    ensures Inv(t, Step(t, s, call))
  {
    if call.Reject? { RemoveAllValid(s.signatures, {call.signer}); }
  }

  lemma {:induction false} RunInv(t: Terms, calls: seq<Call>)
    ensures Inv(t, Run(t, calls))
  {
    if calls != [] {
      RunInv(t, calls[..|calls| - 1]);
      StepInv(t, Run(t, calls[..|calls| - 1]), calls[|calls| - 1]);
    }
  }

  /** Exactly the listed signers have a weight, the one they are listed with last. */
  lemma {:induction false} WeightsMean(signers: seq<Signer>, k: string)
    ensures k in WeightsOf(signers) <==> exists i :: 0 <= i < |signers| && signers[i].publicKey == k
    ensures forall i :: 0 <= i < |signers| && signers[i].publicKey == k
                        && (forall j :: i < j < |signers| ==> signers[j].publicKey != k) ==>
                          k in WeightsOf(signers) && WeightsOf(signers)[k] == signers[i].weight
  {
    if signers != [] {
      var init, last := signers[..|signers| - 1], signers[|signers| - 1];
      WeightsMean(init, k);
      assert forall i :: 0 <= i < |init| ==> signers[i] == init[i];
      if last.publicKey == k {
        assert signers[|init|].publicKey == k;
      }
    }
  }

  // ---------------------------------------------------------------------------
  // The weight is the sum over the policy's signers who have signed

  function Members(s: seq<string>): set<string> {
    set k | k in s
  }

  function WeightAmong(signers: seq<string>, signed: set<string>, weights: map<string, int>): int {
    if signers == [] then 0
    else
      var last := signers[|signers| - 1];
      WeightAmong(signers[..|signers| - 1], signed, weights) + if last in signed && last in weights then weights[last] else 0
  }

  lemma {:induction false} WeightAmongOneMore(signers: seq<string>, signed: set<string>, k: string, weights: map<string, int>)
    requires Distinct(signers) && k !in signed
    ensures WeightAmong(signers, signed + {k}, weights) ==
            WeightAmong(signers, signed, weights) + if k in signers && k in weights then weights[k] else 0
  {
    if signers != [] {
      var init, last := signers[..|signers| - 1], signers[|signers| - 1];
      assert signers == init + [last];
      WeightAmongOneMore(init, signed, k, weights);
      assert last !in init;
    }
  }

  lemma {:induction false} NoWeight(signers: seq<string>, weights: map<string, int>)
    ensures WeightAmong(signers, {}, weights) == 0
  {
    if signers != [] { NoWeight(signers[..|signers| - 1], weights); }
  }

  /** However the signatures arrived, their weight is the sum over any list of all signers, each
      counted once if it has signed. */
  lemma {:induction false} WeightIsSum(keys: seq<string>, signers: seq<string>, weights: map<string, int>)
    requires Distinct(keys) && Distinct(signers)
    requires forall k :: k in keys ==> k in signers
    ensures WeightOf(keys, weights) == WeightAmong(signers, Members(keys), weights)
  {
    if keys == [] {
      NoWeight(signers, weights);
      assert Members(keys) == {};
    } else {
      var init, last := keys[..|keys| - 1], keys[|keys| - 1];
      assert keys == init + [last];
      WeightIsSum(init, signers, weights);
      assert last !in init && last in keys;
      WeightAmongOneMore(signers, Members(init), last, weights);
      assert Members(keys) == Members(init) + {last};
    }
  }

  /** MAIN RESULT. In every run the reported weight is that sum. */
  lemma WeightOfRun(t: Terms, calls: seq<Call>, signers: seq<string>)
    requires Distinct(signers) && forall k :: k in t.weights ==> k in signers
    ensures Weight(t, Run(t, calls)) == WeightAmong(signers, Members(Run(t, calls).signatures.keys), t.weights)
  {
    RunInv(t, calls);
    WeightIsSum(Run(t, calls).signatures.keys, signers, t.weights);
  }

  // ---------------------------------------------------------------------------
  // Every signer's last admitted decision counts

  datatype Decision = Undecided | Signed(signature: string) | Refused

  function DecisionOf(t: Terms, calls: seq<Call>, k: string): Decision {
    if calls == [] then Undecided
    else
      var init, last := calls[..|calls| - 1], calls[|calls| - 1];
      if !Admitted(t, Run(t, init), last) then DecisionOf(t, init, k)
      else
        match last
        case Submit(_, signer, signature) => if signer == k then Signed(signature) else DecisionOf(t, init, k)
        case Reject(_, signer) => if signer == k then Refused else DecisionOf(t, init, k)
        case Execute(_) => DecisionOf(t, init, k)
        case GetSignedXdr(_) => DecisionOf(t, init, k)
  }

  /** MAIN RESULT. A signer's signature is held exactly if its last admitted decision was to sign,
      and it is that signature; its refusal is held exactly if that decision was to refuse. */
  lemma {:induction false} LastDecisionCounts(t: Terms, calls: seq<Call>, k: string)
    ensures var s := Run(t, calls);
            match DecisionOf(t, calls, k)
            case Undecided => k !in s.signatures.vals && k !in s.rejections
            case Signed(signature) => k in s.signatures.vals && s.signatures.vals[k] == signature && k !in s.rejections
            case Refused => k !in s.signatures.vals && k in s.rejections
  {
    if calls != [] {
      LastDecisionCounts(t, calls[..|calls| - 1], k);
    }
  }

  // ---------------------------------------------------------------------------
  // Completion

  /** The i-th call is an admitted signature that brings the weight to the threshold. */
  predicate Completes(t: Terms, calls: seq<Call>, i: nat)
    requires i < |calls|
  {
    && calls[i].Submit? && Admitted(t, Before(t, calls, i), calls[i])
    && Weight(t, Before(t, calls, i + 1)) >= t.threshold
  }

  /** MAIN RESULT. A session is complete exactly if some signature brought the weight to the
      threshold; nothing that comes later takes that back. */
  lemma {:induction false} CompletedExactly(t: Terms, calls: seq<Call>)
    ensures Run(t, calls).completed <==> exists i: nat :: i < |calls| && Completes(t, calls, i)
  {
    if calls != [] {
      var init, n := calls[..|calls| - 1], |calls| - 1;
      CompletedExactly(t, init);
      forall i: nat | i < n ensures Completes(t, calls, i) <==> Completes(t, init, i) {
        assert calls[..i] == init[..i] && calls[..i + 1] == init[..i + 1];
      }
      assert calls[..n + 1] == calls;
      assert Before(t, calls, n) == Run(t, init) && Before(t, calls, n + 1) == Run(t, calls);
      if Completes(t, calls, n) {
        assert Run(t, calls).completed;
      }
      if Run(t, calls).completed && !Run(t, init).completed {
        assert Completes(t, calls, n);
      }
    }
  }

  /** How many calls of execute have returned a signed transaction. */
  function Executions(t: Terms, calls: seq<Call>): nat {
    if calls == [] then 0
    else
      var init, last := calls[..|calls| - 1], calls[|calls| - 1];
      Executions(t, init) + if last.Execute? && OutcomeOf(t, Run(t, init), last).SignedXdr? then 1 else 0
  }

  /** MAIN RESULT. Execution happens at most once, and only after completion. */
  lemma {:induction false} ExecutedAtMostOnce(t: Terms, calls: seq<Call>)
    ensures Executions(t, calls) == if Run(t, calls).executed then 1 else 0
    ensures Executions(t, calls) > 0 ==> Run(t, calls).completed
  {
    if calls != [] {
      ExecutedAtMostOnce(t, calls[..|calls| - 1]);
    }
  }

  /** An execute call returns the signed transaction exactly if the session has completed, no
      earlier one did, and the signatures can be applied. A rejection in between does not matter. */
  lemma ExecutesExactly(t: Terms, calls: seq<Call>, now: int)
    ensures OutcomeOf(t, Run(t, calls), Execute(now)).SignedXdr? <==>
            && (exists i: nat :: i < |calls| && Completes(t, calls, i))
            && Executions(t, calls) == 0
            && t.apply(t.txXdr, Run(t, calls).signatures).Some?
  {
    CompletedExactly(t, calls);
    ExecutedAtMostOnce(t, calls);
  }

  /** So a rejected session can still be executed: one signer's signature completes it, another
      signer refuses, and execution goes through with the signature that completed it. */
  lemma RejectedCanExecute(apply: Applier, timeoutMs: nat)
    requires apply("tx", OMap(["a"], map["a" := "s"])) == Some("signed")
    ensures var t := Terms("tx", map["a" := 1, "b" := 1], 1, timeoutMs, timeoutMs, apply);
            var calls := [Submit(0, "a", "s"), Reject(0, "b")];
            && StatusOf(t, Run(t, calls), 0) == IsRejected
            && OutcomeOf(t, Run(t, calls), Execute(0)) == SignedXdr("signed")
  {
    hide Step, WeightOf, Keep;
    var t := Terms("tx", map["a" := 1, "b" := 1], 1, timeoutMs, timeoutMs, apply);
    var first, second := Submit(0, "a", "s"), Reject(0, "b");
    assert [first, second][..1] == [first] && [first][..0] == [];
    assert Run(t, []) == Initial();
    assert Run(t, [first]) == Step(t, Initial(), first);
    OneSigns(t);
    assert Run(t, [first, second]) == Step(t, Run(t, [first]), second);
    OtherRefuses(t, Run(t, [first]));
  }

  lemma OneSigns(t: Terms)
    requires t.weights == map["a" := 1, "b" := 1] && t.threshold == 1 && t.expiresAt >= 0
    ensures Step(t, Initial(), Submit(0, "a", "s")) == State(OMap(["a"], map["a" := "s"]), {}, true, false, false)
  {
    assert WeightOf(["a"], t.weights) == WeightOf([], t.weights) + 1 by { assert ["a"][..0] == []; }
  }

  lemma OtherRefuses(t: Terms, s: State)
    requires s == State(OMap(["a"], map["a" := "s"]), {}, true, false, false) && "b" in t.weights
    ensures Step(t, s, Reject(0, "b")) == s.(rejections := {"b"}, rejected := true)
  {
    KeepNothingGone(["a"], {"b"});
    assert s.signatures.vals - {"b"} == s.signatures.vals;
  }

  // ---------------------------------------------------------------------------
  // Reports

  /** The i-th call is an admitted refusal. */
  predicate Rejects(t: Terms, calls: seq<Call>, i: nat)
    requires i < |calls|
  {
    calls[i].Reject? && Admitted(t, Before(t, calls, i), calls[i])
  }

  lemma {:induction false} RejectedExactly(t: Terms, calls: seq<Call>)
    ensures Run(t, calls).rejected <==> exists i: nat :: i < |calls| && Rejects(t, calls, i)
  {
    if calls != [] {
      var init, n := calls[..|calls| - 1], |calls| - 1;
      RejectedExactly(t, init);
      forall i: nat | i < n ensures Rejects(t, calls, i) <==> Rejects(t, init, i) {
        assert calls[..i] == init[..i];
      }
      assert Before(t, calls, n) == Run(t, init);
      if Run(t, calls).rejected && !Run(t, init).rejected {
        assert Rejects(t, calls, n);
      }
    }
  }

  /** MAIN RESULT. The reported status, told by the calls: executed once an execution succeeded, else
      rejected once a refusal was admitted, else approved once a signature completed the session,
      else expired once the time is over, else pending. */
  lemma StatusExactly(t: Terms, calls: seq<Call>, now: int)
    ensures StatusOf(t, Run(t, calls), now) ==
            if Executions(t, calls) > 0 then IsExecuted
            else if exists i: nat :: i < |calls| && Rejects(t, calls, i) then IsRejected
            else if exists i: nat :: i < |calls| && Completes(t, calls, i) then IsApproved
            else if now > t.expiresAt then IsExpired
            else IsPending
  {
    hide Run, Executions, Rejects, Completes;
    ExecutedAtMostOnce(t, calls);
    RejectedExactly(t, calls);
    CompletedExactly(t, calls);
  }

  /** A call is admitted unless the session has expired, for signing and refusing by a signer only. */
  lemma AdmittedExactly(t: Terms, calls: seq<Call>, call: Call)
    ensures Admitted(t, Run(t, calls), call) <==>
            && StatusOf(t, Run(t, calls), call.now) != IsExpired
            && (call.Submit? || call.Reject? ==> call.signer in t.weights)
  {
    RunInv(t, calls);
  }

  /** The signers whose last admitted decision was to sign, or to refuse. */
  ghost function Deciders(t: Terms, calls: seq<Call>, refused: bool): set<string> {
    set k | k in t.weights && if refused then DecisionOf(t, calls, k).Refused? else DecisionOf(t, calls, k).Signed?
  }

  /** The reported counts are those of the signers who signed and of those who refused. */
  lemma ReportMeans(t: Terms, calls: seq<Call>, now: int)
    ensures var report := ReportOf(t, Run(t, calls), now);
            && report.status == StatusOf(t, Run(t, calls), now) && report.threshold == t.threshold
            && report.weight == Weight(t, Run(t, calls))
            && report.approvals == |Deciders(t, calls, false)|
            && report.rejections == |Deciders(t, calls, true)|
  {
    hide Run, DecisionOf, StatusOf, WeightOf;
    var s := Run(t, calls);
    RunInv(t, calls);
    forall k ensures (k in s.signatures.vals <==> k in Deciders(t, calls, false)) && (k in s.rejections <==> k in Deciders(t, calls, true)) {
      LastDecisionCounts(t, calls, k);
    }
    DistinctSize(s.signatures.keys);
    assert (set k | k in s.signatures.keys) == Deciders(t, calls, false);
    assert s.rejections == Deciders(t, calls, true);
  }

  /** An admitted signature is answered with what the session has come to with it. */
  lemma SubmitAnswers(t: Terms, calls: seq<Call>, call: Call)
    requires call.Submit? && Admitted(t, Run(t, calls), call)
    ensures var all := calls + [call];
            OutcomeOf(t, Run(t, calls), call) ==
            Progress(exists i: nat :: i < |all| && Completes(t, all, i), Weight(t, Run(t, all)))
  {
    var all := calls + [call];
    assert all[..|calls|] == calls;
    CompletedExactly(t, all);
  }

  // ---------------------------------------------------------------------------
  // Expiry

  /** MAIN RESULT. A session that has expired stays as it is: with a clock that does not go back,
      every later call times out and changes nothing. */
  lemma {:induction false} ExpiryIsPermanent(t: Terms, calls: seq<Call>, later: seq<Call>, now: int)
    requires StatusOf(t, Run(t, calls), now) == IsExpired
    requires forall i :: 0 <= i < |later| ==> later[i].now >= now
    ensures Run(t, calls + later) == Run(t, calls)
    ensures forall i :: 0 <= i < |later| ==> OutcomeOf(t, Run(t, calls + later[..i]), later[i]) == Threw(TimedOut(t.timeoutMs))
    ensures forall at :: at >= now ==> StatusOf(t, Run(t, calls + later), at) == IsExpired
  {
    if later == [] {
      assert calls + later == calls;
    } else {
      var init, n := later[..|later| - 1], |later| - 1;
      assert (calls + later)[..|calls + later| - 1] == calls + init;
      ExpiryIsPermanent(t, calls, init, now);
      forall i | 0 <= i < |later| ensures OutcomeOf(t, Run(t, calls + later[..i]), later[i]) == Threw(TimedOut(t.timeoutMs)) {
        if i < n { assert init[..i] == later[..i] && init[i] == later[i]; } else { assert later[..i] == init; }
      }
    }
  }

  /** The other way round: until it expires, and once it is complete or rejected, no call times out. */
  lemma NeverTimesOutOtherwise(t: Terms, calls: seq<Call>, call: Call)
    ensures OutcomeOf(t, Run(t, calls), call) == Threw(TimedOut(t.timeoutMs)) <==>
            StatusOf(t, Run(t, calls), call.now) == IsExpired
  {
    RunInv(t, calls);
  }

  /** An executed session is reported as executed for good. */
  lemma {:induction false} ExecutedForGood(t: Terms, calls: seq<Call>, later: seq<Call>, now: int)
    requires Run(t, calls).executed
    ensures StatusOf(t, Run(t, calls + later), now) == IsExecuted
  {
    if later == [] {
      assert calls + later == calls;
    } else {
      assert (calls + later)[..|calls + later| - 1] == calls + later[..|later| - 1];
      ExecutedForGood(t, calls, later[..|later| - 1], now);
    }
  }
}
