/** The custody withdrawal workflow without access checks: a request collects approvals until there
    are enough, or is rejected; an approved request is executed. */
module WithdrawalWorkflow {
  import opened Basics
  import opened OrderedMap

  datatype Status = Pending | Approved | Rejected | Executed

  datatype Record = Record(
    id: string, resourceId: string, requester: string, amount: string, status: Status,
    approvals: seq<string>, rejections: seq<string>, createdAt: int, updatedAt: int)

  datatype Error =
    | AlreadyExists(id: string)
    | NotFound(id: string)
    | WrongStatus(status: Status)
    | OwnRequest
    | AlreadyApproved(approver: string)
    | AlreadyRejected(rejector: string)

  datatype Call =
    | Submit(id: string, resourceId: string, requester: string, amount: string, now: int)
    | Approve(id: string, approver: string, now: int)
    | Reject(id: string, rejector: string, now: int)
    | Execute(id: string, executor: string, now: int)

  type State = map<string, Record>

  /** The error a call throws, checks in the order of the code. */
  function ErrorOf(s: State, call: Call): Option<Error> {
    if call.Submit? then
      if call.id in s then Some(AlreadyExists(call.id)) else None
    else if call.id !in s then
      Some(NotFound(call.id))
    else
      var r := s[call.id];
      match call
      case Approve(_, approver, _) =>
        if !r.status.Pending? then Some(WrongStatus(r.status))
        else if approver == r.requester then Some(OwnRequest)
        else if approver in r.approvals then Some(AlreadyApproved(approver))
        else None
      case Reject(_, rejector, _) =>
        if !r.status.Pending? then Some(WrongStatus(r.status))
        else if rejector in r.rejections then Some(AlreadyRejected(rejector))
        else None
      case Execute(_, _, _) =>
        if !r.status.Approved? then Some(WrongStatus(r.status)) else None
  }

  function Step(required: int, s: State, call: Call): State {
    if ErrorOf(s, call) != None then s
    else
      match call
      case Submit(id, resourceId, requester, amount, now) =>
        s[id := Record(id, resourceId, requester, amount, Pending, [], [], now, now)]
      case Approve(id, approver, now) =>
        var r := s[id];
        s[id := r.(approvals := r.approvals + [approver], updatedAt := now,
                   status := if |r.approvals| + 1 >= required then Approved else Pending)]
      case Reject(id, rejector, now) =>
        var r := s[id];
        s[id := r.(rejections := r.rejections + [rejector], status := Rejected, updatedAt := now)]
      case Execute(id, _, now) =>
        s[id := s[id].(status := Executed, updatedAt := now)]
  }

  // ---------------------------------------------------------------------------
  // Requests are records changed in place

  class WithdrawalRequest {
    const id: string
    const resourceId: string
    const requester: string
    const amount: string
    const createdAt: int
    var status: Status
    var approvals: seq<string>
    var rejections: seq<string>
    var updatedAt: int

    constructor (id: string, resourceId: string, requester: string, amount: string, now: int)
      ensures Contents() == Record(id, resourceId, requester, amount, Pending, [], [], now, now)
    {
      this.id, this.resourceId, this.requester, this.amount, createdAt := id, resourceId, requester, amount, now;
      status, approvals, rejections, updatedAt := Pending, [], [], now;
    }

    ghost function Contents(): Record
      reads this
    {
      Record(id, resourceId, requester, amount, status, approvals, rejections, createdAt, updatedAt)
    }
  }

  predicate Unaliased(m: map<string, WithdrawalRequest>) {
    forall j, k :: j in m && k in m && j != k ==> m[j] != m[k]
  }

  ghost function ContentsOf(m: map<string, WithdrawalRequest>): State
    reads set k | k in m :: m[k]
  {
    map k | k in m :: m[k].Contents()
  }

  class Workflow {
    const requiredApprovals: int
    var requests: map<string, WithdrawalRequest>

    ghost predicate Valid()
      reads this
    {
      requiredApprovals >= 1 && Unaliased(requests)
    }

    ghost function Entries(): set<WithdrawalRequest>
      reads this
    {
      set k | k in requests :: requests[k]
    }

    ghost function Now(): State
      reads this, Entries()
    {
      ContentsOf(requests)
    }

    constructor (requiredApprovals: int)
      requires requiredApprovals >= 1
      ensures Valid() && Now() == map[] && this.requiredApprovals == requiredApprovals
    {
      this.requiredApprovals := requiredApprovals;
      requests := map[];
    }

    method SubmitRequest(id: string, resourceId: string, requester: string, amount: string, now: int)
      returns (request: WithdrawalRequest?, error: Option<Error>)
      requires Valid()
      modifies this
      ensures Valid()
      ensures error == ErrorOf(old(Now()), Submit(id, resourceId, requester, amount, now))
      ensures Now() == Step(requiredApprovals, old(Now()), Submit(id, resourceId, requester, amount, now))
      ensures if error == None then fresh(request) && id in requests && requests[id] == request else request == null
    {
      if id in requests {
        return null, Some(AlreadyExists(id));
      }
      request := new WithdrawalRequest(id, resourceId, requester, amount, now);
      requests := requests[id := request];
      error := None;
    }

    method ApproveRequest(id: string, approver: string, now: int) returns (request: WithdrawalRequest?, error: Option<Error>)
      requires Valid()
      modifies Entries()
      ensures Valid()
      ensures error == ErrorOf(old(Now()), Approve(id, approver, now))
      ensures Now() == Step(requiredApprovals, old(Now()), Approve(id, approver, now))
      ensures if error == None then id in requests && requests[id] == request else request == null
    {
      if id !in requests {
        return null, Some(NotFound(id));
      }
      var found := requests[id];
      if found.status != Pending {
        return null, Some(WrongStatus(found.status));
      }
      if approver == found.requester {
        return null, Some(OwnRequest);
      }
      if approver in found.approvals {
        return null, Some(AlreadyApproved(approver));
      }
      found.approvals := found.approvals + [approver];
      found.updatedAt := now;
      if |found.approvals| >= requiredApprovals {
        found.status := Approved;
      }
      return found, None;
    }

    method RejectRequest(id: string, rejector: string, now: int) returns (request: WithdrawalRequest?, error: Option<Error>)
      requires Valid()
      modifies Entries()
      ensures Valid()
      ensures error == ErrorOf(old(Now()), Reject(id, rejector, now))
      ensures Now() == Step(requiredApprovals, old(Now()), Reject(id, rejector, now))
      ensures if error == None then id in requests && requests[id] == request else request == null
    {
      if id !in requests {
        return null, Some(NotFound(id));
      }
      var found := requests[id];
      if found.status != Pending {
        return null, Some(WrongStatus(found.status));
      }
      if rejector in found.rejections {
        return null, Some(AlreadyRejected(rejector));
      }
      found.rejections := found.rejections + [rejector];
      found.status := Rejected;
      found.updatedAt := now;
      return found, None;
    }

    method ExecuteRequest(id: string, executor: string, now: int) returns (request: WithdrawalRequest?, error: Option<Error>)
      requires Valid()
      modifies Entries()
      ensures Valid()
      ensures error == ErrorOf(old(Now()), Execute(id, executor, now))
      ensures Now() == Step(requiredApprovals, old(Now()), Execute(id, executor, now))
      ensures if error == None then id in requests && requests[id] == request else request == null
    {
      if id !in requests {
        return null, Some(NotFound(id));
      }
      var found := requests[id];
      if found.status != Approved {
        return null, Some(WrongStatus(found.status));
      }
      found.status := Executed;
      found.updatedAt := now;
      return found, None;
    }
  }

  datatype Created = Workflows(workflow: Workflow) | Invalid

  /** One approval is required unless the caller asks for more; asking for none is an error. */
  method Create(requiredApprovals: Option<int>) returns (r: Created)
    ensures r.Invalid? <==> requiredApprovals.Some? && requiredApprovals.value < 1
    ensures r.Workflows? ==>
              && fresh(r.workflow) && r.workflow.Valid() && r.workflow.Now() == map[]
              && r.workflow.requiredApprovals == match requiredApprovals case Some(n) => n case None => 1
  {
    var required := match requiredApprovals case Some(n) => n case None => 1;
    if required < 1 {
      return Invalid;
    }
    var workflow := new Workflow(required);
    r := Workflows(workflow);
  }

  // ---------------------------------------------------------------------------
  // Runs

  function Run(required: int, calls: seq<Call>): State {
    if calls == [] then map[] else Step(required, Run(required, calls[..|calls| - 1]), calls[|calls| - 1])
  }

  predicate Good(required: int, r: Record) {
    && Distinct(r.approvals) && r.requester !in r.approvals
    && match r.status
       case Pending => |r.approvals| < required && r.rejections == []
       case Approved => |r.approvals| == required && r.rejections == []
       case Executed => |r.approvals| == required && r.rejections == []
       case Rejected => |r.approvals| < required && |r.rejections| == 1
  }

  lemma StepGood(required: int, s: State, call: Call)
    requires required >= 1
    requires forall id :: id in s ==> Good(required, s[id]) && s[id].id == id
    ensures forall id :: id in Step(required, s, call) ==>
              Good(required, Step(required, s, call)[id]) && Step(required, s, call)[id].id == id
  {
  }

  /** MAIN RESULT. In every run, approvals are distinct and without the requester; a pending request
      has fewer than required, an approved or executed one exactly as many, a rejected one fewer. */
  lemma {:induction false} RunGood(required: int, calls: seq<Call>)
    requires required >= 1
    ensures forall id :: id in Run(required, calls) ==>
              Good(required, Run(required, calls)[id]) && Run(required, calls)[id].id == id
  {
    if calls != [] {
      RunGood(required, calls[..|calls| - 1]);
      StepGood(required, Run(required, calls[..|calls| - 1]), calls[|calls| - 1]);
    }
  }

  /** The accepted calls about one request, in order. */
  function History(required: int, calls: seq<Call>, id: string): seq<Call> {
    if calls == [] then []
    else
      var init, last := calls[..|calls| - 1], calls[|calls| - 1];
      History(required, init, id) +
      if last.id == id && ErrorOf(Run(required, init), last) == None then [last] else []
  }

  function Approvers(history: seq<Call>): seq<string> {
    if history == [] then []
    else
      var last := history[|history| - 1];
      Approvers(history[..|history| - 1]) + if last.Approve? then [last.approver] else []
  }

  /** How the accepted calls about a request of each status look: it is submitted once, then
      approved by the listed approvers, and the call that settles it comes last. */
  predicate Tells(required: int, history: seq<Call>, r: Record) {
    && history != [] && history[0].Submit?
    && history[0].requester == r.requester && history[0].resourceId == r.resourceId
    && history[0].amount == r.amount && history[0].now == r.createdAt
    && history[|history| - 1].now == r.updatedAt
    && Approvers(history) == r.approvals
    && (forall i :: 0 < i < |history| - 1 ==> history[i].Approve?)
    && match r.status
       case Pending => |history| == 1 + |r.approvals| && (|history| > 1 ==> history[|history| - 1].Approve?)
       case Approved => |history| == 1 + required && history[|history| - 1].Approve?
       case Executed => |history| == 2 + required && history[|history| - 1].Execute?
       case Rejected =>
         && |history| == 2 + |r.approvals| && history[|history| - 1].Reject?
         && r.rejections == [history[|history| - 1].rejector]
  }

  lemma ApproversAppend(history: seq<Call>, call: Call)
    ensures Approvers(history + [call]) == Approvers(history) + if call.Approve? then [call.approver] else []
  {
    assert (history + [call])[..|history|] == history;
  }

  lemma StepTells(required: int, history: seq<Call>, s: State, call: Call)
    requires required >= 1 && call.id in s && ErrorOf(s, call) == None
    requires Good(required, s[call.id]) && Tells(required, history, s[call.id])
    ensures Tells(required, history + [call], Step(required, s, call)[call.id])
  {
    ApproversAppend(history, call);
  }

  /** MAIN RESULT. Every request is what its accepted calls make it: an executed one was submitted,
      approved by exactly the required number of different people other than the requester, then
      executed once, and never rejected; a rejected one was rejected once, and never executed. */
  lemma {:induction false} RunTells(required: int, calls: seq<Call>, id: string)
    requires required >= 1
    ensures id in Run(required, calls) <==> History(required, calls, id) != []
    ensures id in Run(required, calls) ==> Tells(required, History(required, calls, id), Run(required, calls)[id])
  {
    if calls != [] {
      var init, last := calls[..|calls| - 1], calls[|calls| - 1];
      RunTells(required, init, id);
      RunGood(required, init);
      var s, history := Run(required, init), History(required, init, id);
      if last.id == id && ErrorOf(s, last) == None {
        if last.Submit? {
          assert History(required, calls, id) == [last];
          assert Approvers([last]) == [] by { ApproversAppend([], last); assert [] + [last] == [last]; }
        } else {
          StepTells(required, history, s, last);
        }
      } else {
        assert History(required, calls, id) == history;
        assert id in Run(required, calls) <==> id in s;
        assert id in s ==> Run(required, calls)[id] == s[id];
      }
    }
  }

  /** Whether a call, once accepted, settles its request for good. */
  predicate Settles(call: Call) {
    call.Reject? || call.Execute?
  }

  ghost predicate Settled(history: seq<Call>) {
    exists i :: 0 <= i < |history| && Settles(history[i])
  }

  /** The status is told by the accepted calls. */
  lemma StatusOfHistory(required: int, calls: seq<Call>, id: string)
    requires required >= 1 && id in Run(required, calls)
    ensures var history, r := History(required, calls, id), Run(required, calls)[id];
            && history != [] && history[0].Submit? && r.requester == history[0].requester
            && r.approvals == Approvers(history)
            && (r.status.Pending? <==> !Settled(history) && |Approvers(history)| < required)
            && (r.status.Approved? <==> !Settled(history) && |Approvers(history)| == required)
  {
    hide Good, Tells, Run, History;
    RunTells(required, calls, id);
    RunGood(required, calls);
    TellsStatus(required, History(required, calls, id), Run(required, calls)[id]);
  }

  lemma TellsStatus(required: int, history: seq<Call>, r: Record)
    requires Tells(required, history, r) && Good(required, r)
    ensures history != [] && history[0].Submit? && r.requester == history[0].requester
    ensures r.approvals == Approvers(history)
    ensures r.status.Pending? <==> !Settled(history) && |Approvers(history)| < required
    ensures r.status.Approved? <==> !Settled(history) && |Approvers(history)| == required
  {
    hide Approvers, Distinct;
    if r.status.Rejected? || r.status.Executed? {
      assert Settles(history[|history| - 1]);
    }
  }

  /** MAIN RESULT. What submitting, approving and rejecting come to, told by the accepted calls
      about the request: an id can be submitted once; a submitted request that is not settled and
      lacks approvals takes one from anybody but its requester and those who gave theirs, and a
      rejection from anybody. */
  lemma AcceptedExactly(required: int, calls: seq<Call>, call: Call)
    requires required >= 1 && !call.Execute?
    ensures var history := History(required, calls, call.id);
            var error := ErrorOf(Run(required, calls), call);
            if call.Submit? then error == if history == [] then None else Some(AlreadyExists(call.id))
            else if history == [] then error == Some(NotFound(call.id))
            else if Settled(history) || |Approvers(history)| >= required then error.Some? && error.value.WrongStatus?
            else if call.Reject? then error == None
            else
              && history[0].Submit?
              && error == if call.approver == history[0].requester then Some(OwnRequest)
                          else if call.approver in Approvers(history) then Some(AlreadyApproved(call.approver))
                          else None
  {
    hide Good, Tells, Run, History;
    RunTells(required, calls, call.id);
    if call.id in Run(required, calls) {
      StatusOfHistory(required, calls, call.id);
      PendingUnrejected(required, calls, call.id);
    }
  }

  lemma PendingUnrejected(required: int, calls: seq<Call>, id: string)
    requires required >= 1 && id in Run(required, calls)
    ensures Run(required, calls)[id].status.Pending? ==> Run(required, calls)[id].rejections == []
    ensures |Run(required, calls)[id].approvals| <= required
  {
    RunGood(required, calls);
  }

  /** So once rejected or executed, a request never changes again, whatever is called. */
  lemma {:induction false} SettledForGood(required: int, calls: seq<Call>, later: seq<Call>, id: string)
    requires id in Run(required, calls)
    requires Run(required, calls)[id].status == Rejected || Run(required, calls)[id].status == Executed
    ensures id in Run(required, calls + later) && Run(required, calls + later)[id] == Run(required, calls)[id]
  {
    if later == [] {
      assert calls + later == calls;
    } else {
      assert (calls + later)[..|calls + later| - 1] == calls + later[..|later| - 1];
      SettledForGood(required, calls, later[..|later| - 1], id);
    }
  }

  /** An execute call goes through exactly if so many approvals as required were accepted and
      neither a rejection nor an execution was. */
  lemma ExecutesExactly(required: int, calls: seq<Call>, id: string, executor: string, now: int)
    requires required >= 1
    ensures ErrorOf(Run(required, calls), Execute(id, executor, now)) == None <==>
            && |Approvers(History(required, calls, id))| == required
            && forall i :: 0 <= i < |History(required, calls, id)| ==> !Settles(History(required, calls, id)[i])
  {
    RunTells(required, calls, id);
    RunGood(required, calls);
    var history := History(required, calls, id);
    if id in Run(required, calls) {
      var r := Run(required, calls)[id];
      assert r.status.Rejected? || r.status.Executed? ==> Settles(history[|history| - 1]);
    }
  }
}
