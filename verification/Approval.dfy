/**
  The approval lifecycle of generated test cases
  (backend/app/modules/agents/service.py and tools.py,
  backend/app/modules/testcases/service.py): generation, editing, review, restart and
  enqueueing, one committed transaction at a time.
 */
module Approval {
  import opened Wrappers
  import opened Json
  import opened Assertions

  datatype CaseStatus = Draft | PendingReview | Approved | Disabled

  datatype AgentStatus = Generating | InReview | AgentApproved | AgentDisabled | AgentFailed

  /** Where the call that generates a run's cases stands. */
  datatype Phase = BeforePersist | AfterPersist | Over

  datatype Content = Content(name: string, template: Fields, assertions: seq<Assertion>)

  type AgentId = nat
  type TestId = nat

  datatype Agent = Agent(status: AgentStatus, phase: Phase)

  datatype TestCase = TestCase(agent: AgentId, status: CaseStatus, version: nat, content: Content)

  /** What an execution step keeps of its case when it is enqueued. */
  datatype Snapshot = Snapshot(id: TestId, version: nat, content: Content)

  /** An edit leaves out the parts it does not change. */
  datatype Edit = Edit(name: Option<string>, template: Option<Fields>, assertions: Option<seq<Assertion>>)

  datatype State = State(agents: map<AgentId, Agent>, cases: map<TestId, TestCase>, next: TestId, queued: seq<Snapshot>)

  datatype Refusal =
    | AgentNotFound | ReviewNotAvailable | NoCases | CaseStateInvalid
    | CaseNotFound | EditNotAvailable | CaseDuplicated | CaseNotApproved

  /** How far saving the drafts got before an error that is then recorded and committed. */
  datatype Progress = NothingSaved | DraftsSaved | DraftsMarked | AllDone

  // ---------------------------------------------------------- committed transitions

  function NewCases(next: TestId, agent: AgentId, drafts: seq<Content>): (new_: map<TestId, TestCase>)
    ensures forall c :: c in new_ <==> next <= c < next + |drafts|
    ensures forall c :: c in new_ ==> new_[c] == TestCase(agent, Draft, 1, drafts[c - next])
  {
    if drafts == [] then map[]
    else
      var n := |drafts| - 1;
      NewCases(next, agent, drafts[..n])[next + n := TestCase(agent, Draft, 1, drafts[n])]
  }

  /** `mark_drafts_pending_review`: every draft of the run becomes pending. */
  function MarkPending(cases: map<TestId, TestCase>, agent: AgentId): map<TestId, TestCase> {
    map c | c in cases ::
      if cases[c].agent == agent && cases[c].status == Draft then cases[c].(status := PendingReview) else cases[c]
  }

  /**
    `persist_drafts` and what its failure commits: the error handler commits whatever
    was flushed before the error, together with the failed status.
   */
  function Persisted(s: State, agent: AgentId, drafts: seq<Content>, progress: Progress): State
    requires agent in s.agents
  {
    var saved := s.cases + NewCases(s.next, agent, drafts);
    match progress
    case NothingSaved => s.(agents := s.agents[agent := Agent(AgentFailed, Over)])
    case DraftsSaved =>
      s.(agents := s.agents[agent := Agent(AgentFailed, Over)], cases := saved, next := s.next + |drafts|)
    case DraftsMarked =>
      s.(agents := s.agents[agent := Agent(AgentFailed, Over)], cases := MarkPending(saved, agent), next := s.next + |drafts|)
    case AllDone =>
      s.(agents := s.agents[agent := Agent(InReview, AfterPersist)], cases := MarkPending(saved, agent), next := s.next + |drafts|)
  }

  function CasesOf(cases: map<TestId, TestCase>, agent: AgentId): set<TestId> {
    set c | c in cases && cases[c].agent == agent
  }

  function Reviewed(c: TestCase, approve: bool): TestCase {
    c.(status := if approve then Approved else Disabled, version := c.version + 1)
  }

  /** `review_agent_run`: why it refuses, if it does. */
  function ReviewRefusal(s: State, agent: AgentId): Option<Refusal> {
    if agent !in s.agents then Some(AgentNotFound)
    else if s.agents[agent].status != InReview then Some(ReviewNotAvailable)
    else if CasesOf(s.cases, agent) == {} then Some(NoCases)
    else if exists c :: c in CasesOf(s.cases, agent) && s.cases[c].status != PendingReview then Some(CaseStateInvalid)
    else None
  }

  function ReviewedState(s: State, agent: AgentId, approve: bool): State
    requires agent in s.agents
  {
    s.(agents := s.agents[agent := s.agents[agent].(status := if approve then AgentApproved else AgentDisabled)],
       cases := map c | c in s.cases ::
         if s.cases[c].agent == agent then Reviewed(s.cases[c], approve) else s.cases[c])
  }

  function Edited(c: TestCase, edit: Edit): TestCase {
    c.(version := c.version + 1,
       content := Content(
         if edit.name.Some? then edit.name.value else c.content.name,
         if edit.template.Some? then edit.template.value else c.content.template,
         if edit.assertions.Some? then edit.assertions.value else c.content.assertions))
  }

  /** `update_test_case`: its guard. */
  function EditRefusal(s: State, id: TestId): Option<Refusal> {
    if id !in s.cases then Some(CaseNotFound)
    else if s.cases[id].status !in {Draft, PendingReview} then Some(EditNotAvailable)
    else None
  }

  function Interrupted(agents: map<AgentId, Agent>): set<AgentId> {
    set a | a in agents && agents[a].status == Generating
  }

  /**
    `fail_interrupted_agent_runs` at the start of a process, after the end of the processes
    that made some of the generating calls: those calls are over.
   */
  function Restarted(agents: map<AgentId, Agent>, ended: set<AgentId>): map<AgentId, Agent> {
    map a | a in agents ::
      Agent(if agents[a].status == Generating then AgentFailed else agents[a].status,
            if a in ended then Over else agents[a].phase)
  }

  /** What both ways of starting a run ask of its cases. */
  function CasesRefusal(s: State, ids: seq<TestId>): Option<Refusal> {
    if exists i :: 0 <= i < |ids| && ids[i] !in s.cases then Some(CaseNotFound)
    else if exists i :: 0 <= i < |ids| && s.cases[ids[i]].status != Approved then Some(CaseNotApproved)
    else None
  }

  /** `create_execution_run`: its case checks. */
  function EnqueueRefusal(s: State, ids: seq<TestId>): Option<Refusal> {
    if exists i, j :: 0 <= i < j < |ids| && ids[i] == ids[j] then Some(CaseDuplicated) else CasesRefusal(s, ids)
  }

  /** `create_suite_execution_run`: its case checks; a flow may run a case in several steps. */
  function FlowRefusal(s: State, ids: seq<TestId>): Option<Refusal> {
    if CasesRefusal(s, ids).Some? then Some(CaseNotApproved) else None
  }

  function Snapshots(s: State, ids: seq<TestId>): seq<Snapshot>
    requires forall i :: 0 <= i < |ids| ==> ids[i] in s.cases
  {
    seq(|ids|, i requires 0 <= i < |ids| => Snapshot(ids[i], s.cases[ids[i]].version, s.cases[ids[i]].content))
  }

  datatype Operation =
    | Create(agent: AgentId)
    | Persist(agent: AgentId, drafts: seq<Content>, progress: Progress)
    | GenerationFails(agent: AgentId)
    | Conclude(agent: AgentId, clean: bool)
    | Review(agent: AgentId, approve: bool)
    | Update(id: TestId, edit: Edit)
    | Restart(ended: set<AgentId>)
    | Enqueue(ids: seq<TestId>)
    | EnqueueFlow(ids: seq<TestId>)

  const EMPTY := State(map[], map[], 0, [])

  /** One committed operation; a refused one changes nothing. */
  function Apply(s: State, op: Operation): State {
    match op
    case Create(agent) =>
      if agent in s.agents then s else s.(agents := s.agents[agent := Agent(Generating, BeforePersist)])
    case Persist(agent, drafts, progress) =>
      if agent in s.agents && s.agents[agent].phase == BeforePersist && drafts != []
      then Persisted(s, agent, drafts, progress) else s
    case GenerationFails(agent) =>
      if agent in s.agents && s.agents[agent].phase == BeforePersist
      then s.(agents := s.agents[agent := Agent(AgentFailed, Over)]) else s
    case Conclude(agent, clean) =>
      // The generating call re-reads its run; anything but the review status is a failure.
      if agent in s.agents && s.agents[agent].phase == AfterPersist then
        var a := s.agents[agent];
        s.(agents := s.agents[agent := if clean && a.status == InReview then a.(phase := Over) else Agent(AgentFailed, Over)])
      else s
    case Review(agent, approve) => if ReviewRefusal(s, agent).None? then ReviewedState(s, agent, approve) else s
    case Update(id, edit) => if EditRefusal(s, id).None? then s.(cases := s.cases[id := Edited(s.cases[id], edit)]) else s
    case Restart(ended) => s.(agents := Restarted(s.agents, ended))
    case Enqueue(ids) => if EnqueueRefusal(s, ids).None? then s.(queued := s.queued + Snapshots(s, ids)) else s
    case EnqueueFlow(ids) => if FlowRefusal(s, ids).None? then s.(queued := s.queued + Snapshots(s, ids)) else s
  }

  function After(operations: seq<Operation>): State {
    if operations == [] then EMPTY
    else Apply(After(operations[..|operations| - 1]), operations[|operations| - 1])
  }

  // ---------------------------------------------------------------- the invariant

  /** Which case statuses go with a run's status. */
  ghost predicate Matches(a: Agent, status: CaseStatus) {
    match a.status
    case Generating => false
    case InReview => status == PendingReview
    case AgentApproved => status == Approved
    case AgentDisabled => status == Disabled
    case AgentFailed => a.phase != BeforePersist
  }

  predicate StatusFitsPhase(a: Agent) {
    && (a.phase == BeforePersist ==> a.status in {Generating, AgentFailed})
    && (a.status == Generating ==> a.phase == BeforePersist)
  }

  /**
    One run and its cases: they share a status that matches the run's, and a run that
    is or was reviewed has at least one.
   */
  ghost predicate RunInv(a: Agent, cases: map<TestId, TestCase>, agent: AgentId) {
    && StatusFitsPhase(a)
    && (forall c :: c in CasesOf(cases, agent) ==> Matches(a, cases[c].status))
    && (forall c, d :: c in CasesOf(cases, agent) && d in CasesOf(cases, agent) ==> cases[c].status == cases[d].status)
    && (a.status in {InReview, AgentApproved, AgentDisabled} ==> CasesOf(cases, agent) != {})
  }

  ghost predicate Inv(s: State) {
    && (forall c :: c in s.cases ==> c < s.next && s.cases[c].agent in s.agents)
    && (forall a :: a in s.agents ==> RunInv(s.agents[a], s.cases, a))
  }

  /** A run whose cases were not touched keeps its part of the invariant. */
  lemma RunUntouched(a: Agent, cases: map<TestId, TestCase>, next: map<TestId, TestCase>, agent: AgentId)
    requires RunInv(a, cases, agent)
    requires CasesOf(next, agent) == CasesOf(cases, agent)
    requires forall c :: c in CasesOf(cases, agent) ==> next[c].status == cases[c].status
    ensures RunInv(a, next, agent)
  {
  }

  /** All cases of a run taking one status that matches the run's new status is fine. */
  lemma RunRewritten(a: Agent, next: map<TestId, TestCase>, agent: AgentId, status: CaseStatus)
    requires StatusFitsPhase(a) && Matches(a, status)
    requires forall c :: c in CasesOf(next, agent) ==> next[c].status == status
    requires CasesOf(next, agent) != {}
    ensures RunInv(a, next, agent)
  {
  }

  lemma NoCasesYet(s: State, agent: AgentId)
    requires Inv(s) && agent in s.agents && s.agents[agent].phase == BeforePersist
    ensures CasesOf(s.cases, agent) == {}
  {
    assert RunInv(s.agents[agent], s.cases, agent);
    assert forall status :: !Matches(s.agents[agent], status);
    assert forall c :: c !in CasesOf(s.cases, agent);
  }

  /** The saved cases of a run that had none are its drafts, pending once marked. */
  lemma SavedCases(cases: map<TestId, TestCase>, next: TestId, agent: AgentId, drafts: seq<Content>)
    requires CasesOf(cases, agent) == {} && forall c :: c in cases ==> c < next
    ensures var saved := cases + NewCases(next, agent, drafts);
            && (forall c :: c in CasesOf(saved, agent) ==> saved[c].status == Draft)
            && CasesOf(MarkPending(saved, agent), agent) == CasesOf(saved, agent)
            && (forall c :: c in CasesOf(saved, agent) ==> MarkPending(saved, agent)[c].status == PendingReview)
            && (forall c :: c in cases ==> saved[c] == cases[c] && MarkPending(saved, agent)[c] == cases[c])
            && (drafts != [] ==> next in CasesOf(saved, agent))
  {
    var saved := cases + NewCases(next, agent, drafts);
    forall c | c in CasesOf(saved, agent) ensures saved[c].status == Draft {
      assert c !in CasesOf(cases, agent);
    }
    forall c | c in cases ensures MarkPending(saved, agent)[c] == cases[c] {
      assert c !in CasesOf(cases, agent);
    }
  }

  lemma SavedElsewhere(cases: map<TestId, TestCase>, next: TestId, agent: AgentId, drafts: seq<Content>, a: AgentId)
    requires a != agent && forall c :: c in cases ==> c < next
    ensures var saved := cases + NewCases(next, agent, drafts);
            CasesOf(saved, a) == CasesOf(cases, a) && CasesOf(MarkPending(saved, agent), a) == CasesOf(cases, a)
  {
    var saved := cases + NewCases(next, agent, drafts);
    assert forall c :: c in saved && saved[c].agent == a ==> c in cases;
  }

  lemma {:induction false} InvPersist(s: State, agent: AgentId, drafts: seq<Content>, progress: Progress)
    requires Inv(s) && agent in s.agents && s.agents[agent].phase == BeforePersist && drafts != []
    ensures Inv(Persisted(s, agent, drafts, progress))
  {
    hide RunInv, NewCases;
    var next := Persisted(s, agent, drafts, progress);
    NoCasesYet(s, agent);
    SavedCases(s.cases, s.next, agent, drafts);
    forall a | a in s.agents && a != agent ensures RunInv(next.agents[a], next.cases, a) {
      SavedElsewhere(s.cases, s.next, agent, drafts, a);
      RunUntouched(s.agents[a], s.cases, next.cases, a);
    }
    if progress == NothingSaved {
      FailedEmpty(next.cases, agent);
    } else {
      hide CasesOf;
      RunRewritten(next.agents[agent], next.cases, agent, if progress == DraftsSaved then Draft else PendingReview);
    }
  }

  lemma FailedEmpty(cases: map<TestId, TestCase>, agent: AgentId)
    requires CasesOf(cases, agent) == {}
    ensures RunInv(Agent(AgentFailed, Over), cases, agent)
  {
  }

  lemma {:induction false} InvReview(s: State, agent: AgentId, approve: bool)
    requires Inv(s) && ReviewRefusal(s, agent).None?
    ensures Inv(ReviewedState(s, agent, approve))
  {
    hide RunInv;
    var next := ReviewedState(s, agent, approve);
    assert forall a :: CasesOf(next.cases, a) == CasesOf(s.cases, a);
    forall a | a in s.agents && a != agent ensures RunInv(next.agents[a], next.cases, a) {
      RunUntouched(s.agents[a], s.cases, next.cases, a);
    }
    assert StatusFitsPhase(s.agents[agent]) by { PhasesFit(s); }
    RunRewritten(next.agents[agent], next.cases, agent, if approve then Approved else Disabled);
  }

  lemma {:induction false} InvUpdate(s: State, id: TestId, edit: Edit)
    requires Inv(s) && EditRefusal(s, id).None?
    ensures Inv(s.(cases := s.cases[id := Edited(s.cases[id], edit)]))
  {
    hide RunInv;
    var next := s.(cases := s.cases[id := Edited(s.cases[id], edit)]);
    forall a | a in s.agents ensures RunInv(next.agents[a], next.cases, a) {
      assert CasesOf(next.cases, a) == CasesOf(s.cases, a);
      RunUntouched(s.agents[a], s.cases, next.cases, a);
    }
  }

  /** Ending a run in failure, once its cases are saved or if it has none. */
  lemma {:induction false} InvAgents(s: State, agents: map<AgentId, Agent>)
    requires Inv(s) && s.agents.Keys <= agents.Keys
    requires forall a :: a in s.agents ==>
               || agents[a] == s.agents[a]
               || (agents[a] == s.agents[a].(phase := Over) && s.agents[a].phase == AfterPersist)
               || agents[a] == Agent(AgentFailed, Over)
               || agents[a] == Agent(AgentFailed, s.agents[a].phase)
    requires forall a :: a in agents && a !in s.agents ==> agents[a] == Agent(Generating, BeforePersist)
    ensures Inv(s.(agents := agents))
  {
    forall a | a in agents ensures RunInv(agents[a], s.cases, a) {
      if a !in s.agents {
        assert CasesOf(s.cases, a) == {};
      } else if s.agents[a].phase == BeforePersist {
        NoCasesYet(s, a);
      }
    }
  }

  lemma PhasesFit(s: State)
    requires Inv(s)
    ensures forall a :: a in s.agents ==> StatusFitsPhase(s.agents[a])
  {
  }

  lemma InvKept(s: State, op: Operation)
    requires Inv(s)
    ensures Inv(Apply(s, op))
  {
    hide Persisted, ReviewedState, Edited, ReviewRefusal, EditRefusal, CasesRefusal, Snapshots, CasesOf, Inv;
    match op
    case Persist(agent, drafts, progress) =>
      if agent in s.agents && s.agents[agent].phase == BeforePersist && drafts != [] {
        InvPersist(s, agent, drafts, progress);
      }
    case Review(agent, approve) => if ReviewRefusal(s, agent).None? { InvReview(s, agent, approve); }
    case Update(id, edit) => if EditRefusal(s, id).None? { InvUpdate(s, id, edit); }
    case Enqueue(ids) => InvQueue(s, Apply(s, op).queued);
    case EnqueueFlow(ids) => InvQueue(s, Apply(s, op).queued);
    case _ =>
      PhasesFit(s);
      InvAgents(s, Apply(s, op).agents);
  }

  lemma InvQueue(s: State, queued: seq<Snapshot>)
    requires Inv(s)
    ensures Inv(s.(queued := queued))
  {
  }

  /** The lifecycle invariant holds after every sequence of operations. */
  lemma {:induction false} LifecycleInvariant(operations: seq<Operation>)
    ensures Inv(After(operations))
  {
    hide Apply, Inv;
    if operations == [] {
      EmptyInv();
    } else {
      LifecycleInvariant(operations[..|operations| - 1]);
      InvKept(After(operations[..|operations| - 1]), operations[|operations| - 1]);
    }
  }

  lemma EmptyInv()
    ensures Inv(EMPTY)
  {
  }

  /**
    A run in review has cases, and all of them are pending: once the review status
    check has passed, the two later refusals of `review_agent_run` never happen.
   */
  lemma {:induction false} ReviewGuardSuffices(operations: seq<Operation>, agent: AgentId)
    ensures var s := After(operations);
            agent in s.agents && s.agents[agent].status == InReview ==> ReviewRefusal(s, agent).None?
  {
    LifecycleInvariant(operations);
  }

  // -------------------------------------------------------------------- freezing

  predicate Frozen(c: TestCase) { c.status == Approved || c.status == Disabled }

  /** Reviewing another run leaves a frozen case alone; its own run is no longer in review. */
  lemma ReviewSparesFrozen(s: State, agent: AgentId, approve: bool, id: TestId)
    requires Inv(s) && id in s.cases && Frozen(s.cases[id]) && ReviewRefusal(s, agent).None?
    ensures id in ReviewedState(s, agent, approve).cases
    ensures ReviewedState(s, agent, approve).cases[id] == s.cases[id]
  {
    assert id in CasesOf(s.cases, agent) <==> s.cases[id].agent == agent;
  }

  lemma {:induction false} PersistSparesFrozen(s: State, agent: AgentId, drafts: seq<Content>, progress: Progress, id: TestId)
    requires Inv(s) && id in s.cases && Frozen(s.cases[id]) && agent in s.agents
    ensures id in Persisted(s, agent, drafts, progress).cases
    ensures Persisted(s, agent, drafts, progress).cases[id] == s.cases[id]
  {
    hide RunInv;
    assert id !in NewCases(s.next, agent, drafts);
  }

  /** A reviewed case is never changed again, in any of its parts. */
  lemma {:induction false} FrozenKept(s: State, op: Operation, id: TestId)
    requires Inv(s) && id in s.cases && Frozen(s.cases[id])
    ensures id in Apply(s, op).cases && Apply(s, op).cases[id] == s.cases[id]
  {
    hide Snapshots, CasesRefusal, Restarted, Inv, Persisted, ReviewedState, Edited, ReviewRefusal;
    match op
    case Persist(agent, drafts, progress) =>
      if agent in s.agents {
        PersistSparesFrozen(s, agent, drafts, progress, id);
      }
    case Review(agent, approve) =>
      if ReviewRefusal(s, agent).None? {
        ReviewSparesFrozen(s, agent, approve, id);
      }
    case _ =>
  }

  /** So whatever happens between two moments, a case reviewed at the first is the same at the second. */
  lemma {:induction false} FrozenForever(operations: seq<Operation>, later: seq<Operation>, id: TestId)
    requires id in After(operations).cases && Frozen(After(operations).cases[id])
    ensures id in After(operations + later).cases
    ensures After(operations + later).cases[id] == After(operations).cases[id]
    decreases |later|
  {
    hide Apply;
    if later == [] {
      assert operations + later == operations;
    } else {
      var n := |later| - 1;
      FrozenForever(operations, later[..n], id);
      var all := operations + later;
      assert all[..|all| - 1] == operations + later[..n] && all[|all| - 1] == later[n];
      LifecycleInvariant(operations + later[..n]);
      FrozenKept(After(operations + later[..n]), later[n], id);
    }
  }

  /** All cases of one run share a status at every commit, whatever the operations. */
  lemma {:induction false} CasesShareStatus(operations: seq<Operation>, c: TestId, d: TestId)
    requires var cases := After(operations).cases; c in cases && d in cases && cases[c].agent == cases[d].agent
    ensures After(operations).cases[c].status == After(operations).cases[d].status
  {
    LifecycleInvariant(operations);
    var s := After(operations);
    assert RunInv(s.agents[s.cases[c].agent], s.cases, s.cases[c].agent);
    assert c in CasesOf(s.cases, s.cases[c].agent) && d in CasesOf(s.cases, s.cases[c].agent);
  }

  /** Every enqueued snapshot is, at any later moment, what the stored case says. */
  ghost predicate SnapshotsCurrent(s: State) {
    forall i :: 0 <= i < |s.queued| ==>
      var q := s.queued[i];
      q.id in s.cases && s.cases[q.id].status == Approved &&
      q == Snapshot(q.id, s.cases[q.id].version, s.cases[q.id].content)
  }

  lemma EnqueueIsCurrent(s: State, ids: seq<TestId>)
    requires SnapshotsCurrent(s) && CasesRefusal(s, ids).None?
    ensures SnapshotsCurrent(s.(queued := s.queued + Snapshots(s, ids)))
  {
  }

  /**
    The version, template and assertions snapshotted when a run is enqueued are those
    the worker finds when it executes, however many operations came in between.
   */
  lemma {:induction false} EnqueuedIsExecuted(operations: seq<Operation>)
    ensures SnapshotsCurrent(After(operations))
  {
    if operations != [] {
      var n := |operations| - 1;
      var s, op := After(operations[..n]), operations[n];
      EnqueuedIsExecuted(operations[..n]);
      LifecycleInvariant(operations[..n]);
      QueuedKept(s, op);
    }
  }

  lemma {:induction false} QueuedKept(s: State, op: Operation)
    requires Inv(s) && SnapshotsCurrent(s)
    ensures SnapshotsCurrent(Apply(s, op))
  {
    if op.Enqueue? || op.EnqueueFlow? {
      if CasesRefusal(s, op.ids).None? {
        EnqueueIsCurrent(s, op.ids);
      }
    } else {
      QueueUntouched(s, op);
      forall i | 0 <= i < |s.queued|
        ensures s.queued[i].id in Apply(s, op).cases && Apply(s, op).cases[s.queued[i].id] == s.cases[s.queued[i].id]
      {
        FrozenKept(s, op, s.queued[i].id);
      }
    }
  }

  lemma QueueUntouched(s: State, op: Operation)
    requires !op.Enqueue? && !op.EnqueueFlow?
    ensures Apply(s, op).queued == s.queued
  {
  }

  // ------------------------------------------------------ what each operation changes

  ghost predicate SameRunsBut(s: State, next: State, agent: AgentId) {
    next.agents.Keys == s.agents.Keys && forall a :: a in s.agents && a != agent ==> next.agents[a] == s.agents[a]
  }

  /** A run can be reviewed: it is in review, has cases, and all of them are pending. */
  ghost predicate Reviewable(s: State, agent: AgentId) {
    && agent in s.agents && s.agents[agent].status == InReview
    && (exists c :: c in s.cases && s.cases[c].agent == agent)
    && (forall c :: c in s.cases && s.cases[c].agent == agent ==> s.cases[c].status == PendingReview)
  }

  /**
    The decision on a run: the run and each of its cases take the status of the decision,
    the cases one version later with their content as it was, and nothing else changes.
   */
  ghost predicate Decided(s: State, agent: AgentId, approve: bool, next: State)
    requires agent in s.agents
  {
    && SameRunsBut(s, next, agent) && next.next == s.next && next.queued == s.queued
    && next.agents[agent] == Agent(if approve then AgentApproved else AgentDisabled, s.agents[agent].phase)
    && next.cases.Keys == s.cases.Keys
    && forall id :: id in s.cases ==>
         var c := s.cases[id];
         next.cases[id] ==
         if c.agent == agent then TestCase(agent, if approve then Approved else Disabled, c.version + 1, c.content) else c
  }

  lemma ReviewDecides(s: State, agent: AgentId, approve: bool)
    ensures ReviewRefusal(s, agent).None? <==> Reviewable(s, agent)
    ensures if Reviewable(s, agent) then Decided(s, agent, approve, Apply(s, Review(agent, approve)))
            else Apply(s, Review(agent, approve)) == s
  {
    if exists c :: c in s.cases && s.cases[c].agent == agent {
      var c :| c in s.cases && s.cases[c].agent == agent;
      assert c in CasesOf(s.cases, agent);
    }
    if CasesOf(s.cases, agent) != {} {
      var c :| c in CasesOf(s.cases, agent);
      assert c in s.cases && s.cases[c].agent == agent;
    }
  }

  /** Which refusal: the first check that fails. */
  lemma ReviewRefusedWith(s: State, agent: AgentId)
    ensures ReviewRefusal(s, agent) == Some(AgentNotFound) <==> agent !in s.agents
    ensures ReviewRefusal(s, agent) == Some(ReviewNotAvailable) <==> agent in s.agents && s.agents[agent].status != InReview
    ensures ReviewRefusal(s, agent) == Some(NoCases) <==>
            agent in s.agents && s.agents[agent].status == InReview && forall c :: c in s.cases ==> s.cases[c].agent != agent
  {
    assert forall c :: c in CasesOf(s.cases, agent) <==> c in s.cases && s.cases[c].agent == agent;
  }

  /** An edit of a draft or pending case raises its version and replaces the parts it names. */
  lemma EditChanges(s: State, id: TestId, edit: Edit)
    ensures var next := Apply(s, Update(id, edit));
            if id in s.cases && s.cases[id].status in {Draft, PendingReview} then
              var c, d := s.cases[id], next.cases[id];
              && next == s.(cases := s.cases[id := d])
              && d.agent == c.agent && d.status == c.status && d.version == c.version + 1
              && (edit.name == None ==> d.content.name == c.content.name)
              && (edit.template == None ==> d.content.template == c.content.template)
              && (edit.assertions == None ==> d.content.assertions == c.content.assertions)
              && (edit.name.Some? ==> edit.name == Some(d.content.name))
              && (edit.template.Some? ==> edit.template == Some(d.content.template))
              && (edit.assertions.Some? ==> edit.assertions == Some(d.content.assertions))
            else next == s && EditRefusal(s, id) == Some(if id in s.cases then EditNotAvailable else CaseNotFound)
  {
  }

  /** Starting again fails the runs that were generating and no other. */
  lemma RestartFailsGenerating(s: State, ended: set<AgentId>, agent: AgentId)
    requires agent in s.agents
    ensures var next := Apply(s, Restart(ended));
            && next == s.(agents := next.agents) && next.agents.Keys == s.agents.Keys
            && (s.agents[agent].status == Generating ==> next.agents[agent].status == AgentFailed)
            && (s.agents[agent].status != Generating ==> next.agents[agent].status == s.agents[agent].status)
            && (agent in Interrupted(s.agents) <==> next.agents[agent].status != s.agents[agent].status)
  {
  }

  /**
    The end of the generating call: clean and still in review, the run stays in review and
    the call is over; every other end fails the run.  No case changes.
   */
  lemma GenerationEnds(s: State, agent: AgentId, clean: bool)
    requires agent in s.agents && s.agents[agent].phase != Over
    ensures var saved := s.agents[agent].phase == AfterPersist;
            var next := Apply(s, if saved then Conclude(agent, clean) else GenerationFails(agent));
            && next == s.(agents := next.agents) && SameRunsBut(s, next, agent)
            && next.agents[agent] == Agent(
                 if saved && clean && s.agents[agent].status == InReview then InReview else AgentFailed, Over)
  {
  }

  /** The cases that saving adds: one for each draft, in order, under new identifiers. */
  ghost predicate Added(s: State, cases: map<TestId, TestCase>, agent: AgentId, drafts: seq<Content>, status: CaseStatus) {
    && (forall id :: id in s.cases ==> id in cases && cases[id] == s.cases[id])
    && (forall id :: id in cases && id !in s.cases <==> s.next <= id < s.next + |drafts|)
    && (forall id :: id in cases && id !in s.cases ==> cases[id] == TestCase(agent, status, 1, drafts[id - s.next]))
  }

  lemma MarkAdded(s: State, cases: map<TestId, TestCase>, agent: AgentId, drafts: seq<Content>)
    requires Added(s, cases, agent, drafts, Draft) && forall id :: id in s.cases ==> s.cases[id].agent != agent
    ensures Added(s, MarkPending(cases, agent), agent, drafts, PendingReview)
  {
  }

  lemma {:induction false} CasesAdded(s: State, agent: AgentId, drafts: seq<Content>)
    requires CasesOf(s.cases, agent) == {} && forall c :: c in s.cases ==> c < s.next
    ensures Added(s, s.cases + NewCases(s.next, agent, drafts), agent, drafts, Draft)
    ensures Added(s, MarkPending(s.cases + NewCases(s.next, agent, drafts), agent), agent, drafts, PendingReview)
  {
    hide NewCases;
    forall id | id in s.cases ensures s.cases[id].agent != agent {
      assert id !in CasesOf(s.cases, agent);
    }
    hide CasesOf;
    MarkAdded(s, s.cases + NewCases(s.next, agent, drafts), agent, drafts);
  }

  lemma AddedNothing(s: State, agent: AgentId)
    ensures Added(s, s.cases, agent, [], PendingReview)
  {
  }

  /**
    Saving drafts adds one case for each as far as the save gets and changes no other case;
    the run is in review if the save got through and failed otherwise.
   */
  lemma {:induction false} PersistAdds(s: State, agent: AgentId, drafts: seq<Content>, progress: Progress)
    requires Inv(s) && agent in s.agents && s.agents[agent].phase == BeforePersist && drafts != []
    ensures var next := Apply(s, Persist(agent, drafts, progress));
            && SameRunsBut(s, next, agent) && next.queued == s.queued
            && next.agents[agent] == (if progress == AllDone then Agent(InReview, AfterPersist) else Agent(AgentFailed, Over))
            && next.next == s.next + (if progress == NothingSaved then 0 else |drafts|)
            && Added(s, next.cases, agent, if progress == NothingSaved then [] else drafts,
                     if progress == DraftsSaved then Draft else PendingReview)
  {
    NoCasesYet(s, agent);
    CasesAdded(s, agent, drafts);
    AddedNothing(s, agent);
    hide Inv, RunInv, CasesOf, NewCases, MarkPending, Added;
  }

  /** A run queues one snapshot for each of its cases, in order, and each says what the case said. */
  lemma EnqueueSnapshots(s: State, ids: seq<TestId>, flow: bool)
    ensures var next := Apply(s, if flow then EnqueueFlow(ids) else Enqueue(ids));
            if (forall i :: 0 <= i < |ids| ==> ids[i] in s.cases && s.cases[ids[i]].status == Approved) &&
               (flow || forall i, j :: 0 <= i < j < |ids| ==> ids[i] != ids[j])
            then
              && next == s.(queued := next.queued) && |next.queued| == |s.queued| + |ids|
              && next.queued[..|s.queued|] == s.queued
              && forall i :: 0 <= i < |ids| ==>
                   next.queued[|s.queued| + i] == Snapshot(ids[i], s.cases[ids[i]].version, s.cases[ids[i]].content)
            else next == s
  {
  }

  /** Which refusal a start meets: a case twice, then a missing one, then one that is not approved. */
  lemma EnqueueRefusedWith(s: State, ids: seq<TestId>)
    ensures EnqueueRefusal(s, ids) == Some(CaseDuplicated) <==> exists i, j :: 0 <= i < j < |ids| && ids[i] == ids[j]
    ensures EnqueueRefusal(s, ids) == Some(CaseNotFound) <==>
            (forall i, j :: 0 <= i < j < |ids| ==> ids[i] != ids[j]) && exists i :: 0 <= i < |ids| && ids[i] !in s.cases
    ensures EnqueueRefusal(s, ids) in {None, Some(CaseDuplicated), Some(CaseNotFound), Some(CaseNotApproved)}
    ensures FlowRefusal(s, ids) in {None, Some(CaseNotApproved)}
  {
  }

  // ------------------------------------------------- when a review decision is final

  predicate IsReviewed(a: Agent) { a.status == AgentApproved || a.status == AgentDisabled }

  /** A reviewed run whose generating call has ended is out of every operation's reach. */
  lemma ConcludedKept(s: State, op: Operation, agent: AgentId)
    requires agent in s.agents && IsReviewed(s.agents[agent]) && s.agents[agent].phase == Over
    ensures agent in Apply(s, op).agents && Apply(s, op).agents[agent] == s.agents[agent]
  {
    hide NewCases, MarkPending, EditRefusal, EnqueueRefusal, FlowRefusal, CasesOf, Snapshots, Edited;
  }

  lemma AfterSnoc(operations: seq<Operation>, op: Operation)
    ensures After(operations + [op]) == Apply(After(operations), op)
  {
    assert (operations + [op])[..|operations|] == operations;
  }

  lemma {:induction false} ConcludedForever(operations: seq<Operation>, later: seq<Operation>, agent: AgentId)
    requires var agents := After(operations).agents;
             agent in agents && IsReviewed(agents[agent]) && agents[agent].phase == Over
    ensures agent in After(operations + later).agents
    ensures After(operations + later).agents[agent] == After(operations).agents[agent]
    decreases |later|
  {
    if later == [] {
      assert operations + later == operations;
    } else {
      var n := |later| - 1;
      ConcludedForever(operations, later[..n], agent);
      ConcludedKept(After(operations + later[..n]), later[n], agent);
      AfterSnoc(operations + later[..n], later[n]);
      assert operations + later == operations + later[..n] + [later[n]];
    }
  }

  /** Over any later operations the run keeps its status. */
  ghost predicate StatusIsFinal(operations: seq<Operation>, agent: AgentId)
    requires agent in After(operations).agents
  {
    forall later: seq<Operation> ::
      agent in After(operations + later).agents &&
      After(operations + later).agents[agent].status == After(operations).agents[agent].status
  }

  /** A review decision on a run is final exactly when the call that generated its cases has ended. */
  lemma {:induction false} ReviewFinalIff(operations: seq<Operation>, agent: AgentId)
    requires agent in After(operations).agents && IsReviewed(After(operations).agents[agent])
    ensures StatusIsFinal(operations, agent) <==> After(operations).agents[agent].phase == Over
  {
    var s := After(operations);
    LifecycleInvariant(operations);
    PhasesFit(s);
    hide After, Inv;
    if s.agents[agent].phase == Over {
      forall later: seq<Operation>
        ensures agent in After(operations + later).agents && After(operations + later).agents[agent].status == s.agents[agent].status
      {
        ConcludedForever(operations, later, agent);
      }
    } else {
      var later := [Conclude(agent, true)];
      AfterSnoc(operations, Conclude(agent, true));
      assert operations + later == operations + [Conclude(agent, true)];
      assert After(operations + later).agents[agent].status == AgentFailed;
    }
  }

  // ------------------------------------------------------ cases no review can reach

  /** The run has failed for good and the case is one of its own. */
  ghost predicate OfFailedRun(s: State, id: TestId) {
    id in s.cases && s.cases[id].agent in s.agents && s.agents[s.cases[id].agent] == Agent(AgentFailed, Over)
  }

  /** No operation reviews, marks or removes it; an edit keeps its status. */
  lemma {:induction false} FailedRunKept(s: State, op: Operation, id: TestId)
    requires Inv(s) && OfFailedRun(s, id)
    ensures OfFailedRun(Apply(s, op), id)
    ensures Apply(s, op).cases[id].status == s.cases[id].status && Apply(s, op).cases[id].agent == s.cases[id].agent
  {
    hide Snapshots, EnqueueRefusal, FlowRefusal, Inv, RunInv;
    match op
    case Persist(agent, drafts, progress) =>
      SavedAboveNext(s, agent, drafts, id);
    case _ =>
  }

  lemma SavedAboveNext(s: State, agent: AgentId, drafts: seq<Content>, id: TestId)
    requires Inv(s) && id in s.cases
    ensures id !in NewCases(s.next, agent, drafts)
  {
  }

  /**
    So the cases of a run that failed after they were saved keep their status for ever: one
    in pending review is never approved or disabled, since its run is never in review again.
   */
  lemma {:induction false} FailedRunStrands(operations: seq<Operation>, later: seq<Operation>, id: TestId)
    requires OfFailedRun(After(operations), id)
    ensures OfFailedRun(After(operations + later), id)
    ensures After(operations + later).cases[id].status == After(operations).cases[id].status
    ensures After(operations + later).cases[id].agent == After(operations).cases[id].agent
    decreases |later|
  {
    hide Apply;
    if later == [] {
      assert operations + later == operations;
    } else {
      var n := |later| - 1;
      FailedRunStrands(operations, later[..n], id);
      LifecycleInvariant(operations + later[..n]);
      FailedRunKept(After(operations + later[..n]), later[n], id);
      AfterSnoc(operations + later[..n], later[n]);
      hide After, OfFailedRun;
      assert operations + later == operations + later[..n] + [later[n]];
    }
  }

  /** An error after the drafts were marked: the case waits for a review that cannot come. */
  lemma {:induction false} FailedRunStrandsPending(draft: Content, later: seq<Operation>)
    ensures var start := [Create(0)] + [Persist(0, [draft], DraftsMarked)];
            && After(start).agents == map[0 := Agent(AgentFailed, Over)]
            && 0 in After(start + later).cases && After(start + later).cases[0].status == PendingReview
            && ReviewRefusal(After(start + later), 0) == Some(ReviewNotAvailable)
  {
    var start := [Create(0)] + [Persist(0, [draft], DraftsMarked)];
    GeneratedOne(draft, DraftsMarked);
    assert After(start).cases == map[0 := TestCase(0, PendingReview, 1, draft)];
    FailedRunStrands(start, later, 0);
    hide After, NewCases;
  }

  lemma GeneratedOne(draft: Content, progress: Progress)
    ensures NewCases(0, 0, [draft]) == map[0 := TestCase(0, Draft, 1, draft)]
    ensures After([Create(0)]) == State(map[0 := Agent(Generating, BeforePersist)], map[], 0, [])
    ensures After([Create(0)] + [Persist(0, [draft], progress)]) ==
            Persisted(State(map[0 := Agent(Generating, BeforePersist)], map[], 0, []), 0, [draft], progress)
  {
    assert [draft][..0] == [] && NewCases(0, 0, []) == map[];
    AfterSnoc([], Create(0));
    AfterSnoc([Create(0)], Persist(0, [draft], progress));
    assert [] + [Create(0)] == [Create(0)];
    hide After, Persisted;
  }

  /** Approved while its generating call is still returning, the run ends failed; its case stays approved. */
  lemma ApprovedRunFails(draft: Content)
    ensures var s := After([Create(0)] + [Persist(0, [draft], AllDone)] + [Review(0, true)] + [Conclude(0, true)]);
            && s.agents == map[0 := Agent(AgentFailed, Over)]
            && s.cases == map[0 := TestCase(0, Approved, 2, draft)]
  {
    var base := State(map[0 := Agent(Generating, BeforePersist)], map[], 0, []);
    var saved := Persisted(base, 0, [draft], AllDone);
    GeneratedOne(draft, AllDone);
    assert saved.cases == map[0 := TestCase(0, PendingReview, 1, draft)];
    assert CasesOf(saved.cases, 0) == {0};
    var reviewed := ReviewedState(saved, 0, true);
    assert reviewed.cases == map[0 := TestCase(0, Approved, 2, draft)];
    AfterSnoc([Create(0)] + [Persist(0, [draft], AllDone)], Review(0, true));
    AfterSnoc([Create(0)] + [Persist(0, [draft], AllDone)] + [Review(0, true)], Conclude(0, true));
    hide After, NewCases, MarkPending, Persisted;
    assert Apply(saved, Review(0, true)) == reviewed;
  }

  /** An error after the drafts were flushed commits them with the failed run. */
  lemma FailedRunOwnsDraft(draft: Content)
    ensures var s := After([Create(0)] + [Persist(0, [draft], DraftsSaved)]);
            && s.agents == map[0 := Agent(AgentFailed, Over)]
            && s.cases == map[0 := TestCase(0, Draft, 1, draft)]
  {
    GeneratedOne(draft, DraftsSaved);
    hide After, NewCases;
  }

  // ----------------------------------------------------------- the stored records

  lemma NothingNew(first: TestId, agent: AgentId)
    ensures NewCases(first, agent, []) == map[]
  {
  }

  lemma SavedNext(first: TestId, agent: AgentId, drafts: seq<Content>, i: nat)
    requires i < |drafts|
    ensures NewCases(first, agent, drafts[..i + 1]) ==
            NewCases(first, agent, drafts[..i])[first + i := TestCase(agent, Draft, 1, drafts[i])]
  {
    assert drafts[..i + 1][..i] == drafts[..i];
  }

  lemma ReviewApplied(s: State, agent: AgentId, approve: bool)
    ensures Apply(s, Review(agent, approve)) == if ReviewRefusal(s, agent).None? then ReviewedState(s, agent, approve) else s
  {
    hide ReviewRefusal, ReviewedState;
  }

  class Store {
    var agents: map<AgentId, Agent>
    var cases: map<TestId, TestCase>
    var next: TestId
    var queued: seq<Snapshot>

    constructor ()
      ensures View() == EMPTY
    {
      agents, cases, next, queued := map[], map[], 0, [];
    }

    function View(): State
      reads this
    {
      State(agents, cases, next, queued)
    }

    method CreateTestcaseGenerationRun(agent: AgentId)
      modifies this
      ensures View() == Apply(old(View()), Create(agent))
    {
      if agent !in agents {
        agents := agents[agent := Agent(Generating, BeforePersist)];
      }
    }

    /** `save_case_drafts`: appends one draft case per structured draft. */
    method SaveCaseDrafts(agent: AgentId, drafts: seq<Content>)
      modifies this`cases, this`next
      ensures cases == old(cases) + NewCases(old(next), agent, drafts)
      ensures next == old(next) + |drafts|
    {
      hide NewCases;
      ghost var first := next;
      NothingNew(first, agent);
      for i := 0 to |drafts|
        invariant next == first + i
        invariant cases == old(cases) + NewCases(first, agent, drafts[..i])
      {
        SavedNext(first, agent, drafts, i);
        cases := cases[next := TestCase(agent, Draft, 1, drafts[i])];
        next := next + 1;
      }
      assert drafts[..|drafts|] == drafts;
    }

    /** `mark_drafts_pending_review`: the loop over the run's cases. */
    method MarkDraftsPendingReview(agent: AgentId)
      modifies this`cases
      ensures cases == MarkPending(old(cases), agent)
    {
      var todo := CasesOf(cases, agent);
      while todo != {}
        invariant todo <= CasesOf(old(cases), agent)
        invariant cases.Keys == old(cases).Keys
        invariant forall c :: c in old(cases) ==>
                    cases[c] == if c in todo then old(cases)[c] else MarkPending(old(cases), agent)[c]
        decreases |todo|
      {
        var c :| c in todo;
        if cases[c].status == Draft {
          cases := cases[c := cases[c].(status := PendingReview)];
        }
        todo := todo - {c};
      }
    }

    /** `persist_drafts` up to its commit, or up to the error that ends it. */
    method PersistDrafts(agent: AgentId, drafts: seq<Content>, progress: Progress)
      requires agent in agents && agents[agent].phase == BeforePersist && drafts != []
      modifies this
      ensures View() == Apply(old(View()), Persist(agent, drafts, progress))
    {
      if progress != NothingSaved {
        SaveCaseDrafts(agent, drafts);
        if progress != DraftsSaved {
          MarkDraftsPendingReview(agent);
        }
      }
      agents := agents[agent := if progress == AllDone then Agent(InReview, AfterPersist) else Agent(AgentFailed, Over)];
    }

    /** `review_agent_run`: nothing is stored unless every case was pending. */
    method ReviewAgentRun(agent: AgentId, approve: bool) returns (refusal: Option<Refusal>)
      modifies this
      ensures refusal == ReviewRefusal(old(View()), agent)
      ensures refusal.None? <==> Reviewable(old(View()), agent)
      ensures if refusal.None? then Decided(old(View()), agent, approve, View()) else View() == old(View())
      ensures View() == Apply(old(View()), Review(agent, approve))
    {
      ReviewApplied(View(), agent, approve);
      ReviewDecides(View(), agent, approve);
      hide Apply;
      if agent !in agents {
        return Some(AgentNotFound);
      }
      if agents[agent].status != InReview {
        return Some(ReviewNotAvailable);
      }
      var todo := CasesOf(cases, agent);
      if todo == {} {
        return Some(NoCases);
      }
      var updated := cases;
      while todo != {}
        invariant todo <= CasesOf(cases, agent) && View() == old(View())
        invariant updated.Keys == cases.Keys
        invariant forall c :: c in CasesOf(cases, agent) - todo ==> cases[c].status == PendingReview
        invariant forall c :: c in cases ==>
                    updated[c] == if c in CasesOf(cases, agent) - todo then Reviewed(cases[c], approve) else cases[c]
        decreases |todo|
      {
        var c :| c in todo;
        if cases[c].status != PendingReview {
          return Some(CaseStateInvalid);
        }
        updated := updated[c := Reviewed(cases[c], approve)];
        todo := todo - {c};
      }
      assert updated == ReviewedState(View(), agent, approve).cases;
      cases := updated;
      agents := agents[agent := agents[agent].(status := if approve then AgentApproved else AgentDisabled)];
      return None;
    }

    method UpdateTestCase(id: TestId, edit: Edit) returns (refusal: Option<Refusal>)
      modifies this
      ensures refusal == EditRefusal(old(View()), id)
      ensures View() == Apply(old(View()), Update(id, edit))
    {
      if id !in cases {
        return Some(CaseNotFound);
      }
      var c := cases[id];
      if c.status != Draft && c.status != PendingReview {
        return Some(EditNotAvailable);
      }
      if edit.name.Some? {
        c := c.(content := c.content.(name := edit.name.value));
      }
      if edit.template.Some? {
        c := c.(content := c.content.(template := edit.template.value));
      }
      if edit.assertions.Some? {
        c := c.(content := c.content.(assertions := edit.assertions.value));
      }
      cases := cases[id := c.(version := c.version + 1)];
      return None;
    }

    /** `fail_interrupted_agent_runs`, in a process started after the calls in `ended` died. */
    method FailInterruptedAgentRuns(ended: set<AgentId>) returns (count: nat)
      modifies this`agents
      ensures View() == Apply(old(View()), Restart(ended))
      ensures count == |Interrupted(old(agents))|
    {
      ghost var before := agents;
      agents := map a | a in agents :: if a in ended then agents[a].(phase := Over) else agents[a];
      var todo := Interrupted(agents);
      assert todo == Interrupted(before);
      count := |todo|;
      while todo != {}
        invariant todo <= Interrupted(before) && agents.Keys == before.Keys
        invariant forall a :: a in before ==>
                    agents[a] == Agent(if a in todo then Generating else Restarted(before, ended)[a].status,
                                       Restarted(before, ended)[a].phase)
        decreases |todo|
      {
        var a :| a in todo;
        agents := agents[a := agents[a].(status := AgentFailed)];
        todo := todo - {a};
      }
      assert agents == Restarted(before, ended);
    }
  }
}
