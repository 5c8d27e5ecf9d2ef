/**
 The approval gate as a persistent state machine. Each store-backed method is one atomic step; a run is split at
 the points where other steps can come between. Records keep the started_at they were created with, because the
 store's update does not write that column.
 */
module Approvals {

  datatype Status = Pending | PendingApproval | InProgress | Completed | Failed | RolledBack | Rejected

  datatype Deployment = Deployment(stack: string, status: Status, startedAt: int, completedAt: int, message: string)

  type Table = map<string, Deployment>

  /** `stacks` maps each stack to its requires_approval flag; `runs` are the deployments being executed now. */
  datatype Store = Store(table: Table, stacks: map<string, bool>, runs: set<string>)

  function Initial(): Store {
    Store(map[], map[], {})
  }

  // ---------------------------------------------------------------------------------------------
  // Steps
  // ---------------------------------------------------------------------------------------------

  datatype Step =
    | PutStack(stack: string, requiresApproval: bool)
    | DeleteStack(stack: string)
    | Deploy(stack: string, id: string, hostOk: bool, now: int) // any trigger; `id` is the random id drawn
    | Approve(id: string, hostOk: bool, now: int)
    | Reject(id: string, reason: string, now: int)
    | Expire(maxAge: int, now: int, unsaved: set<string>)      // `unsaved`: records whose update fails
    | SecretsUnreadable(id: string)                            // the run returns early
    | Finish(id: string, ok: bool, message: string, now: int)
    | Cleanup(maxAge: int, now: int)

  predicate HasPending(table: Table, stack: string) {
    exists id :: id in table && table[id].stack == stack && table[id].status == PendingApproval
  }

  /** runDeployment up to the point where the rollout starts; the record exists. */
  function Begin(s: Store, id: string, hostOk: bool, now: int): Store
    requires id in s.table
  {
    if !hostOk then s.(table := s.table[id := s.table[id].(status := Failed, completedAt := now, message := "host")])
    else s.(table := s.table[id := s.table[id].(status := InProgress)], runs := s.runs + {id})
  }

  function Record(stack: string, status: Status, now: int): Deployment {
    Deployment(stack, status, now, 0, "")
  }

  /** Deploy: held when the stack asks for approval, else created and begun. */
  function Deployed(s: Store, stack: string, id: string, hostOk: bool, now: int): Store {
    if stack !in s.stacks then s
    else if s.stacks[stack] then
      if HasPending(s.table, stack) || id in s.table then s
      else s.(table := s.table[id := Record(stack, PendingApproval, now)])
    else if id in s.table then s
    else Begin(s.(table := s.table[id := Record(stack, Pending, now)]), id, hostOk, now)
  }

  /** Deploy answers with a record: one already held, or a new one that is held or begins. */
  predicate Accepts(s: Store, stack: string, id: string, hostOk: bool) {
    && stack in s.stacks
    && if s.stacks[stack] then HasPending(s.table, stack) || id !in s.table else id !in s.table && hostOk
  }

  predicate Held(s: Store, id: string) {
    id in s.table && s.table[id].status == PendingApproval
  }

  function Approved(s: Store, id: string, hostOk: bool, now: int): Store {
    if !Held(s, id) || s.table[id].stack !in s.stacks then s else Begin(s, id, hostOk, now)
  }

  function Refused(d: Deployment, reason: string, now: int): Deployment {
    d.(status := Rejected, completedAt := now, message := if reason != "" then reason else d.message)
  }

  function RejectedIn(s: Store, id: string, reason: string, now: int): Store {
    if !Held(s, id) then s else s.(table := s.table[id := Refused(s.table[id], reason, now)])
  }

  const TIMED_OUT := "approval timed out"

  predicate Expires(d: Deployment, cutoff: int) {
    d.status == PendingApproval && d.startedAt <= cutoff
  }

  function Expired(table: Table, maxAge: int, now: int, unsaved: set<string>): Table {
    map id | id in table :: ExpiredRecord(table[id], maxAge, now, id in unsaved)
  }

  function ExpiredIds(table: Table, cutoff: int, unsaved: set<string>): set<string> {
    set id | id in table && Expires(table[id], cutoff) && id !in unsaved
  }

  function ExpiredRecord(d: Deployment, maxAge: int, now: int, unsaved: bool): Deployment {
    if maxAge > 0 && Expires(d, now - maxAge) && !unsaved then Refused(d, TIMED_OUT, now) else d
  }

  predicate Disposable(d: Deployment, cutoff: int) {
    d.startedAt < cutoff && (d.status == Completed || d.status == Failed || d.status == RolledBack)
  }

  function CleanedUp(table: Table, maxAge: int, now: int): Table {
    map id | id in table && !Disposable(table[id], now - maxAge) :: table[id]
  }

  /** The end of a run. The rolled_back mark set during the rollout is overwritten here before it is ever saved. */
  function Finished(s: Store, id: string, ok: bool, message: string, now: int): Store {
    if id !in s.runs then s
    else
      var idle := s.(runs := s.runs - {id});
      if id !in s.table then idle
      else
        var d := s.table[id];
        idle.(table := s.table[id := d.(status := if ok then Completed else Failed, completedAt := now,
                                        message := if ok then d.message else message)])
  }

  function Next(s: Store, step: Step): Store {
    match step
    case PutStack(stack, requiresApproval) => s.(stacks := s.stacks[stack := requiresApproval])
    case DeleteStack(stack) => s.(stacks := s.stacks - {stack})
    case Deploy(stack, id, hostOk, now) => Deployed(s, stack, id, hostOk, now)
    case Approve(id, hostOk, now) => Approved(s, id, hostOk, now)
    case Reject(id, reason, now) => RejectedIn(s, id, reason, now)
    case Expire(maxAge, now, unsaved) => s.(table := Expired(s.table, maxAge, now, unsaved))
    case SecretsUnreadable(id) => s.(runs := s.runs - {id})
    case Finish(id, ok, message, now) => Finished(s, id, ok, message, now)
    case Cleanup(maxAge, now) => s.(table := CleanedUp(s.table, maxAge, now))
  }

  // ---------------------------------------------------------------------------------------------
  // The methods
  // ---------------------------------------------------------------------------------------------

  datatype Reply = Ok(id: string) | Error

  class Deployer {
    var store: Store

    constructor ()
      ensures store == Initial()
    {
      store := Initial();
    }

    /** GetPendingApproval: the most recent pending one. */
    method GetPendingApproval(stack: string) returns (found: bool, id: string)
      ensures found == HasPending(store.table, stack)
      ensures found ==> Held(store, id) && store.table[id].stack == stack
      ensures found ==>
                forall k :: k in store.table && store.table[k].stack == stack && Held(store, k) ==>
                  store.table[k].startedAt <= store.table[id].startedAt
    {
      found, id := false, "";
      var remaining := store.table.Keys;
      while remaining != {}
        invariant remaining <= store.table.Keys
        invariant found ==> Held(store, id) && store.table[id].stack == stack
        invariant forall k :: k in store.table.Keys - remaining && store.table[k].stack == stack
                              && store.table[k].status == PendingApproval
                              ==> found && store.table[k].startedAt <= store.table[id].startedAt
        decreases remaining
      {
        var k :| k in remaining;
        var d := store.table[k];
        if d.stack == stack && d.status == PendingApproval && (!found || store.table[id].startedAt < d.startedAt) {
          found, id := true, k;
        }
        remaining := remaining - {k};
      }
    }

    method RunBegins(id: string, hostOk: bool, now: int)
      requires id in store.table
      modifies this
      ensures store == Begin(old(store), id, hostOk, now)
    {
      if !hostOk {
        store := store.(table := store.table[id := store.table[id].(status := Failed, completedAt := now,
                                                                    message := "host")]);
      } else {
        store := store.(table := store.table[id := store.table[id].(status := InProgress)], runs := store.runs + {id});
      }
    }

    method RunDeploy(stack: string, freshId: string, hostOk: bool, now: int) returns (reply: Reply)
      modifies this
      ensures store == Deployed(old(store), stack, freshId, hostOk, now)
      ensures reply.Ok? <==> Accepts(old(store), stack, freshId, hostOk)
      ensures reply.Ok? ==> stack in store.stacks && reply.id in store.table && store.table[reply.id].stack == stack
      ensures reply.Ok? ==> if store.stacks[stack] then Held(store, reply.id) else reply.id in store.runs
      ensures reply.Ok? && reply.id != freshId ==> store == old(store)
    {
      if stack !in store.stacks {
        return Error;
      }
      if store.stacks[stack] {
        var found, existing := GetPendingApproval(stack);
        if found {
          return Ok(existing);
        }
        if freshId in store.table {
          return Error;
        }
        store := store.(table := store.table[freshId := Record(stack, PendingApproval, now)]);
        return Ok(freshId);
      }
      if freshId in store.table {
        return Error;
      }
      store := store.(table := store.table[freshId := Record(stack, Pending, now)]);
      RunBegins(freshId, hostOk, now);
      return if hostOk then Ok(freshId) else Error;
    }

    method ApproveDeployment(id: string, hostOk: bool, now: int) returns (reply: Reply)
      modifies this
      ensures store == Approved(old(store), id, hostOk, now)
      ensures reply.Ok? <==> Held(old(store), id) && old(store).table[id].stack in old(store).stacks && hostOk
      ensures reply.Ok? ==> reply.id == id && id in store.runs && store.table[id].status == InProgress
      ensures reply.Error? && hostOk ==> store == old(store)
    {
      if id !in store.table || store.table[id].status != PendingApproval || store.table[id].stack !in store.stacks {
        return Error;
      }
      RunBegins(id, hostOk, now);
      return if hostOk then Ok(id) else Error;
    }

    method RejectDeployment(id: string, reason: string, now: int) returns (reply: Reply)
      modifies this
      ensures store == RejectedIn(old(store), id, reason, now)
      ensures reply.Ok? <==> Held(old(store), id)
    {
      if id !in store.table || store.table[id].status != PendingApproval {
        return Error;
      }
      var d := store.table[id].(status := Rejected, completedAt := now);
      if reason != "" {
        d := d.(message := reason);
      }
      store := store.(table := store.table[id := d]);
      return Ok(id);
    }

    /** The sweep over the pending ones, in any order; a record whose update fails is skipped. */
    method ExpirePendingApprovals(maxAge: int, now: int, unsaved: set<string>) returns (expired: nat)
      modifies this
      ensures store == old(store).(table := Expired(old(store).table, maxAge, now, unsaved))
      ensures expired == |if maxAge <= 0 then {} else ExpiredIds(old(store).table, now - maxAge, unsaved)|
    {
      expired := 0;
      if maxAge <= 0 {
        assert store.table == Expired(store.table, maxAge, now, unsaved);
        return;
      }
      ghost var was := store.table;
      var cutoff := now - maxAge;
      var remaining := set id | id in store.table && store.table[id].status == PendingApproval;
      ghost var rejected: set<string> := {};
      while remaining != {}
        invariant store.stacks == old(store).stacks && store.runs == old(store).runs
        invariant expired == |rejected|
        invariant Sweeping(was, store.table, remaining, rejected, maxAge, now, unsaved)
        decreases remaining
      {
        var id :| id in remaining;
        SweepOne(was, store.table, remaining, rejected, maxAge, now, unsaved, id);
        remaining := remaining - {id};
        var d := store.table[id];
        if d.startedAt > cutoff || id in unsaved {
          continue;
        }
        store := store.(table := store.table[id := d.(status := Rejected, message := TIMED_OUT, completedAt := now)]);
        expired := expired + 1;
        rejected := rejected + {id};
      }
      assert rejected == ExpiredIds(was, cutoff, unsaved);
      assert store.table == Expired(was, maxAge, now, unsaved);
    }
  }

  /** The sweep so far: what is still to come is as it was, the rest as it will be. */
  ghost predicate Sweeping(was: Table, table: Table, remaining: set<string>, rejected: set<string>, maxAge: int,
                           now: int, unsaved: set<string>)
  {
    && maxAge > 0 && table.Keys == was.Keys
    && (forall id :: id in remaining ==> id in was && was[id].status == PendingApproval)
    && (forall id :: id in rejected <==> id in ExpiredIds(was, now - maxAge, unsaved) && id !in remaining)
    && (forall id :: id in table ==>
          table[id] == if id in remaining then was[id] else ExpiredRecord(was[id], maxAge, now, id in unsaved))
  }

  /** One record of the sweep: left alone, or rejected. */
  lemma SweepOne(was: Table, table: Table, remaining: set<string>, rejected: set<string>, maxAge: int, now: int,
                 unsaved: set<string>, id: string)
    requires Sweeping(was, table, remaining, rejected, maxAge, now, unsaved) && id in remaining
    ensures id in table && id !in rejected
    ensures var d := table[id];
            if d.startedAt > now - maxAge || id in unsaved then
              Sweeping(was, table, remaining - {id}, rejected, maxAge, now, unsaved)
            else
              Sweeping(was, table[id := d.(status := Rejected, message := TIMED_OUT, completedAt := now)],
                       remaining - {id}, rejected + {id}, maxAge, now, unsaved)
  {
  }

  // ---------------------------------------------------------------------------------------------
  // Every reachable state
  // ---------------------------------------------------------------------------------------------

  function Run(steps: seq<Step>): Store {
    if steps == [] then Initial() else Next(Run(steps[..|steps| - 1]), steps[|steps| - 1])
  }

  predicate SamePending(a: Deployment, b: Deployment) {
    a.status == PendingApproval && b.status == PendingApproval && a.stack == b.stack
  }

  ghost predicate OnePendingPerStack(table: Table) {
    forall a, b :: a in table && b in table && SamePending(table[a], table[b]) ==> a == b
  }

  ghost predicate Invariant(s: Store) {
    && OnePendingPerStack(s.table)
    && (forall id :: id in s.runs ==> id in s.table && s.table[id].status == InProgress)
    && (forall id :: id in s.table ==> s.table[id].status != RolledBack && s.table[id].status != Pending)
  }

  /** Changing records only away from pending_approval, or removing them, keeps at most one pending per stack. */
  lemma FewerPending(before: Table, after: Table)
    requires OnePendingPerStack(before)
    requires forall id :: id in after ==>
               id in before && (after[id].status == PendingApproval ==> SamePending(after[id], before[id]))
    ensures OnePendingPerStack(after)
  {
    forall a, b | a in after && b in after && SamePending(after[a], after[b]) ensures a == b {
      assert SamePending(before[a], before[b]);
    }
  }

  lemma DeployKeepsInvariant(s: Store, stack: string, id: string, hostOk: bool, now: int)
    requires Invariant(s)
    ensures Invariant(Deployed(s, stack, id, hostOk, now))
  {
    var t := Deployed(s, stack, id, hostOk, now).table;
    assert forall a :: a in t && a != id ==> a in s.table && t[a] == s.table[a];
    assert id in t && id !in s.table && t[id].status == PendingApproval ==> !HasPending(s.table, t[id].stack);
  }

  lemma NextKeepsInvariant(s: Store, step: Step)
    requires Invariant(s)
    ensures Invariant(Next(s, step))
  {
    match step
    case Deploy(stack, id, hostOk, now) => DeployKeepsInvariant(s, stack, id, hostOk, now);
    case PutStack(_, _) =>
    case DeleteStack(_) =>
    case Approve(_, _, _) => FewerPending(s.table, Next(s, step).table);
    case Reject(_, _, _) => FewerPending(s.table, Next(s, step).table);
    case Expire(_, _, _) => FewerPending(s.table, Next(s, step).table);
    case SecretsUnreadable(_) =>
    case Finish(_, _, _, _) => FewerPending(s.table, Next(s, step).table);
    case Cleanup(_, _) => FewerPending(s.table, Next(s, step).table);
  }

  /**
   In every reachable state a stack has at most one deployment awaiting approval, everything being executed is
   marked in_progress, and no record is ever saved as rolled_back.
   */
  lemma {:induction false} Reachable(steps: seq<Step>)
    ensures Invariant(Run(steps))
  {
    if steps != [] {
      Reachable(steps[..|steps| - 1]);
      NextKeepsInvariant(Run(steps[..|steps| - 1]), steps[|steps| - 1]);
    }
  }

  predicate Executing(s: Store, id: string) {
    id in s.runs || (id in s.table && (s.table[id].status == InProgress || s.table[id].status == Completed
                                       || s.table[id].status == Failed))
  }

  /** One step keeps a held record held, rejects it, or approves it; it never removes it. */
  lemma HeldGoesNowhereElse(s: Store, step: Step, id: string)
    requires Invariant(s) && Held(s, id) && !(step.Approve? && step.id == id)
    ensures id in Next(s, step).table && id !in Next(s, step).runs
    ensures Next(s, step).table[id].status == PendingApproval || Next(s, step).table[id].status == Rejected
  {
  }

  predicate Settled(status: Status) {
    status == Rejected || status == Completed || status == Failed
  }

  /**
   Rejected, completed and failed are never left; such a record can only be deleted, and a rejected one not even that.
   */
  lemma SettledStays(s: Store, step: Step, id: string)
    requires Invariant(s) && id in s.table && Settled(s.table[id].status)
    ensures id in Next(s, step).table ==> Next(s, step).table[id] == s.table[id]
    ensures id !in Next(s, step).table ==> step.Cleanup? && s.table[id].status != Rejected
  {
  }

  /** A record held at some point of a run is approved later, or to the end held or rejected, and never removed. */
  lemma {:induction false} HeldUntilApproved(steps: seq<Step>, i: nat, id: string)
    requires i <= |steps| && Held(Run(steps[..i]), id)
    ensures (exists k :: i <= k < |steps| && steps[k].Approve? && steps[k].id == id)
            || (id in Run(steps).table && id !in Run(steps).runs
                && (Held(Run(steps), id) || Run(steps).table[id].status == Rejected))
    decreases |steps|
  {
    Reachable(steps);
    if i == |steps| {
      assert steps[..i] == steps;
    } else {
      var init, last := steps[..|steps| - 1], steps[|steps| - 1];
      assert init[..i] == steps[..i];
      HeldUntilApproved(init, i, id);
      Reachable(init);
      if k :| i <= k < |init| && init[k].Approve? && init[k].id == id {
        assert steps[k].Approve? && steps[k].id == id;
      } else if last.Approve? && last.id == id {
        assert steps[|steps| - 1].Approve?;
      } else if Held(Run(init), id) {
        HeldGoesNowhereElse(Run(init), last, id);
      } else {
        SettledStays(Run(init), last, id);
      }
    }
  }

  /** From any point of any run where a record is held to any later point where it executes, it was approved. */
  lemma HeldThenExecutedWasApproved(steps: seq<Step>, i: nat, id: string)
    requires i <= |steps| && Held(Run(steps[..i]), id) && Executing(Run(steps), id)
    ensures exists k :: i <= k < |steps| && steps[k].Approve? && steps[k].id == id
  {
    HeldUntilApproved(steps, i, id);
  }

  /** A step that starts a run is the approval of a held record, or a deploy of a stack that asks for none. */
  lemma RunsStartProperly(s: Store, step: Step, id: string)
    requires Invariant(s) && id !in s.runs && id in Next(s, step).runs
    ensures (step.Approve? && step.id == id && Held(s, id))
            || (step.Deploy? && step.id == id && step.stack in s.stacks && !s.stacks[step.stack])
  {
  }

  // ---------------------------------------------------------------------------------------------
  // What each step writes
  // ---------------------------------------------------------------------------------------------

  /** Every record but one is as it was. */
  ghost predicate OnlyRecord(s: Store, t: Store, id: string) {
    && (forall k :: k != id ==> (k in t.table <==> k in s.table))
    && (forall k :: k != id && k in s.table ==> t.table[k] == s.table[k])
    && t.stacks == s.stacks
  }

  /** The end of a run: completed on success, failed with the error's message otherwise, and no longer executing. */
  lemma FinishWrites(s: Store, id: string, ok: bool, message: string, now: int)
    requires id in s.runs && id in s.table
    ensures var t := Next(s, Finish(id, ok, message, now));
            && id in t.table && id !in t.runs && t.runs == s.runs - {id} && OnlyRecord(s, t, id)
            && (t.table[id].status == Completed <==> ok) && (t.table[id].status == Failed <==> !ok)
            && t.table[id].completedAt == now && t.table[id].startedAt == s.table[id].startedAt
            && (!ok ==> t.table[id].message == message) && (ok ==> t.table[id].message == s.table[id].message)
  {
  }

  /** A rejection: rejected now, with the reason if one is given. */
  lemma RejectWrites(s: Store, id: string, reason: string, now: int)
    requires Held(s, id)
    ensures var t := Next(s, Reject(id, reason, now));
            && id in t.table && t.table[id].status == Rejected && t.table[id].completedAt == now
            && t.table[id].message == (if reason == "" then s.table[id].message else reason)
            && OnlyRecord(s, t, id) && t.runs == s.runs
  {
  }

  /** A start that cannot reach the host fails the record at once; any other start marks it and lets it execute. */
  lemma ApproveWrites(s: Store, id: string, hostOk: bool, now: int)
    requires Held(s, id) && s.table[id].stack in s.stacks
    ensures var t := Next(s, Approve(id, hostOk, now));
            && id in t.table && OnlyRecord(s, t, id)
            && (hostOk ==> t.table[id].status == InProgress && t.runs == s.runs + {id})
            && (!hostOk ==> t.table[id].status == Failed && t.table[id].completedAt == now && t.runs == s.runs)
  {
  }

  /** A deploy of a known stack under a new id: held if the stack asks for approval and holds none yet, else started. */
  lemma DeployWrites(s: Store, stack: string, id: string, hostOk: bool, now: int)
    requires stack in s.stacks && id !in s.table && id !in s.runs
    ensures var t := Next(s, Deploy(stack, id, hostOk, now));
            && OnlyRecord(s, t, id)
            && (s.stacks[stack] && HasPending(s.table, stack) ==> t == s)
            && (!(s.stacks[stack] && HasPending(s.table, stack)) ==>
                  id in t.table && t.table[id].stack == stack && t.table[id].startedAt == now
                  && (t.table[id].status == PendingApproval <==> s.stacks[stack])
                  && (t.table[id].status == InProgress <==> !s.stacks[stack] && hostOk)
                  && (t.table[id].status == Failed <==> !s.stacks[stack] && !hostOk)
                  && (id in t.runs <==> !s.stacks[stack] && hostOk))
  {
  }

  /** When a record was created is never rewritten, whatever happens to it. */
  lemma StartedAtStays(s: Store, step: Step, id: string)
    requires id in s.table && id in Next(s, step).table
    ensures Next(s, step).table[id].startedAt == s.table[id].startedAt
    ensures Next(s, step).table[id].stack == s.table[id].stack
  {
  }

  /** A run that cannot read the stack's secrets stops executing and leaves its record as it stands. */
  lemma UnreadableSecretsWrite(s: Store, id: string)
    ensures Next(s, SecretsUnreadable(id)) == Store(s.table, s.stacks, s.runs - {id})
  {
  }

  /** The last state of the steps before the k-th. */
  function Upon(steps: seq<Step>, k: nat): Store
    requires k <= |steps|
  {
    Run(steps[..k])
  }

  /** The step that brought the record to completed: the successful end of its own run. */
  ghost predicate CompletedAt(steps: seq<Step>, k: nat, id: string) {
    k < |steps| && id in Upon(steps, k).runs && steps[k].Finish? && steps[k].id == id && steps[k].ok
  }

  /** Or to failed: the failed end of its own run, or a start that could not reach the host. */
  ghost predicate FailedAt(steps: seq<Step>, k: nat, id: string) {
    && k < |steps|
    && match steps[k]
       case Finish(f, ok, _, _) => f == id && !ok && id in Upon(steps, k).runs
       case Deploy(_, f, hostOk, _) => f == id && !hostOk
       case Approve(f, hostOk, _) => f == id && !hostOk
       case _ => false
  }

  lemma CompletedByThisStep(s: Store, step: Step, id: string)
    requires id in Next(s, step).table && Next(s, step).table[id].status == Completed
    ensures (id in s.table && s.table[id].status == Completed)
            || (step.Finish? && step.id == id && step.ok && id in s.runs)
  {
  }

  lemma FailedByThisStep(s: Store, step: Step, id: string)
    requires id in Next(s, step).table && Next(s, step).table[id].status == Failed
    ensures (id in s.table && s.table[id].status == Failed)
            || (step.Finish? && step.id == id && !step.ok && id in s.runs)
            || (step.Deploy? && step.id == id && !step.hostOk) || (step.Approve? && step.id == id && !step.hostOk)
  {
  }

  /** Over every run, a record is completed only by the successful end of its own run. */
  lemma {:induction false} CompletedWasFinished(steps: seq<Step>, id: string) returns (k: nat)
    requires id in Run(steps).table && Run(steps).table[id].status == Completed
    ensures CompletedAt(steps, k, id)
    decreases |steps|
  {
    var n := |steps| - 1;
    var init := steps[..n];
    CompletedByThisStep(Run(init), steps[n], id);
    if id in Run(init).table && Run(init).table[id].status == Completed {
      k := CompletedWasFinished(init, id);
      assert init[..k] == steps[..k];
    } else {
      k := n;
    }
  }

  /** And failed only by the failed end of its own run, or by a start that could not reach the host. */
  lemma {:induction false} FailedHadReason(steps: seq<Step>, id: string) returns (k: nat)
    requires id in Run(steps).table && Run(steps).table[id].status == Failed
    ensures FailedAt(steps, k, id)
    decreases |steps|
  {
    var n := |steps| - 1;
    var init := steps[..n];
    FailedByThisStep(Run(init), steps[n], id);
    if id in Run(init).table && Run(init).table[id].status == Failed {
      k := FailedHadReason(init, id);
      assert init[..k] == steps[..k];
    } else {
      k := n;
    }
  }

  // ---------------------------------------------------------------------------------------------
  // Expiry and retention
  // ---------------------------------------------------------------------------------------------

  /** Expiry rejects exactly the saved pending records not newer than the cutoff, and touches nothing else. */
  lemma ExpiryExactly(s: Store, maxAge: int, now: int, unsaved: set<string>, id: string)
    requires Invariant(s) && id in s.table
    ensures var after := Next(s, Expire(maxAge, now, unsaved)).table;
            && id in after
            && (maxAge > 0 && Held(s, id) && s.table[id].startedAt <= now - maxAge && id !in unsaved
                <==> s.table[id].status != Rejected && after[id].status == Rejected)
            && (after[id].status != Rejected || s.table[id].status == Rejected ==> after[id] == s.table[id])
            && (after[id] != s.table[id] ==> after[id].completedAt == now && after[id].message == "approval timed out")
  {
  }

  /** Retention deletes exactly the old completed and failed ones: never one that is held, executing or rejected. */
  lemma CleanupExactly(s: Store, maxAge: int, now: int, id: string)
    requires Invariant(s) && id in s.table
    ensures var after := Next(s, Cleanup(maxAge, now)).table;
            && (id !in after <==> s.table[id].startedAt < now - maxAge
                                  && (s.table[id].status == Completed || s.table[id].status == Failed))
            && (id in after ==> after[id] == s.table[id])
  {
  }
}
