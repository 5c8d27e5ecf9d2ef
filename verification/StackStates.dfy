/** Every state a deploy of a stack passes through, and the order in which services come up. */
module StackStates {
  import opened Containers
  import opened Rollout
  import opened RolloutProofs
  import opened RolloutTheorems
  import opened StackRollout
  import DependencyOrder
  import Text

  // ---------------------------------------------------------------------------------------------
  // Every state of a rollback
  // ---------------------------------------------------------------------------------------------

  ghost predicate AllApart(h: Host, trace: seq<Host>, s: string) {
    forall w :: w in trace ==> Apart(h, w, s)
  }

  lemma AllApartAppend(h: Host, mid: Host, a: seq<Host>, b: seq<Host>, s: string)
    requires Apart(h, mid, s) && AllApart(h, a, s) && AllApart(mid, b, s)
    ensures AllApart(h, a + b, s)
  {
  }

  lemma {:induction false} RemoveCurrentStates(h: Host, ids: seq<nat>, r: RollbackEnv, s: string)
    requires h.Valid() && Owned(h, s, ids)
    ensures AllApart(h, RemoveCurrent(h, ids, r).trace, s)
    decreases |ids|
  {
    if ids != [] {
      var t := Teardown(r.stopOk(ids[0]), r.removeOk(ids[0]));
      var step := TearDown(h, ids[0], t);
      var next := Final(h, step);
      assert ids[0] in ids;
      TearDownStates(h, ids[0], t, s);
      assert Torn(h, next, ids[0], s);
      if r.removeOk(ids[0]) {
        OwnedLater(h, next, s, ids, ids[1..]);
        RemoveCurrentStates(next, ids[1..], r, s);
        AllApartAppend(h, next, step, RemoveCurrent(next, ids[1..], r).trace, s);
      }
    }
  }

  lemma {:induction false} RecreateStates(h: Host, s: string, snapshot: Snapshot, i: nat, r: RollbackEnv)
    requires h.Valid() && i <= |snapshot|
    ensures AllApart(h, Recreate(h, s, snapshot, i, r).trace, s)
    decreases |snapshot| - i
  {
    if i < |snapshot| && r.createOk(i) {
      RecreateOne(h, s, snapshot, i, r);
      var created := Create(h, RollbackName(s, i, r), snapshot[i]);
      if r.startOk(i) {
        var started := Report(created, h.nextId, true, r.health(i));
        RecreateStates(started, s, snapshot, i + 1, r);
        AllApartAppend(h, started, [created, started], Recreate(started, s, snapshot, i + 1, r).trace, s);
      }
    }
  }

  lemma CurrentOwned(h: Host, s: string)
    requires h.Valid()
    ensures Owned(h, s, Ids(Of(h.containers, s)))
  {
    var cs := Of(h.containers, s);
    var ids := Ids(cs);
    forall id | id in ids ensures OwnId(h, id, s) && id < h.nextId {
      var i :| 0 <= i < |ids| && ids[i] == id;
      assert cs[i] in cs;
      OwnIdOfMember(h, cs[i], s);
    }
  }

  /** In every state of one service's rollback the others are untouched. */
  lemma RollbackServiceStates(h: Host, s: string, snapshot: Snapshot, r: RollbackEnv)
    requires h.Valid()
    ensures AllApart(h, RollbackService(h, s, snapshot, r).trace, s)
  {
    var ids := Ids(Of(h.containers, s));
    CurrentOwned(h, s);
    RemoveCurrentStates(h, ids, r, s);
    RemoveCurrentLeaves(h, ids, r, s);
    var removed := RemoveCurrent(h, ids, r);
    var mid := Final(h, removed.trace);
    RecreateStates(mid, s, snapshot, 0, r);
    AllApartAppend(h, mid, removed.trace, Recreate(mid, s, snapshot, 0, r).trace, s);
  }

  /** The host from which the rollback of the m-th of the deployed services starts, the last going first. */
  function UndoStart(h: Host, deployed: seq<string>, m: nat, before: Host, env: StackEnv): Host
    requires m < |deployed|
    decreases |deployed|
  {
    var last := |deployed| - 1;
    if m == last then h
    else UndoStart(Final(h, RollbackStep(h, deployed[last], before, env)), deployed[..last], m, before, env)
  }

  /** The states of its rollback. */
  function UndoTrace(h: Host, deployed: seq<string>, m: nat, before: Host, env: StackEnv): seq<Host>
    requires m < |deployed|
  {
    RollbackStep(UndoStart(h, deployed, m, before, env), deployed[m], before, env)
  }

  function UndoEnd(h: Host, deployed: seq<string>, m: nat, before: Host, env: StackEnv): Host
    requires m < |deployed|
  {
    Final(UndoStart(h, deployed, m, before, env), UndoTrace(h, deployed, m, before, env))
  }

  /** The service is as its own rollback left it; restored, if that worked and had something to restore. */
  ghost predicate Undone(h: Host, w: Host, deployed: seq<string>, i: nat, before: Host, env: StackEnv)
    requires i < |deployed|
  {
    && Of(w.containers, deployed[i]) == Of(UndoEnd(h, deployed, i, before, env).containers, deployed[i])
    && RolledBackAs(h, w, deployed[i], before, env)
  }

  /**
   A state of the m-th service's rollback: the services before it are still as when the rollback began, those after
   it as their own rollbacks left them, and all others untouched.
   */
  ghost predicate UndoingAt(h: Host, w: Host, deployed: seq<string>, m: nat, before: Host, env: StackEnv) {
    && m < |deployed| && w in UndoTrace(h, deployed, m, before, env)
    && Waiting(h, w, deployed, m)
    && DoneBehind(h, w, deployed, m, before, env)
  }

  ghost predicate Undoing(h: Host, w: Host, deployed: seq<string>, before: Host, env: StackEnv) {
    exists m: nat :: UndoingAt(h, w, deployed, m, before, env)
  }

  lemma NotClashingAsBefore(h: Host, mid: Host, s: string)
    requires Apart(h, mid, s)
    ensures forall t :: !Clash(s, t) ==> Of(mid.containers, t) == Of(h.containers, t)
  {
    forall t | !Clash(s, t) ensures Of(mid.containers, t) == Of(h.containers, t) {
      OthersSeeNothing(h, mid, s, t);
    }
  }

  /** The service at the end of a separate list clashes with none before it. */
  lemma LastApart(deployed: seq<string>, i: nat)
    requires i + 1 < |deployed| && Separate(deployed)
    ensures !Clash(deployed[|deployed| - 1], deployed[i])
  {
    ClearSymmetric(deployed[i], deployed[|deployed| - 1]);
  }

  lemma UndoingLast(h: Host, w: Host, deployed: seq<string>, before: Host, env: StackEnv)
    requires deployed != [] && Separate(deployed) && Apart(h, w, deployed[|deployed| - 1])
    requires w in UndoTrace(h, deployed, |deployed| - 1, before, env)
    ensures Undoing(h, w, deployed, before, env)
  {
    var s, m := deployed[|deployed| - 1], |deployed| - 1;
    NotClashingAsBefore(h, w, s);
    forall t | ClearOf(t, deployed) ensures Of(w.containers, t) == Of(h.containers, t) {
      ClearOfInit(t, deployed);
    }
    forall i | 0 <= i < m ensures Of(w.containers, deployed[i]) == Of(h.containers, deployed[i]) {
      LastApart(deployed, i);
    }
    assert UndoingAt(h, w, deployed, m, before, env);
  }

  /** Where the earlier services' rollbacks start does not change when the last one is counted in. */
  lemma UndoBeforeLast(h: Host, mid: Host, deployed: seq<string>, i: nat, before: Host, env: StackEnv)
    requires i + 1 < |deployed| && mid == UndoEnd(h, deployed, |deployed| - 1, before, env)
    ensures var init := deployed[..|deployed| - 1];
            && deployed[i] == init[i]
            && UndoTrace(h, deployed, i, before, env) == UndoTrace(mid, init, i, before, env)
            && UndoEnd(h, deployed, i, before, env) == UndoEnd(mid, init, i, before, env)
  {
  }

  lemma UndoneBeforeLast(h: Host, mid: Host, w: Host, deployed: seq<string>, i: nat, before: Host, env: StackEnv)
    requires i + 1 < |deployed| && Separate(deployed)
    requires mid == UndoEnd(h, deployed, |deployed| - 1, before, env)
    requires forall t :: !Clash(deployed[|deployed| - 1], t) ==> Of(mid.containers, t) == Of(h.containers, t)
    requires Undone(mid, w, deployed[..|deployed| - 1], i, before, env)
    ensures Undone(h, w, deployed, i, before, env)
  {
    LastApart(deployed, i);
    UndoBeforeLast(h, mid, deployed, i, before, env);
  }

  /** The services before the m-th, and all others, are as when the rollback began. */
  ghost predicate Waiting(h: Host, w: Host, deployed: seq<string>, m: nat)
    requires m <= |deployed|
  {
    && (forall i :: 0 <= i < m ==> Of(w.containers, deployed[i]) == Of(h.containers, deployed[i]))
    && (forall t :: ClearOf(t, deployed) ==> Of(w.containers, t) == Of(h.containers, t))
  }

  lemma WaitingBeforeLast(h: Host, mid: Host, w: Host, deployed: seq<string>, m: nat)
    requires m < |deployed| && Separate(deployed)
    requires forall t :: !Clash(deployed[|deployed| - 1], t) ==> Of(mid.containers, t) == Of(h.containers, t)
    requires Waiting(mid, w, deployed[..|deployed| - 1], m)
    ensures Waiting(h, w, deployed, m)
  {
    forall i | 0 <= i < m ensures Of(w.containers, deployed[i]) == Of(h.containers, deployed[i]) {
      LastApart(deployed, i);
      assert deployed[i] == deployed[..|deployed| - 1][i];
    }
    forall t | ClearOf(t, deployed) ensures Of(w.containers, t) == Of(h.containers, t) {
      ClearOfInit(t, deployed);
    }
  }

  /** The services after the m-th are undone. */
  ghost predicate DoneBehind(h: Host, w: Host, deployed: seq<string>, m: nat, before: Host, env: StackEnv) {
    forall i {:trigger Undone(h, w, deployed, i, before, env)} ::
      m < i < |deployed| ==> Undone(h, w, deployed, i, before, env)
  }

  lemma DoneBeforeLast(h: Host, mid: Host, w: Host, deployed: seq<string>, m: nat, before: Host, env: StackEnv)
    requires deployed != [] && Separate(deployed)
    requires mid == UndoEnd(h, deployed, |deployed| - 1, before, env)
    requires forall t :: !Clash(deployed[|deployed| - 1], t) ==> Of(mid.containers, t) == Of(h.containers, t)
    requires Undone(h, w, deployed, |deployed| - 1, before, env)
    requires DoneBehind(mid, w, deployed[..|deployed| - 1], m, before, env)
    ensures DoneBehind(h, w, deployed, m, before, env)
  {
    forall i | m < i < |deployed| ensures Undone(h, w, deployed, i, before, env) {
      if i < |deployed| - 1 {
        assert Undone(mid, w, deployed[..|deployed| - 1], i, before, env);
        UndoneBeforeLast(h, mid, w, deployed, i, before, env);
      }
    }
  }

  /** The position in the shorter list is the position in the whole one. */
  lemma UndoingAtBeforeLast(h: Host, mid: Host, w: Host, deployed: seq<string>, m: nat, before: Host, env: StackEnv)
    requires deployed != [] && Separate(deployed)
    requires mid == UndoEnd(h, deployed, |deployed| - 1, before, env)
    requires forall t :: !Clash(deployed[|deployed| - 1], t) ==> Of(mid.containers, t) == Of(h.containers, t)
    requires Undone(h, w, deployed, |deployed| - 1, before, env)
    requires UndoingAt(mid, w, deployed[..|deployed| - 1], m, before, env)
    ensures UndoingAt(h, w, deployed, m, before, env)
  {
    UndoBeforeLast(h, mid, deployed, m, before, env);
    WaitingBeforeLast(h, mid, w, deployed, m);
    DoneBeforeLast(h, mid, w, deployed, m, before, env);
  }

  lemma UndoingBeforeLast(h: Host, mid: Host, w: Host, deployed: seq<string>, before: Host, env: StackEnv)
    requires deployed != [] && Separate(deployed) && Apart(h, mid, deployed[|deployed| - 1])
    requires mid == UndoEnd(h, deployed, |deployed| - 1, before, env)
    requires RolledBackAs(h, mid, deployed[|deployed| - 1], before, env)
    requires Undoing(mid, w, deployed[..|deployed| - 1], before, env)
    ensures Undoing(h, w, deployed, before, env)
  {
    var s, init := deployed[|deployed| - 1], deployed[..|deployed| - 1];
    LastClear(deployed);
    NotClashingAsBefore(h, mid, s);
    var m: nat :| UndoingAt(mid, w, init, m, before, env);
    assert Of(w.containers, s) == Of(mid.containers, s);
    assert Undone(h, w, deployed, |deployed| - 1, before, env);
    UndoingAtBeforeLast(h, mid, w, deployed, m, before, env);
  }

  /** Every state of a rollback belongs to one service's, with the others before, after or outside it. */
  lemma {:induction false} RollbackStates(h: Host, deployed: seq<string>, before: Host, env: StackEnv)
    requires h.Valid() && Separate(deployed)
    ensures forall w :: w in RollbackServices(h, deployed, before, env) ==> Undoing(h, w, deployed, before, env)
    decreases |deployed|
  {
    if deployed != [] {
      var s, init := deployed[|deployed| - 1], deployed[..|deployed| - 1];
      var step := RollbackStep(h, s, before, env);
      var mid := Final(h, step);
      LastClear(deployed);
      RollbackStepRestores(h, s, before, env);
      RollbackServiceStates(h, s, Configs(Of(before.containers, s)), env.rollback(s));
      RollbackStates(mid, init, before, env);
      forall w | w in RollbackServices(h, deployed, before, env) ensures Undoing(h, w, deployed, before, env) {
        if w in step {
          UndoingLast(h, w, deployed, before, env);
        } else {
          UndoingBeforeLast(h, mid, w, deployed, before, env);
        }
      }
    }
  }

  // ---------------------------------------------------------------------------------------------
  // The turns of a deploy
  // ---------------------------------------------------------------------------------------------

  /** The states before any rollback. */
  function Forward(h: Host, order: seq<string>, input: StackInput, env: StackEnv): seq<Host>
    decreases |order|
  {
    if order == [] then []
    else if order[0] !in input.services then Forward(h, order[1..], input, env)
    else if !env.bindOk(order[0]) then []
    else
      var run := DeployService(h, RequestFor(order[0], input), env.deploy(order[0]));
      run.trace + if run.ok then Forward(Final(h, run.trace), order[1..], input, env) else []
  }

  /** The turn of a service: the host it starts on, and its own deploy. */
  datatype Turn = NotReached | Turn(start: Host, run: Run) {
    predicate Succeeded() {
      Turn? && run.ok
    }
    predicate Failed() {
      Turn? && !run.ok
    }
    function End(): Host
      requires Turn?
    {
      Final(start, run.trace)
    }
  }

  /** The turn of the k-th service, if the loop gets to deploy it: every service before it must have succeeded. */
  function TurnOf(h: Host, order: seq<string>, k: nat, input: StackInput, env: StackEnv): Turn
    requires k < |order|
    decreases k
  {
    if order[0] !in input.services then
      if k == 0 then NotReached else TurnOf(h, order[1..], k - 1, input, env)
    else if !env.bindOk(order[0]) then NotReached
    else
      var run := DeployService(h, RequestFor(order[0], input), env.deploy(order[0]));
      if k == 0 then Turn(h, run)
      else if run.ok then TurnOf(Final(h, run.trace), order[1..], k - 1, input, env)
      else NotReached
  }

  /** The services of the list that the compose file defines. */
  function Defined(order: seq<string>, input: StackInput): seq<string> {
    if order == [] then []
    else (if order[0] in input.services then [order[0]] else []) + Defined(order[1..], input)
  }

  /** The state belongs to the k-th service's turn. */
  ghost predicate InTurn(h: Host, w: Host, order: seq<string>, k: nat, input: StackInput, env: StackEnv) {
    k < |order| && TurnOf(h, order, k, input, env).Turn? && w in TurnOf(h, order, k, input, env).run.trace
  }

  ghost predicate InSomeTurn(h: Host, w: Host, order: seq<string>, input: StackInput, env: StackEnv) {
    exists k: nat :: InTurn(h, w, order, k, input, env)
  }

  /** The k-th service failed, and what follows is the rollback of those deployed before it. */
  ghost predicate FailedAt(h: Host, f: string, undo: seq<Host>, order: seq<string>, deployed: seq<string>, k: nat,
                           before: Host, input: StackInput, env: StackEnv)
  {
    && k < |order| && order[k] == f && TurnOf(h, order, k, input, env).Failed()
    && undo == RollbackServices(TurnOf(h, order, k, input, env).End(), deployed + Defined(order[..k], input), before,
                                env)
  }

  /** The trace is the states of the turns and, if one fails, those of the rollback. */
  ghost predicate TurnsThenUndo(h: Host, run: StackRun, order: seq<string>, deployed: seq<string>, before: Host,
                                input: StackInput, env: StackEnv)
  {
    var forward := Forward(h, order, input, env);
    && forward <= run.trace
    && (forall w :: w in forward ==> InSomeTurn(h, w, order, input, env))
    && if run.outcome.RolledBack? then
         exists k: nat ::
           FailedAt(h, run.outcome.service, run.trace[|forward|..], order, deployed, k, before, input, env)
       else run.trace == forward
  }

  lemma HeadDefined(order: seq<string>, input: StackInput)
    requires order != []
    ensures Defined(order[..1], input) == if order[0] in input.services then [order[0]] else []
  {
    assert order[..1][1..] == [];
  }

  lemma DefinedAfterHead(order: seq<string>, deployed: seq<string>, k: nat, input: StackInput)
    requires k < |order|
    ensures deployed + Defined(order[..1], input) + Defined(order[1..][..k], input)
            == deployed + Defined(order[..k + 1], input)
  {
    HeadDefined(order, input);
    assert order[..k + 1][0] == order[0] && order[..k + 1][1..] == order[1..][..k];
    Text.Associate(deployed, Defined(order[..1], input), Defined(order[1..][..k], input));
  }

  /** The head of the order did not stop the loop: it is not defined, or it was deployed. */
  ghost predicate HeadPassed(h: Host, order: seq<string>, after: Host, input: StackInput, env: StackEnv) {
    && order != []
    && (order[0] !in input.services ==> after == h)
    && (order[0] in input.services ==>
          TurnOf(h, order, 0, input, env).Succeeded() && after == TurnOf(h, order, 0, input, env).End())
  }

  lemma TurnAfterHead(h: Host, order: seq<string>, after: Host, k: nat, input: StackInput, env: StackEnv)
    requires HeadPassed(h, order, after, input, env) && k + 1 < |order|
    ensures TurnOf(h, order, k + 1, input, env) == TurnOf(after, order[1..], k, input, env)
  {
  }

  lemma FailedAfterHead(h: Host, f: string, undo: seq<Host>, order: seq<string>, deployed: seq<string>, before: Host,
                        input: StackInput, env: StackEnv, after: Host, k: nat)
    requires HeadPassed(h, order, after, input, env)
    requires FailedAt(after, f, undo, order[1..], deployed + Defined(order[..1], input), k, before, input, env)
    ensures FailedAt(h, f, undo, order, deployed, k + 1, before, input, env)
  {
    TurnAfterHead(h, order, after, k, input, env);
    DefinedAfterHead(order, deployed, k, input);
  }

  lemma ForwardAfterHead(h: Host, first: seq<Host>, order: seq<string>, after: Host, input: StackInput, env: StackEnv)
    requires HeadPassed(h, order, after, input, env)
    requires forall w :: w in first ==> InTurn(h, w, order, 0, input, env)
    requires forall w :: w in Forward(after, order[1..], input, env) ==> InSomeTurn(after, w, order[1..], input, env)
    ensures forall w :: w in first + Forward(after, order[1..], input, env) ==> InSomeTurn(h, w, order, input, env)
  {
    forall w | w in first + Forward(after, order[1..], input, env) ensures InSomeTurn(h, w, order, input, env) {
      if w !in first {
        assert InSomeTurn(after, w, order[1..], input, env);
        var k: nat :| InTurn(after, w, order[1..], k, input, env);
        TurnAfterHead(h, order, after, k, input, env);
        assert InTurn(h, w, order, k + 1, input, env);
      }
    }
  }

  lemma PrefixedTail(first: seq<Host>, tail: seq<Host>, trace: seq<Host>)
    requires tail <= trace
    ensures first + tail <= first + trace && (first + trace)[|first + tail|..] == trace[|tail|..]
  {
  }

  /** What the head contributes to the trace, followed by the rest. */
  lemma TurnsAfterHead(h: Host, first: seq<Host>, rest: StackRun, order: seq<string>, deployed: seq<string>,
                       before: Host, input: StackInput, env: StackEnv, after: Host)
    requires HeadPassed(h, order, after, input, env)
    requires forall w :: w in first ==> InTurn(h, w, order, 0, input, env)
    requires TurnsThenUndo(after, rest, order[1..], deployed + Defined(order[..1], input), before, input, env)
    requires Forward(h, order, input, env) == first + Forward(after, order[1..], input, env)
    ensures TurnsThenUndo(h, StackRun(first + rest.trace, rest.outcome), order, deployed, before, input, env)
  {
    var tail := Forward(after, order[1..], input, env);
    var forward, trace := first + tail, first + rest.trace;
    PrefixedTail(first, tail, rest.trace);
    ForwardAfterHead(h, first, order, after, input, env);
    if rest.outcome.RolledBack? {
      var k: nat :| FailedAt(after, rest.outcome.service, rest.trace[|tail|..], order[1..],
                             deployed + Defined(order[..1], input), k, before, input, env);
      FailedAfterHead(h, rest.outcome.service, trace[|forward|..], order, deployed, before, input, env, after, k);
    }
  }

  lemma FailingHead(h: Host, order: seq<string>, deployed: seq<string>, before: Host, input: StackInput, env: StackEnv)
    requires order != [] && TurnOf(h, order, 0, input, env).Failed()
    ensures TurnsThenUndo(h, DeployFrom(h, order, deployed, before, input, env), order, deployed, before, input, env)
  {
    var run := DeployService(h, RequestFor(order[0], input), env.deploy(order[0]));
    var undo := RollbackServices(Final(h, run.trace), deployed, before, env);
    assert (run.trace + undo)[|run.trace|..] == undo && run.trace + [] == run.trace;
    assert order[..0] == [] && deployed + [] == deployed;
    forall w | w in run.trace ensures InSomeTurn(h, w, order, input, env) {
      assert InTurn(h, w, order, 0, input, env);
    }
    assert FailedAt(h, order[0], undo, order, deployed, 0, before, input, env);
  }

  /** Every state of the loop belongs to a turn or to the rollback, for every host and every outcome. */
  lemma {:induction false} DeployFromTurns(h: Host, order: seq<string>, deployed: seq<string>, before: Host,
                                           input: StackInput, env: StackEnv)
    ensures TurnsThenUndo(h, DeployFrom(h, order, deployed, before, input, env), order, deployed, before, input, env)
    decreases |order|
  {
    if order != [] && order[0] !in input.services {
      HeadDefined(order, input);
      DeployFromTurns(h, order[1..], deployed, before, input, env);
      var rest := DeployFrom(h, order[1..], deployed, before, input, env);
      assert deployed + [] == deployed && [] + rest.trace == rest.trace;
      assert [] + Forward(h, order[1..], input, env) == Forward(h, order[1..], input, env);
      TurnsAfterHead(h, [], rest, order, deployed, before, input, env, h);
    } else if order != [] && env.bindOk(order[0]) {
      var run := DeployService(h, RequestFor(order[0], input), env.deploy(order[0]));
      var after := Final(h, run.trace);
      if run.ok {
        HeadDefined(order, input);
        DeployFromTurns(after, order[1..], deployed + [order[0]], before, input, env);
        var rest := DeployFrom(after, order[1..], deployed + [order[0]], before, input, env);
        TurnsAfterHead(h, run.trace, rest, order, deployed, before, input, env, after);
      } else {
        FailingHead(h, order, deployed, before, input, env);
      }
    }
  }

  // ---------------------------------------------------------------------------------------------
  // What a turn finds
  // ---------------------------------------------------------------------------------------------

  /** The service has been deployed, and in w is as its own deploy left it. */
  ghost predicate DeployedIn(h: Host, w: Host, order: seq<string>, j: nat, input: StackInput, env: StackEnv)
    requires j < |order|
  {
    var t := TurnOf(h, order, j, input, env);
    t.Succeeded() && Of(w.containers, order[j]) == Of(t.End().containers, order[j])
  }

  /** Every defined service before the k-th has been deployed, and is as its own deploy left it. */
  ghost predicate EarlierDeployed(h: Host, w: Host, order: seq<string>, k: nat, input: StackInput, env: StackEnv)
    requires k <= |order|
  {
    forall j :: 0 <= j < k && order[j] in input.services ==> DeployedIn(h, w, order, j, input, env)
  }

  ghost predicate SameBut(h: Host, w: Host, names: seq<string>) {
    forall t :: ClearOf(t, names) ==> Of(w.containers, t) == Of(h.containers, t)
  }

  /** The host on which the k-th turn starts: earlier services deployed, all else untouched. */
  lemma {:induction false} TurnStarts(h: Host, order: seq<string>, k: nat, input: StackInput, env: StackEnv)
    requires h.Valid() && Separate(order) && k < |order| && TurnOf(h, order, k, input, env).Turn?
    ensures order[k] in input.services && env.bindOk(order[k])
    ensures var t := TurnOf(h, order, k, input, env);
            && t.start.Valid() && t.run == DeployService(t.start, RequestFor(order[k], input), env.deploy(order[k]))
            && EarlierDeployed(h, t.start, order, k, input, env) && SameBut(h, t.start, order[..k])
    decreases k
  {
    if k > 0 {
      var s := order[0];
      HeadClear(order);
      var after := h;
      if s in input.services {
        after := TurnOf(h, order, 0, input, env).End();
        DeployTouchesOnlyItsService(h, RequestFor(s, input), env.deploy(s));
        NotClashingAsBefore(h, after, s);
      }
      TurnAfterHead(h, order, after, k - 1, input, env);
      TurnStarts(after, order[1..], k - 1, input, env);
      StartAfterHead(h, order, after, TurnOf(h, order, k, input, env).start, k, input, env);
    }
  }

  lemma StartAfterHead(h: Host, order: seq<string>, after: Host, start: Host, k: nat, input: StackInput, env: StackEnv)
    requires Separate(order) && 0 < k <= |order| && HeadPassed(h, order, after, input, env)
    requires forall t :: !Clash(order[0], t) ==> Of(after.containers, t) == Of(h.containers, t)
    requires EarlierDeployed(after, start, order[1..], k - 1, input, env) && SameBut(after, start, order[1..][..k - 1])
    ensures EarlierDeployed(h, start, order, k, input, env) && SameBut(h, start, order[..k])
  {
    HeadClear(order);
    assert order[..k] == [order[0]] + order[1..][..k - 1];
    forall j | 0 <= j < k && order[j] in input.services ensures DeployedIn(h, start, order, j, input, env) {
      if j == 0 {
        HeadClearOfRest(order, k);
      } else {
        TurnAfterHead(h, order, after, j - 1, input, env);
        assert DeployedIn(after, start, order[1..], j - 1, input, env);
      }
    }
    forall t | ClearOf(t, order[..k]) ensures Of(start.containers, t) == Of(h.containers, t) {
      assert order[0] in order[..k] && ClearOf(t, order[1..][..k - 1]);
    }
  }

  lemma HeadClearOfRest(order: seq<string>, k: nat)
    requires Separate(order) && 0 < k <= |order|
    ensures ClearOf(order[0], order[1..][..k - 1])
  {
    HeadClear(order);
    forall n | n in order[1..][..k - 1] ensures !Clash(n, order[0]) {
      assert n in order[1..];
      ClearSymmetric(order[0], n);
    }
  }

  /** The names other than the k-th of a separate list do not clash with it. */
  lemma PositionApart(order: seq<string>, k: nat, i: nat)
    requires Separate(order) && k < |order| && i < |order| && i != k
    ensures !Clash(order[k], order[i])
  {
    ClearSymmetric(order[k], order[i]);
  }

  /** A state of the k-th turn: earlier services as their own deploys left them, later ones as before. */
  ghost predicate At(h: Host, w: Host, order: seq<string>, k: nat, input: StackInput, env: StackEnv) {
    && InTurn(h, w, order, k, input, env)
    && EarlierDeployed(h, w, order, k, input, env)
    && SameBut(h, w, order[..k + 1])
  }

  /** The k-th turn leaves the earlier services and the later ones alone, in each of its states and at its end. */
  lemma TurnKeeps(h: Host, w: Host, order: seq<string>, k: nat, input: StackInput, env: StackEnv)
    requires h.Valid() && Separate(order) && k < |order| && TurnOf(h, order, k, input, env).Turn?
    requires Apart(TurnOf(h, order, k, input, env).start, w, order[k])
    ensures EarlierDeployed(h, w, order, k, input, env) && SameBut(h, w, order[..k + 1])
  {
    var t := TurnOf(h, order, k, input, env);
    TurnStarts(h, order, k, input, env);
    NotClashingAsBefore(t.start, w, order[k]);
    forall j | 0 <= j < k && order[j] in input.services ensures DeployedIn(h, w, order, j, input, env) {
      PositionApart(order, k, j);
      assert DeployedIn(h, t.start, order, j, input, env);
    }
    assert order[..k + 1] == order[..k] + [order[k]];
    forall s | ClearOf(s, order[..k + 1]) ensures Of(w.containers, s) == Of(h.containers, s) {
      assert ClearOf(s, order[..k]) && order[k] in order[..k + 1];
    }
  }

  lemma InTurnIsAt(h: Host, w: Host, order: seq<string>, k: nat, input: StackInput, env: StackEnv)
    requires h.Valid() && Separate(order) && InTurn(h, w, order, k, input, env)
    ensures At(h, w, order, k, input, env)
  {
    TurnStarts(h, order, k, input, env);
    DeployTouchesOnlyItsService(TurnOf(h, order, k, input, env).start, RequestFor(order[k], input),
                                env.deploy(order[k]));
    TurnKeeps(h, w, order, k, input, env);
  }

  /** Later services, said by position. */
  lemma LaterByPosition(h: Host, w: Host, order: seq<string>, k: nat, i: nat)
    requires Separate(order) && k < i < |order| && SameBut(h, w, order[..k + 1])
    ensures Of(w.containers, order[i]) == Of(h.containers, order[i])
  {
    forall n | n in order[..k + 1] ensures !Clash(n, order[i]) {
      var j :| 0 <= j < k + 1 && order[j] == n;
    }
  }

  // ---------------------------------------------------------------------------------------------
  // Main results
  // ---------------------------------------------------------------------------------------------

  lemma {:induction false} DefinedSeparate(order: seq<string>, input: StackInput)
    requires Separate(order)
    ensures Separate(Defined(order, input))
    ensures forall n :: n in Defined(order, input) <==> n in order && n in input.services
  {
    if order != [] {
      HeadClear(order);
      DefinedSeparate(order[1..], input);
      var tail := Defined(order[1..], input);
      assert forall i :: 0 <= i < |tail| ==> tail[i] in tail;
    }
  }

  lemma PrefixSeparate(order: seq<string>, k: nat)
    requires Separate(order) && k <= |order|
    ensures Separate(order[..k])
  {
  }

  /** A state of the rollback after the k-th service failed; all behind that service is as before. */
  ghost predicate UndoingFrom(h: Host, w: Host, order: seq<string>, k: nat, input: StackInput, env: StackEnv) {
    && k < |order| && TurnOf(h, order, k, input, env).Failed()
    && Undoing(TurnOf(h, order, k, input, env).End(), w, Defined(order[..k], input), h, env)
    && SameBut(h, w, order[..k + 1])
  }

  lemma UndoKeepsOthers(h: Host, order: seq<string>, k: nat, input: StackInput, env: StackEnv, w: Host)
    requires h.Valid() && Separate(order) && k < |order| && TurnOf(h, order, k, input, env).Failed()
    requires w in RollbackServices(TurnOf(h, order, k, input, env).End(), Defined(order[..k], input), h, env)
    ensures UndoingFrom(h, w, order, k, input, env)
  {
    var t, done := TurnOf(h, order, k, input, env), Defined(order[..k], input);
    TurnStarts(h, order, k, input, env);
    DeployTouchesOnlyItsService(t.start, RequestFor(order[k], input), env.deploy(order[k]));
    TurnKeeps(h, t.End(), order, k, input, env);
    PrefixSeparate(order, k);
    DefinedSeparate(order[..k], input);
    RollbackStates(t.End(), done, h, env);
    assert Undoing(t.End(), w, done, h, env);
    forall s | ClearOf(s, order[..k + 1]) ensures Of(w.containers, s) == Of(h.containers, s) {
      assert ClearOf(s, done);
    }
  }

  /**
   Every state of a deploy. Before any rollback it belongs to the turn of one service: the ones before it have been
   deployed and are as their own deploys left them, and all behind it is as before. During a rollback it belongs to
   the rollback of one of the services deployed before the failed one: those before it are as deployed, those after
   it as their own rollbacks left them, and all behind the failed service is as before. Nothing needs to succeed
   for that.
   */
  lemma EveryState(h: Host, order: seq<string>, input: StackInput, env: StackEnv)
    requires h.Valid() && Separate(order) && env.prepared
    ensures var run, forward := ExecuteDeploy(h, order, input, env), Forward(h, order, input, env);
            && run.trace == forward + Backward(h, order, input, env)
            && (forall w :: w in forward ==> exists k: nat :: At(h, w, order, k, input, env))
            && (forall w :: w in Backward(h, order, input, env) ==>
                  exists k: nat :: UndoingFrom(h, w, order, k, input, env) && run.outcome == RolledBack(order[k]))
  {
    var run, forward := ExecuteDeploy(h, order, input, env), Forward(h, order, input, env);
    DeployFromTurns(h, order, [], h, input, env);
    forall w | w in forward ensures exists k: nat :: At(h, w, order, k, input, env) {
      assert InSomeTurn(h, w, order, input, env);
      var k: nat :| InTurn(h, w, order, k, input, env);
      InTurnIsAt(h, w, order, k, input, env);
    }
    if run.outcome.RolledBack? {
      var k: nat :| FailedAt(h, run.outcome.service, run.trace[|forward|..], order, [], k, h, input, env);
      assert [] + Defined(order[..k], input) == Defined(order[..k], input);
      forall w | w in run.trace[|forward|..] ensures UndoingFrom(h, w, order, k, input, env) {
        UndoKeepsOthers(h, order, k, input, env, w);
      }
    }
  }

  /** Before any rollback, a service whose containers have changed in any way has seen every one before it succeed. */
  lemma ChangeNeedsEarlierDeployed(h: Host, order: seq<string>, input: StackInput, env: StackEnv, w: Host, i: nat,
                                   j: nat)
    requires h.Valid() && Separate(order) && env.prepared && w in Forward(h, order, input, env)
    requires i < |order| && Of(w.containers, order[i]) != Of(h.containers, order[i])
    requires j < i && order[j] in input.services
    ensures env.bindOk(order[j]) && DeployedIn(h, w, order, j, input, env)
  {
    EveryState(h, order, input, env);
    var k: nat :| At(h, w, order, k, input, env);
    if k < i {
      LaterByPosition(h, w, order, k, i);
    }
    assert DeployedIn(h, w, order, j, input, env);
    TurnStarts(h, order, j, input, env);
  }

  /** The states of the rollback: what the trace holds behind the forward states. */
  function Backward(h: Host, order: seq<string>, input: StackInput, env: StackEnv): seq<Host> {
    var n, trace := |Forward(h, order, input, env)|, ExecuteDeploy(h, order, input, env).trace;
    if n <= |trace| then trace[n..] else []
  }

  /** During a rollback, the services behind the failed one have exactly the containers they had. */
  lemma BehindFailureUntouched(h: Host, order: seq<string>, input: StackInput, env: StackEnv, w: Host, k: nat, i: nat)
    requires h.Valid() && Separate(order) && env.prepared && k < i < |order|
    requires ExecuteDeploy(h, order, input, env).outcome == RolledBack(order[k])
    requires w in Backward(h, order, input, env)
    ensures Of(w.containers, order[i]) == Of(h.containers, order[i])
  {
    EveryState(h, order, input, env);
    var at: nat :| UndoingFrom(h, w, order, at, input, env) && RolledBack(order[at]) == RolledBack(order[k]);
    if at != k {
      PositionApart(order, k, at);
    }
    LaterByPosition(h, w, order, k, i);
  }

  /**
   Until a rollback starts, a service has a container it did not have before only once everything it depends on has
   been deployed with success, and stands as its own deploy left it.
   */
  lemma DependenciesComeUpFirst(h: Host, order: seq<string>, input: StackInput, env: StackEnv, g: DependencyOrder.Graph,
                                w: Host, i: nat, c: Container, d: string)
    requires h.Valid() && Separate(order) && env.prepared && DependencyOrder.DependenciesFirst(g, order)
    requires w in Forward(h, order, input, env) && i < |order|
    requires c in Of(w.containers, order[i]) && c !in Of(h.containers, order[i])
    requires d in DependencyOrder.Deps(g, order[i]) && d in input.services
    ensures exists j :: 0 <= j < i && order[j] == d && DeployedIn(h, w, order, j, input, env)
  {
    assert d in order[..i];
    var j :| 0 <= j < i && order[j] == d;
    ChangeNeedsEarlierDeployed(h, order, input, env, w, i, j);
  }

  /** What was deployed has converged, if its removals worked. */
  lemma DeployedHasConverged(h: Host, w: Host, order: seq<string>, j: nat, input: StackInput, env: StackEnv)
    requires h.Valid() && Separate(order) && j < |order| && DeployedIn(h, w, order, j, input, env)
    ensures order[j] in input.services && Converged(w, order[j], input, env)
  {
    TurnStarts(h, order, j, input, env);
    if TeardownsSucceed(env.deploy(order[j])) {
      DeployConverges(TurnOf(h, order, j, input, env).start, RequestFor(order[j], input), env.deploy(order[j]));
    }
  }

  /** With clean failures, the service whose deploy fails has the containers it had, all through the rollback. */
  lemma FailingServiceKeeps(h: Host, order: seq<string>, input: StackInput, env: StackEnv, k: nat, w: Host)
    requires h.Valid() && Separate(order) && UndoingFrom(h, w, order, k, input, env)
    requires order[k] in input.services
    requires FailsCleanly(TurnOf(h, order, k, input, env).start, RequestFor(order[k], input), env.deploy(order[k]))
    ensures SameShape(Of(h.containers, order[k]), Of(w.containers, order[k]))
  {
    var t := TurnOf(h, order, k, input, env);
    TurnStarts(h, order, k, input, env);
    ClearOfOthers(order, k);
    FailingServiceNotUndone(h, order, input, env, k, w);
    CleanTurnKeeps(h, w, t, RequestFor(order[k], input), env.deploy(order[k]));
  }

  lemma CleanTurnKeeps(h: Host, w: Host, t: Turn, req: Request, env: Env)
    requires t.Failed() && t.run == DeployService(t.start, req, env) && FailsCleanly(t.start, req, env)
    requires Of(t.start.containers, req.name) == Of(h.containers, req.name)
    requires Of(w.containers, req.name) == Of(t.End().containers, req.name)
    ensures SameShape(Of(h.containers, req.name), Of(w.containers, req.name))
  {
  }

  lemma FailingServiceNotUndone(h: Host, order: seq<string>, input: StackInput, env: StackEnv, k: nat, w: Host)
    requires Separate(order) && UndoingFrom(h, w, order, k, input, env)
    ensures Of(w.containers, order[k]) == Of(TurnOf(h, order, k, input, env).End().containers, order[k])
  {
    ClearOfOthers(order, k);
    PrefixSeparate(order, k);
    DefinedSeparate(order[..k], input);
    assert ClearOf(order[k], Defined(order[..k], input));
  }

  lemma ClearOfOthers(order: seq<string>, k: nat)
    requires Separate(order) && k < |order|
    ensures ClearOf(order[k], order[..k])
  {
    forall n | n in order[..k] ensures !Clash(n, order[k]) {
      var j :| 0 <= j < k && order[j] == n;
    }
  }

  // ---------------------------------------------------------------------------------------------
  // Availability of the whole stack
  // ---------------------------------------------------------------------------------------------

  /** The deploy of the service cannot go below its floor: its accepted replicas live, or enough containers stay. */
  ghost predicate FloorSafe(h: Host, req: Request, env: Env) {
    AllServe(h, req.name) && (AllAlive(env) || KeptCount(h, req) >= FloorFor(h, req))
  }

  /** The floor depends only on the service's own containers. */
  lemma FloorOfOwn(h: Host, g: Host, req: Request, env: Env)
    requires Of(g.containers, req.name) == Of(h.containers, req.name)
    ensures FloorSafe(g, req, env) == FloorSafe(h, req, env) && FloorFor(g, req) == FloorFor(h, req)
  {
  }

  lemma TurnKeepsFloor(g: Host, req: Request, env: Env, w: Host)
    requires g.Valid() && FloorSafe(g, req, env)
    requires w in DeployService(g, req, env).trace || w == Final(g, DeployService(g, req, env).trace)
    ensures ServingIn(w, req.name) >= FloorFor(g, req)
  {
    RollingUpdateStaysWithin(g, req, env);
    ServingBounds(Of(g.containers, req.name), []);
    var trace := DeployService(g, req, env).trace;
    if w in trace {
      assert Within(g, w, req.name, Limits(FloorFor(g, req), CeilingFor(g, req), TeardownsSucceed(env)));
    }
  }

  /** Until a rollback starts, every service of the order keeps its floor, in every state. */
  lemma StackKeepsFloor(h: Host, order: seq<string>, input: StackInput, env: StackEnv, w: Host, i: nat)
    requires h.Valid() && Separate(order) && env.prepared && w in Forward(h, order, input, env)
    requires i < |order| && order[i] in input.services
    requires FloorSafe(h, RequestFor(order[i], input), env.deploy(order[i]))
    ensures ServingIn(w, order[i]) >= FloorFor(h, RequestFor(order[i], input))
  {
    var req := RequestFor(order[i], input);
    EveryState(h, order, input, env);
    var k: nat :| At(h, w, order, k, input, env);
    if k < i {
      LaterByPosition(h, w, order, k, i);
      ServingBounds(Of(h.containers, order[i]), []);
    } else {
      if i < k {
        assert DeployedIn(h, w, order, i, input, env);
      }
      var t := TurnOf(h, order, i, input, env);
      TurnStarts(h, order, i, input, env);
      ClearOfOthers(order, i);
      FloorOfOwn(h, t.start, req, env.deploy(order[i]));
      TurnKeepsFloor(t.start, req, env.deploy(order[i]), if i < k then t.End() else w);
    }
  }

  /** A rollback has no floor: one that works and has something to restore first leaves its service with nothing. */
  lemma RollbackEmptiesService(h: Host, s: string, snapshot: Snapshot, r: RollbackEnv)
    requires h.Valid() && snapshot != [] && RollbackWorks(r)
    ensures exists w :: w in [h] + RollbackService(h, s, snapshot, r).trace && Of(w.containers, s) == []
  {
    var cs := Of(h.containers, s);
    var removed := RemoveCurrent(h, Ids(cs), r);
    var mid := Final(h, removed.trace);
    CurrentOwned(h, s);
    RemoveCurrentLeaves(h, Ids(cs), r, s);
    RemoveCurrentSucceeds(h, Ids(cs), r);
    NothingLeft(cs, Of(mid.containers, s));
    assert mid in [h] + removed.trace;
  }
}
