/**
The `ip_forward` hand-over between builds and VMs, one system call at a time.

Each of them reads the value, writes "1", adds its table, and on the way out deletes
the table.  A build then lists the `umf-nat` tables that remain and, if there are
none, writes the value it found back; a VM, whose table is not among those, writes
it back at once.  Any number of them interleave between any two calls; whether a
call succeeds is an argument of the action.
*/
module EgressRace {
  import opened Wrappers
  import EgressWorld

  /** The block of each build, and who is a VM. */
  datatype Setting = Setting(blockOf: nat -> nat, isVm: nat -> bool)

  /** Where a build or VM stands; `restore` is the value it has to put back, if any. */
  datatype Stage =
    | Starting
    | HasRead(prior: Option<string>)
    | Enabled(restore: Option<string>)   // forwarding written, table not yet added
    | Live(restore: Option<string>)      // table added
    | Undoing(restore: Option<string>)   // setup failed
    | Listing(restore: Option<string>)   // table deleted
    | Restoring(value: string)           // saw no table, about to write
    | Done

  /** `stages` holds those that have made a call; `tables` the blocks with a `umf-nat` table. */
  datatype State = State(forward: string, tables: set<nat>, stages: map<nat, Stage>)

  datatype Action =
    | ReadForward(id: nat, ok: bool)
    | WriteOn(id: nat, ok: bool)
    | AddTable(id: nat, ok: bool)
    | DeleteTable(id: nat, ok: bool)
    | ListTables(id: nat, ok: bool)
    | WriteBack(id: nat, ok: bool)

  function Init(value: string): State {
    State(value, {}, map[])
  }

  function StageOf(s: State, id: nat): Stage {
    if id in s.stages then s.stages[id] else Starting
  }

  function Moved(s: State, id: nat, stage: Stage): (t: State)
    ensures t.forward == s.forward && t.tables == s.tables
    ensures forall x :: StageOf(t, x) == if x == id then stage else StageOf(s, x)
  {
    s.(stages := s.stages[id := stage])
  }

  function DoReadForward(s: State, id: nat, ok: bool): Option<State> {
    match StageOf(s, id)
    case Starting => Some(Moved(s, id, HasRead(if ok then Some(s.forward) else None)))
    case _ => None
  }

  function DoWriteOn(s: State, id: nat, ok: bool): Option<State> {
    match StageOf(s, id)
    case HasRead(prior) =>
      if ok then Some(Moved(s.(forward := "1"), id, Enabled(EgressWorld.ForwardRestoreTarget(prior))))
      else Some(Moved(s, id, Undoing(None)))
    case _ => None
  }

  function DoAddTable(env: Setting, s: State, id: nat, ok: bool): Option<State> {
    match StageOf(s, id)
    case Enabled(r) =>
      if ok && env.isVm(id) then Some(Moved(s, id, Live(r)))
      else if ok then Some(Moved(s.(tables := s.tables + {env.blockOf(id)}), id, Live(r)))
      else Some(Moved(s, id, Undoing(r)))
    case _ => None
  }

  /** After its table is gone a build lists the others; a VM goes straight on. */
  function Leave(env: Setting, s: State, id: nat, r: Option<string>, ok: bool): State {
    if env.isVm(id) then Moved(s, id, if r.Some? then Restoring(r.value) else Done)
    else Moved(if ok then s.(tables := s.tables - {env.blockOf(id)}) else s, id, Listing(r))
  }

  function DoDeleteTable(env: Setting, s: State, id: nat, ok: bool): Option<State> {
    match StageOf(s, id)
    case Live(r) => Some(Leave(env, s, id, r, ok))
    case Undoing(r) => Some(Leave(env, s, id, r, ok))
    case _ => None
  }

  function DoListTables(s: State, id: nat, ok: bool): Option<State> {
    match StageOf(s, id)
    case Listing(r) =>
      if r.Some? && ok && s.tables == {} then Some(Moved(s, id, Restoring(r.value)))
      else Some(Moved(s, id, Done))
    case _ => None
  }

  function DoWriteBack(s: State, id: nat, ok: bool): Option<State> {
    match StageOf(s, id)
    case Restoring(v) => Some(Moved(if ok then s.(forward := v) else s, id, Done))
    case _ => None
  }

  /** One call of one build: `None` when the build does not stand before that call. */
  function Step(env: Setting, s: State, a: Action): Option<State> {
    match a
    case ReadForward(id, ok) => DoReadForward(s, id, ok)
    case WriteOn(id, ok) => DoWriteOn(s, id, ok)
    case AddTable(id, ok) => DoAddTable(env, s, id, ok)
    case DeleteTable(id, ok) => DoDeleteTable(env, s, id, ok)
    case ListTables(id, ok) => DoListTables(s, id, ok)
    case WriteBack(id, ok) => DoWriteBack(s, id, ok)
  }

  function Run(env: Setting, s: State, actions: seq<Action>): Option<State>
    decreases |actions|
  {
    if actions == [] then Some(s)
    else
      match Step(env, s, actions[0])
      case None => None
      case Some(t) => Run(env, t, actions[1..])
  }

  // ------------------------------------------------- what every interleaving keeps

  /** The value a build read or holds is the host's own. */
  predicate HoldsOnly(stage: Stage, initial: string) {
    match stage
    case HasRead(prior) => prior.Some? ==> prior.value == "1" || prior.value == initial
    case Enabled(r) => r.Some? ==> r.value == initial != "1"
    case Live(r) => r.Some? ==> r.value == initial != "1"
    case Undoing(r) => r.Some? ==> r.value == initial != "1"
    case Listing(r) => r.Some? ==> r.value == initial != "1"
    case Restoring(v) => v == initial != "1"
    case _ => true
  }

  ghost predicate Genuine(s: State, initial: string) {
    && (s.forward == "1" || s.forward == initial)
    && forall id :: HoldsOnly(StageOf(s, id), initial)
  }

  lemma StepKeepsGenuine(env: Setting, s: State, a: Action, initial: string)
    requires Genuine(s, initial) && Step(env, s, a).Some?
    ensures Genuine(Step(env, s, a).value, initial)
  {
    var t := Step(env, s, a).value;
    assert HoldsOnly(StageOf(s, a.id), initial);
    forall id ensures HoldsOnly(StageOf(t, id), initial) {
      assert HoldsOnly(StageOf(s, id), initial);
    }
  }

  /** Whatever the interleaving, forwarding is "1" or the host's own value, and only that is ever restored. */
  lemma {:induction false} RunKeepsGenuine(env: Setting, s: State, actions: seq<Action>, initial: string)
    requires Genuine(s, initial) && Run(env, s, actions).Some?
    ensures Genuine(Run(env, s, actions).value, initial)
    decreases |actions|
  {
    if actions != [] {
      StepKeepsGenuine(env, s, actions[0], initial);
      RunKeepsGenuine(env, Step(env, s, actions[0]).value, actions[1..], initial);
    }
  }

  // ------------------------------------------------ forwarding under a live build

  ghost predicate SomeLive(s: State) {
    exists id :: StageOf(s, id).Live?
  }

  /** A build is live while forwarding is off. */
  ghost predicate Harmed(s: State) {
    s.forward != "1" && SomeLive(s)
  }

  /** Somebody relies on forwarding: a build is live or has written "1", or a table exists. */
  ghost predicate InUse(s: State) {
    s.tables != {} || exists id :: StageOf(s, id).Enabled? || StageOf(s, id).Live?
  }

  ghost predicate Upheld(s: State) {
    InUse(s) ==> s.forward == "1"
  }

  /** A value is written back while somebody relies on forwarding. */
  ghost predicate LateRestore(s: State, a: Action) {
    a.WriteBack? && a.ok && InUse(s)
  }

  ghost predicate Punctual(env: Setting, s: State, actions: seq<Action>)
    decreases |actions|
  {
    actions != [] ==>
      && !LateRestore(s, actions[0])
      && (Step(env, s, actions[0]).Some? ==> Punctual(env, Step(env, s, actions[0]).value, actions[1..]))
  }

  lemma PunctualStep(env: Setting, s: State, a: Action)
    requires Upheld(s) && Step(env, s, a).Some? && !LateRestore(s, a)
    ensures Upheld(Step(env, s, a).value)
  {
    var t := Step(env, s, a).value;
    if exists id :: StageOf(t, id).Enabled? || StageOf(t, id).Live? {
      var id :| StageOf(t, id).Enabled? || StageOf(t, id).Live?;
      assert StageOf(s, id).Enabled? || StageOf(s, id).Live? || a == WriteOn(id, true);
    }
  }

  /** Without a late restore, forwarding is on under every table and every live build, in every interleaving. */
  lemma {:induction false} PunctualRunsForward(env: Setting, s: State, actions: seq<Action>)
    requires Upheld(s) && Run(env, s, actions).Some? && Punctual(env, s, actions)
    ensures var t := Run(env, s, actions).value;
      Upheld(t) && !Harmed(t) && (t.tables != {} ==> t.forward == "1")
    decreases |actions|
  {
    if actions != [] {
      PunctualStep(env, s, actions[0]);
      PunctualRunsForward(env, Step(env, s, actions[0]).value, actions[1..]);
    }
  }

  // -------------------------------------------------------- the exact condition

  /** Some build is live without forwarding now or later in the run. */
  ghost predicate HarmAhead(env: Setting, s: State, actions: seq<Action>)
    decreases |actions|
  {
    || Harmed(s)
    || (actions != [] && Step(env, s, actions[0]).Some?
        && HarmAhead(env, Step(env, s, actions[0]).value, actions[1..]))
  }

  /** A table is added before anybody writes "1" again. */
  predicate AddsBeforeOn(actions: seq<Action>) {
    actions != [] && !(actions[0].WriteOn? && actions[0].ok) &&
    ((actions[0].AddTable? && actions[0].ok) || AddsBeforeOn(actions[1..]))
  }

  /** A write-back overtakes a build: one that is live, or one that goes live before the next write of "1". */
  ghost predicate Overtakes(s: State, actions: seq<Action>) {
    actions != [] && actions[0].WriteBack? && actions[0].ok && (SomeLive(s) || AddsBeforeOn(actions[1..]))
  }

  ghost predicate OvertakenAhead(env: Setting, s: State, actions: seq<Action>)
    decreases |actions|
  {
    actions != [] && Step(env, s, actions[0]).Some? &&
    (Overtakes(s, actions) || OvertakenAhead(env, Step(env, s, actions[0]).value, actions[1..]))
  }

  /** What a build that adds its table before anybody writes "1" must already have written. */
  lemma {:induction false} AddingWasEnabled(env: Setting, s: State, actions: seq<Action>)
    requires Run(env, s, actions).Some? && AddsBeforeOn(actions)
    ensures exists id :: StageOf(s, id).Enabled?
    decreases |actions|
  {
    var a := actions[0];
    if a.AddTable? && a.ok {
      assert StageOf(s, a.id).Enabled?;
    } else {
      var t := Step(env, s, a).value;
      AddingWasEnabled(env, t, actions[1..]);
      var id :| StageOf(t, id).Enabled?;
      assert StageOf(s, id).Enabled?;
    }
  }

  /** One step of the argument: how harm ahead of `s` comes about. */
  ghost predicate HarmDue(s: State, actions: seq<Action>) {
    s.forward != "1" && (SomeLive(s) || AddsBeforeOn(actions))
  }

  lemma HarmDueStep(env: Setting, s: State, actions: seq<Action>, initial: string)
    requires Genuine(s, initial) && actions != [] && Step(env, s, actions[0]).Some?
    ensures var t := Step(env, s, actions[0]).value;
      Harmed(s) || HarmDue(t, actions[1..]) <==> HarmDue(s, actions) || Overtakes(s, actions)
  {
    var a := actions[0];
    var t := Step(env, s, a).value;
    assert HoldsOnly(StageOf(s, a.id), initial);
    LiveStep(env, s, a);
  }

  lemma LiveStep(env: Setting, s: State, a: Action)
    requires Step(env, s, a).Some?
    ensures var t := Step(env, s, a).value;
      && (SomeLive(t) ==> SomeLive(s) || (a.AddTable? && a.ok))
      && (a.AddTable? && a.ok ==> SomeLive(t))
      && (SomeLive(s) && !a.DeleteTable? ==> SomeLive(t))
  {
    var t := Step(env, s, a).value;
    if SomeLive(t) {
      var id :| StageOf(t, id).Live?;
      assert StageOf(s, id).Live? || a == AddTable(id, true);
    }
    if SomeLive(s) && !a.DeleteTable? {
      var id :| StageOf(s, id).Live?;
      assert StageOf(t, id).Live?;
    }
    if a.AddTable? && a.ok { assert StageOf(t, a.id).Live?; }
  }

  lemma {:induction false} HarmFromHere(env: Setting, s: State, actions: seq<Action>, initial: string)
    requires Genuine(s, initial) && Run(env, s, actions).Some?
    ensures HarmAhead(env, s, actions) <==> HarmDue(s, actions) || OvertakenAhead(env, s, actions)
    decreases |actions|
  {
    if actions != [] {
      var t := Step(env, s, actions[0]).value;
      StepKeepsGenuine(env, s, actions[0], initial);
      HarmDueStep(env, s, actions, initial);
      HarmFromHere(env, t, actions[1..], initial);
    }
  }

  /**
  The exact condition, for every interleaving: some live build is without forwarding
  at some point if and only if a write-back lands while a build is live, or while
  one has written "1" and adds its table before anybody writes "1" again.
  */
  lemma HarmedIffOvertaken(env: Setting, value: string, actions: seq<Action>)
    requires Run(env, Init(value), actions).Some?
    ensures HarmAhead(env, Init(value), actions) <==> OvertakenAhead(env, Init(value), actions)
  {
    HarmFromHere(env, Init(value), actions, value);
    if AddsBeforeOn(actions) { AddingWasEnabled(env, Init(value), actions); }
  }

  // ------------------------------------------------------------------ two runs

  lemma {:induction false} RunAlong(env: Setting, states: seq<State>, actions: seq<Action>)
    requires |states| == |actions| + 1
    requires forall i :: 0 <= i < |actions| ==> Step(env, states[i], actions[i]) == Some(states[i + 1])
    ensures Run(env, states[0], actions) == Some(states[|actions|])
  {
    if actions != [] {
      assert forall i :: 0 <= i < |actions[1..]| ==>
        Step(env, states[1..][i], actions[1..][i]) == Some(states[1..][i + 1]);
      RunAlong(env, states[1..], actions[1..]);
    }
  }

  lemma {:induction false} RunConcat(env: Setting, s: State, first: seq<Action>, rest: seq<Action>)
    requires Run(env, s, first).Some?
    ensures Run(env, s, first + rest) == Run(env, Run(env, s, first).value, rest)
    decreases |first|
  {
    if first == [] {
      assert first + rest == rest;
    } else {
      assert (first + rest)[1..] == first[1..] + rest;
      RunConcat(env, Step(env, s, first[0]).value, first[1..], rest);
    }
  }

  /** A build from its start until it has seen that no table remains. */
  function UpToListing(id: nat): seq<Action> {
    [ReadForward(id, true), WriteOn(id, true), AddTable(id, true), DeleteTable(id, true), ListTables(id, true)]
  }

  lemma ReachRestoring(env: Setting, id: nat, value: string) returns (s: State)
    requires value != "1" && !env.isVm(id)
    ensures Run(env, Init(value), UpToListing(id)) == Some(s)
    ensures s.forward == "1" && s.tables == {}
    ensures forall x :: StageOf(s, x) == if x == id then Restoring(value) else Starting
  {
    var s0 := Init(value);
    var s1 := Moved(s0, id, HasRead(Some(value)));
    var s2 := Moved(s1.(forward := "1"), id, Enabled(Some(value)));
    var s3 := Moved(s2.(tables := {env.blockOf(id)}), id, Live(Some(value)));
    var s4 := Moved(s3.(tables := {}), id, Listing(Some(value)));
    s := Moved(s4, id, Restoring(value));
    assert s2.tables + {env.blockOf(id)} == s3.tables && s3.tables - {env.blockOf(id)} == {};
    RunAlong(env, [s0, s1, s2, s3, s4, s], UpToListing(id));
  }

  /** `b` comes up, and only then `a` writes back. */
  function ThenOvertaken(a: nat, b: nat): seq<Action> {
    [ReadForward(b, true), WriteOn(b, true), AddTable(b, true), WriteBack(a, true)]
  }

  /** No call fails, yet forwarding is off under the table of `b`. */
  lemma CheckThenWriteCanBreak(env: Setting, a: nat, b: nat, value: string)
    requires a != b && value != "1" && !env.isVm(a) && !env.isVm(b)
    ensures var end := Run(env, Init(value), UpToListing(a) + ThenOvertaken(a, b));
      end.Some? && Harmed(end.value) && StageOf(end.value, b).Live? && env.blockOf(b) in end.value.tables
  {
    var s0 := ReachRestoring(env, a, value);
    RunConcat(env, Init(value), UpToListing(a), ThenOvertaken(a, b));
    var s1 := Moved(s0, b, HasRead(Some(s0.forward)));
    assert EgressWorld.ForwardRestoreTarget(Some(s0.forward)) == None;
    var s2 := Moved(s1.(forward := "1"), b, Enabled(None));
    var s3 := Moved(s2.(tables := s2.tables + {env.blockOf(b)}), b, Live(None));
    assert StageOf(s3, a) == StageOf(s0, a) == Restoring(value);
    var s4 := DoWriteBack(s3, a, true).value;
    RunAlong(env, [s0, s1, s2, s3, s4], ThenOvertaken(a, b));
    assert StageOf(s4, b).Live?;
  }

  function BothUp(a: nat, b: nat): seq<Action> {
    [ReadForward(a, true), WriteOn(a, true), AddTable(a, true), ReadForward(b, true), WriteOn(b, true), AddTable(b, true)]
  }

  lemma ReachBothUp(env: Setting, a: nat, b: nat, value: string) returns (s: State)
    requires a != b && value != "1" && env.blockOf(a) == env.blockOf(b) && !env.isVm(a) && !env.isVm(b)
    ensures Run(env, Init(value), BothUp(a, b)) == Some(s)
    ensures s.forward == "1" && s.tables == {env.blockOf(a)}
    ensures StageOf(s, a) == Live(Some(value)) && StageOf(s, b) == Live(None)
  {
    var block := env.blockOf(a);
    var s0 := Init(value);
    var s1 := Moved(s0, a, HasRead(Some(value)));
    var s2 := Moved(s1.(forward := "1"), a, Enabled(Some(value)));
    var s3 := Moved(s2.(tables := {block}), a, Live(Some(value)));
    var s4 := Moved(s3, b, HasRead(Some("1")));
    var s5 := Moved(s4.(forward := "1"), b, Enabled(None));
    s := Moved(s5.(tables := {block}), b, Live(None));
    assert s2.tables + {block} == {block} && s5.tables + {block} == {block};
    RunAlong(env, [s0, s1, s2, s3, s4, s5, s], BothUp(a, b));
  }

  function ThenLeaves(a: nat): seq<Action> {
    [DeleteTable(a, true), ListTables(a, true), WriteBack(a, true)]
  }

  /**
  Two builds with one block, as after the kernel removed the veth of `a` early: `a`
  deletes the table they share, finds none, and takes forwarding from `b`.  No
  table is left, so looking at tables would not show it.
  */
  lemma SharedBlockCanBreak(env: Setting, a: nat, b: nat, value: string)
    requires a != b && value != "1" && env.blockOf(a) == env.blockOf(b) && !env.isVm(a) && !env.isVm(b)
    ensures var end := Run(env, Init(value), BothUp(a, b) + ThenLeaves(a));
      end.Some? && Harmed(end.value) && StageOf(end.value, b).Live? && end.value.tables == {}
  {
    var s0 := ReachBothUp(env, a, b, value);
    RunConcat(env, Init(value), BothUp(a, b), ThenLeaves(a));
    var s1 := Moved(s0.(tables := s0.tables - {env.blockOf(a)}), a, Listing(Some(value)));
    assert s1.tables == {};
    var s2 := Moved(s1, a, Restoring(value));
    var s3 := Moved(s2.(forward := value), a, Done);
    RunAlong(env, [s0, s1, s2, s3], ThenLeaves(a));
    assert StageOf(s3, b) == StageOf(s0, b);
  }

  function VmThenBuild(v: nat, b: nat): seq<Action> {
    [ReadForward(v, true), WriteOn(v, true), AddTable(v, true), ReadForward(b, true), WriteOn(b, true), AddTable(b, true),
     DeleteTable(v, true), WriteBack(v, true)]
  }

  /** A VM that was first writes back under a build that came up later. */
  lemma VmCanBreak(env: Setting, v: nat, b: nat, value: string)
    requires value != "1" && env.isVm(v) && !env.isVm(b)
    ensures var end := Run(env, Init(value), VmThenBuild(v, b));
      end.Some? && Harmed(end.value) && StageOf(end.value, b).Live? && env.blockOf(b) in end.value.tables
  {
    var s0 := Init(value);
    var s1 := Moved(s0, v, HasRead(Some(value)));
    var s2 := Moved(s1.(forward := "1"), v, Enabled(Some(value)));
    var s3 := Moved(s2, v, Live(Some(value)));
    var s4 := Moved(s3, b, HasRead(Some("1")));
    var s5 := Moved(s4.(forward := "1"), b, Enabled(None));
    var s6 := Moved(s5.(tables := s5.tables + {env.blockOf(b)}), b, Live(None));
    var s7 := Moved(s6, v, Restoring(value));
    var s8 := Moved(s7.(forward := value), v, Done);
    RunAlong(env, [s0, s1, s2, s3, s4, s5, s6, s7, s8], VmThenBuild(v, b));
    assert StageOf(s8, b).Live?;
  }

  // ---------------------------------------------------------------- one of them alone

  /** All calls are by `id`; reading succeeds as `seen` says, turning on as `on` says, the way out always. */
  predicate AloneBy(actions: seq<Action>, id: nat, seen: bool, on: bool) {
    forall i :: 0 <= i < |actions| ==>
      var a := actions[i];
      && a.id == id
      && (a.ReadForward? ==> a.ok == seen)
      && (a.WriteOn? ==> a.ok == on)
      && (a.DeleteTable? || a.ListTables? || a.WriteBack? ==> a.ok)
  }

  ghost predicate AloneInv(env: Setting, s: State, id: nat, value: string, seen: bool, on: bool) {
    var held := if on && seen && value != "1" then Some(value) else None;
    var up := if on then "1" else value;
    match StageOf(s, id)
    case Starting => s.forward == value && s.tables == {}
    case HasRead(prior) => s.forward == value && s.tables == {} && prior == if seen then Some(value) else None
    case Enabled(r) => on && s.forward == "1" && s.tables == {} && r == held
    case Live(r) => on && s.forward == "1" && s.tables == (if env.isVm(id) then {} else {env.blockOf(id)}) && r == held
    case Undoing(r) => s.forward == up && s.tables == {} && r == held
    case Listing(r) => s.forward == up && s.tables == {} && r == held
    case Restoring(v) => held.Some? && v == value && s.tables == {}
    case Done => s.tables == {} && s.forward == if on && !seen then "1" else value
  }

  lemma AloneStep(env: Setting, s: State, a: Action, id: nat, value: string, seen: bool, on: bool)
    requires AloneInv(env, s, id, value, seen, on) && AloneBy([a], id, seen, on) && Step(env, s, a).Some?
    ensures AloneInv(env, Step(env, s, a).value, id, value, seen, on)
  {
    assert [a][0] == a;
    assert {} + {env.blockOf(id)} - {env.blockOf(id)} == {};
  }

  lemma {:induction false} AloneRun(env: Setting, s: State, actions: seq<Action>, id: nat, value: string,
                                    seen: bool, on: bool)
    requires AloneInv(env, s, id, value, seen, on) && AloneBy(actions, id, seen, on)
    requires Run(env, s, actions).Some?
    ensures AloneInv(env, Run(env, s, actions).value, id, value, seen, on)
    decreases |actions|
  {
    if actions != [] {
      AloneStep(env, s, actions[0], id, value, seen, on);
      AloneRun(env, Step(env, s, actions[0]).value, actions[1..], id, value, seen, on);
    }
  }

  /**
  A build or VM that meets no other, in any run to its end, with its table added or not:
  the tables are as it found them, and so is forwarding unless it was turned on
  without having been read.
  */
  lemma AloneLeavesNoTrace(env: Setting, actions: seq<Action>, id: nat, value: string, seen: bool, on: bool)
    requires AloneBy(actions, id, seen, on) && Run(env, Init(value), actions).Some?
    requires StageOf(Run(env, Init(value), actions).value, id).Done?
    ensures var end := Run(env, Init(value), actions).value;
      && end.tables == {}
      && (end.forward == value <==> seen || !on || value == "1")
      && (end.forward == value || end.forward == "1")
  {
    AloneRun(env, Init(value), actions, id, value, seen, on);
  }
}
