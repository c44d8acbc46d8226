/**
What runs of builds and VMs do to IP forwarding: when it is on under every table and
every live network, when it comes back, and what a run leaves behind.
*/
module EgressRuns {
  import opened Wrappers
  import opened EgressPlan
  import opened EgressWorld

  // Every call succeeds.
  const GOOD_UNDO := TeardownEnv(true, true, true, true)
  const GOOD := SetupEnv(true, true, true, true, true, true, true, GOOD_UNDO)
  const GOOD_VM := VmEnv(true, true, true, true, true, true, true, true, true)

  // ----------------------------------------------- forwarding under every table

  /** Forwarding is on under every `umf-nat` table. */
  ghost predicate TablesForward(w: World) {
    w.rules != {} ==> w.forward == "1"
  }

  /** The teardown of a VM that writes its value back. */
  predicate VmWritesBack(w: World, s: Step) {
    s.VmDown? && s.id in w.vms && w.vms[s.id].prior.Some? && s.venv.restoreWrite
  }

  lemma StepKeepsTables(w: World, s: Step)
    requires TablesForward(w) && !VmWritesBack(w, s)
    ensures TablesForward(Apply(w, s))
  {
    var t := Apply(w, s);
    if s.Setup? && s.id !in w.nets && !SetupOutcome(w, s.id, s.base, s.block, s.env).1.SetUp? {
      assert t.rules <= w.rules && (t.forward == w.forward || t.forward == "1");
    } else if s.Teardown? && s.id in w.nets {
      assert t.rules <= w.rules && (t.rules == {} || t.forward == w.forward);
    }
  }

  /** No VM writes its value back. */
  predicate Quiet(w: World, steps: seq<Step>)
    decreases |steps|
  {
    steps == [] || (!VmWritesBack(w, steps[0]) && Quiet(Apply(w, steps[0]), steps[1..]))
  }

  /** In every run, failed setups included, forwarding is on under every table unless a VM writes back. */
  lemma {:induction false} RunKeepsTables(w: World, steps: seq<Step>)
    requires TablesForward(w) && Quiet(w, steps)
    ensures TablesForward(Run(w, steps))
    decreases |steps|
  {
    if steps != [] {
      StepKeepsTables(w, steps[0]);
      RunKeepsTables(Apply(w, steps[0]), steps[1..]);
    }
  }

  // ------------------------------------------------------- who holds the old value

  datatype Holder = ByBuild(id: nat) | ByVm(id: nat)

  /** Build or VM `h` is live and has a value to restore. */
  predicate Holds(w: World, h: Holder) {
    match h
    case ByBuild(id) => id in w.nets && w.nets[id].prior.Some?
    case ByVm(id) => id in w.vms && w.vms[id].prior.Some?
  }

  /** Builds and VMs together, one at most holds a value, and then forwarding is on. */
  ghost predicate OneHolder(w: World) {
    && (forall h :: Holds(w, h) ==> w.forward == "1")
    && (forall h, k :: Holds(w, h) && Holds(w, k) ==> h == k)
  }

  /** How a step changes who holds: nobody new, or one where there was none. */
  lemma SetupHolders(w: World, id: nat, base: Base, block: Block, env: SetupEnv)
    requires id !in w.nets
    ensures var (t, r) := SetupOutcome(w, id, base, block, env);
      forall h :: Holds(t, h) <==>
        Holds(w, h) || (h == ByBuild(id) && r.SetUp? && ReadBefore(w, env.readable).Some?)
  {
    var (t, r) := SetupOutcome(w, id, base, block, env);
    assert t.vms == w.vms;
    assert t.nets == if r.SetUp? then w.nets[id := Net(block, base, ReadBefore(w, env.readable))] else w.nets;
  }

  lemma TeardownHolders(w: World, id: nat, env: TeardownEnv)
    requires id in w.nets
    ensures forall h :: Holds(TeardownOutcome(w, id, env), h) <==> Holds(w, h) && h != ByBuild(id)
  {
    var t := TeardownOutcome(w, id, env);
    assert t.vms == w.vms && t.nets == w.nets - {id};
  }

  lemma VmUpHolders(w: World, id: nat, number: nat, env: VmEnv)
    requires id !in w.vms
    ensures var (t, up) := VmUpOutcome(w, id, number, env);
      forall h :: Holds(t, h) <==> Holds(w, h) || (h == ByVm(id) && up && ReadBefore(w, env.readable).Some?)
  {
    var (t, up) := VmUpOutcome(w, id, number, env);
    assert t.nets == w.nets;
    assert t.vms == if up then w.vms[id := Vm(number, ReadBefore(w, env.readable))] else w.vms;
  }

  lemma VmDownHolders(w: World, id: nat, env: VmEnv)
    requires id in w.vms
    ensures forall h :: Holds(VmDownOutcome(w, id, env), h) <==> Holds(w, h) && h != ByVm(id)
  {
    var t := VmDownOutcome(w, id, env);
    assert t.nets == w.nets && t.vms == w.vms - {id};
  }

  lemma SetupKeepsOneHolder(w: World, s: Step)
    requires OneHolder(w) && s.Setup? && s.id !in w.nets
    ensures OneHolder(Apply(w, s))
  {
    SetupHolders(w, s.id, s.base, s.block, s.env);
    var t := Apply(w, s);
    assert t.forward == "1" || t.forward == w.forward;
  }

  lemma TeardownKeepsOneHolder(w: World, s: Step)
    requires OneHolder(w) && s.Teardown? && s.id in w.nets
    ensures OneHolder(Apply(w, s))
  {
    TeardownHolders(w, s.id, s.tenv);
    assert Apply(w, s).forward == w.forward || Holds(w, ByBuild(s.id));
  }

  lemma VmKeepsOneHolder(w: World, s: Step)
    requires OneHolder(w) && ((s.VmUp? && s.id !in w.vms) || (s.VmDown? && s.id in w.vms))
    ensures OneHolder(Apply(w, s))
  {
    var t := Apply(w, s);
    if s.VmUp? {
      VmUpHolders(w, s.id, s.number, s.venv);
      assert t.forward == "1" || t.forward == w.forward;
    } else {
      VmDownHolders(w, s.id, s.venv);
      assert t.forward == w.forward || Holds(w, ByVm(s.id));
    }
  }

  lemma StepKeepsOneHolder(w: World, s: Step)
    requires OneHolder(w)
    ensures OneHolder(Apply(w, s))
  {
    match s
    case Setup(id, _, _, _) => if id !in w.nets { SetupKeepsOneHolder(w, s); }
    case Teardown(id, _) => if id in w.nets { TeardownKeepsOneHolder(w, s); }
    case KernelRemovesVeth(_) => assert forall h :: Holds(Apply(w, s), h) <==> Holds(w, h);
    case VmUp(id, _, _) => if id !in w.vms { VmKeepsOneHolder(w, s); }
    case VmDown(id, _) => if id in w.vms { VmKeepsOneHolder(w, s); }
  }

  /** In every run, one network at most holds the host's value, and forwarding is on while it does. */
  lemma {:induction false} RunKeepsOneHolder(w: World, steps: seq<Step>)
    requires OneHolder(w)
    ensures OneHolder(Run(w, steps))
    decreases |steps|
  {
    if steps != [] {
      StepKeepsOneHolder(w, steps[0]);
      RunKeepsOneHolder(Apply(w, steps[0]), steps[1..]);
    }
  }

  // ------------------------------------------- forwarding under every live network

  /** A live build or VM without forwarding. */
  predicate Harmed(w: World) {
    w.forward != "1" && (w.nets.Keys != {} || w.vms.Keys != {})
  }

  /** What is left of the tables when build `id` looks for them. */
  function RulesLeft(w: World, id: nat, env: TeardownEnv): set<Rules>
    requires id in w.nets
  {
    if env.deleteTable then WithoutTable(w.rules, w.nets[id].block) else w.rules
  }

  /** A teardown that writes back: for a build after finding no `umf-nat` table, for a VM in any case. */
  predicate WritesBack(w: World, s: Step) {
    || (&& s.Teardown? && s.id in w.nets && w.nets[s.id].prior.Some?
        && s.tenv.listTables && s.tenv.restoreWrite && RulesLeft(w, s.id, s.tenv) == {})
    || VmWritesBack(w, s)
  }

  /** Some other build or VM is live. */
  predicate OthersLive(w: World, s: Step) {
    match s
    case Teardown(id, _) => w.nets.Keys - {id} != {} || w.vms.Keys != {}
    case VmDown(id, _) => w.nets.Keys != {} || w.vms.Keys - {id} != {}
    case _ => false
  }

  /** The guard under which a step takes forwarding from somebody. */
  predicate Strikes(w: World, s: Step) {
    WritesBack(w, s) && OthersLive(w, s)
  }

  lemma TeardownHarms(w: World, s: Step, initial: string)
    requires Genuine(w, initial) && !Harmed(w) && s.Teardown? && s.id in w.nets
    ensures Harmed(Apply(w, s)) <==> Strikes(w, s)
  {
    var t := Apply(w, s);
    assert t.nets == w.nets - {s.id} && t.vms == w.vms;
    assert t.nets.Keys == w.nets.Keys - {s.id};
  }

  lemma VmDownHarms(w: World, s: Step, initial: string)
    requires Genuine(w, initial) && !Harmed(w) && s.VmDown? && s.id in w.vms
    ensures Harmed(Apply(w, s)) <==> Strikes(w, s)
  {
    var t := Apply(w, s);
    assert t.vms == w.vms - {s.id} && t.nets == w.nets;
    assert t.vms.Keys == w.vms.Keys - {s.id};
  }

  lemma SetupDoesNotHarm(w: World, s: Step)
    requires !Harmed(w) && (s.Setup? || s.VmUp? || s.KernelRemovesVeth?)
    ensures !Harmed(Apply(w, s))
  {
    var t := Apply(w, s);
    assert t.forward == "1" || (t.forward == w.forward && t.nets == w.nets && t.vms == w.vms);
  }

  lemma StepHarmsIffStrikes(w: World, s: Step, initial: string)
    requires Genuine(w, initial) && !Harmed(w)
    ensures Harmed(Apply(w, s)) <==> Strikes(w, s)
  {
    if s.Teardown? {
      if s.id in w.nets { TeardownHarms(w, s, initial); }
    } else if s.VmDown? {
      if s.id in w.vms { VmDownHarms(w, s, initial); }
    } else {
      SetupDoesNotHarm(w, s);
    }
  }

  /** Somebody is without forwarding now or later in the run. */
  predicate HarmAhead(w: World, steps: seq<Step>)
    decreases |steps|
  {
    Harmed(w) || (steps != [] && HarmAhead(Apply(w, steps[0]), steps[1..]))
  }

  predicate StrikeAhead(w: World, steps: seq<Step>)
    decreases |steps|
  {
    steps != [] && (Strikes(w, steps[0]) || StrikeAhead(Apply(w, steps[0]), steps[1..]))
  }

  /**
  The exact condition, for every run of builds and VMs: a live network loses
  forwarding if and only if a teardown writes back while another one is live.
  */
  lemma {:induction false} HarmedIffStruck(w: World, steps: seq<Step>, initial: string)
    requires Genuine(w, initial) && !Harmed(w)
    ensures HarmAhead(w, steps) <==> StrikeAhead(w, steps)
    decreases |steps|
  {
    if steps != [] {
      StepHarmsIffStrikes(w, steps[0], initial);
      StepKeepsGenuine(w, steps[0], initial);
      if !Strikes(w, steps[0]) { HarmedIffStruck(Apply(w, steps[0]), steps[1..], initial); }
    }
  }

  /** A build that strikes has found no table, so whoever is struck is a VM or a build whose rules are gone. */
  lemma StruckBuildsLackRules(w: World, s: Step, x: nat)
    requires s.Teardown? && Strikes(w, s) && x in w.nets && x != s.id
    ensures !HasRules(Apply(w, s), x)
  {
    assert Apply(w, s).rules == RulesLeft(w, s.id, s.tenv);
  }

  // ------------------------------------------------------ when forwarding comes back

  /** Forwarding is on and no network holds a value that would turn it off. */
  ghost predicate LeftOn(w: World) {
    w.forward == "1" && forall h :: !Holds(w, h)
  }

  lemma StepKeepsLeftOn(w: World, s: Step)
    requires LeftOn(w)
    ensures LeftOn(Apply(w, s))
  {
    match s
    case Setup(id, base, block, env) => if id !in w.nets { SetupHolders(w, id, base, block, env); }
    case Teardown(id, env) => if id in w.nets {
      TeardownHolders(w, id, env);
      assert !Holds(w, ByBuild(id));
    }
    case KernelRemovesVeth(_) => assert forall h :: Holds(Apply(w, s), h) <==> Holds(w, h);
    case VmUp(id, number, env) => if id !in w.vms { VmUpHolders(w, id, number, env); }
    case VmDown(id, env) => if id in w.vms {
      VmDownHolders(w, id, env);
      assert !Holds(w, ByVm(id));
    }
  }

  /** Once nobody holds a value, forwarding stays on whatever happens. */
  lemma {:induction false} LeftOnForGood(w: World, steps: seq<Step>)
    requires LeftOn(w)
    ensures LeftOn(Run(w, steps))
    decreases |steps|
  {
    if steps != [] {
      StepKeepsLeftOn(w, steps[0]);
      LeftOnForGood(Apply(w, steps[0]), steps[1..]);
    }
  }

  /** A setup that gets as far as turning forwarding on, from off. */
  predicate TurnsOn(w: World, s: Step) {
    && w.forward != "1"
    && match s
       case Setup(id, _, block, env) =>
         && id !in w.nets && env.policy && !Taken(w.veths, block) && env.link && env.hostSide
         && env.containerSide && env.forwardWrite
       case VmUp(id, _, env) => id !in w.vms && env.forwardWrite
       case _ => false
  }

  /** The setup of a build fails after forwarding is on, and its value is not written back. */
  predicate BuildKeepsOn(w: World, block: Block, env: SetupEnv) {
    !env.addTable &&
    !(env.undo.listTables && env.undo.restoreWrite && DeleteTable(w, block, env.undo).rules == {})
  }

  predicate VmKeepsOn(w: World, number: nat, env: VmEnv) {
    (!env.netns || number in w.vmVeths || !env.link || !env.plumbing || !env.addTable) && !env.restoreWrite
  }

  /**
  The guards under which a step gives the host's value up: a holder leaves without
  writing back, or forwarding is turned on and the value was not read, or was read
  and the setup fails without writing it back.
  */
  predicate Strands(w: World, s: Step) {
    match s
    case Teardown(id, _) => Holds(w, ByBuild(id)) && !WritesBack(w, s)
    case VmDown(id, env) => Holds(w, ByVm(id)) && !env.restoreWrite
    case Setup(_, _, block, env) => TurnsOn(w, s) && (!env.readable || BuildKeepsOn(w, block, env))
    case VmUp(_, number, env) => TurnsOn(w, s) && (!env.readable || VmKeepsOn(w, number, env))
    case KernelRemovesVeth(_) => false
  }

  lemma SetupStrands(w: World, s: Step)
    requires OneHolder(w) && !LeftOn(w) && s.Setup? && s.id !in w.nets
    ensures LeftOn(Apply(w, s)) <==> Strands(w, s)
  {
    SetupHolders(w, s.id, s.base, s.block, s.env);
    if w.forward == "1" {
      var h :| Holds(w, h);
      assert Holds(Apply(w, s), h);
    } else {
      assert forall h :: !Holds(w, h);
      var (t, r) := SetupOutcome(w, s.id, s.base, s.block, s.env);
      if r.SetUp? && s.env.readable { assert Holds(t, ByBuild(s.id)); }
    }
  }

  lemma TeardownStrands(w: World, s: Step, initial: string)
    requires Genuine(w, initial) && OneHolder(w) && !LeftOn(w) && s.Teardown? && s.id in w.nets
    ensures LeftOn(Apply(w, s)) <==> Strands(w, s)
  {
    TeardownHolders(w, s.id, s.tenv);
    if !Holds(w, ByBuild(s.id)) {
      assert Apply(w, s).forward == w.forward;
      if w.forward == "1" {
        var h :| Holds(w, h);
        assert Holds(Apply(w, s), h);
      }
    } else {
      assert forall h :: !Holds(Apply(w, s), h);
    }
  }

  lemma VmUpStrands(w: World, s: Step)
    requires OneHolder(w) && !LeftOn(w) && s.VmUp? && s.id !in w.vms
    ensures LeftOn(Apply(w, s)) <==> Strands(w, s)
  {
    VmUpHolders(w, s.id, s.number, s.venv);
    if w.forward == "1" {
      var h :| Holds(w, h);
      assert Holds(Apply(w, s), h);
    } else {
      assert forall h :: !Holds(w, h);
      var (t, up) := VmUpOutcome(w, s.id, s.number, s.venv);
      if up && s.venv.readable { assert Holds(t, ByVm(s.id)); }
    }
  }

  lemma VmDownStrands(w: World, s: Step, initial: string)
    requires Genuine(w, initial) && OneHolder(w) && !LeftOn(w) && s.VmDown? && s.id in w.vms
    ensures LeftOn(Apply(w, s)) <==> Strands(w, s)
  {
    VmDownHolders(w, s.id, s.venv);
    if !Holds(w, ByVm(s.id)) {
      assert Apply(w, s).forward == w.forward;
      if w.forward == "1" {
        var h :| Holds(w, h);
        assert Holds(Apply(w, s), h);
      }
    } else {
      assert forall h :: !Holds(Apply(w, s), h);
    }
  }

  lemma StepStrands(w: World, s: Step, initial: string)
    requires Genuine(w, initial) && OneHolder(w) && !LeftOn(w)
    ensures LeftOn(Apply(w, s)) <==> Strands(w, s)
  {
    match s
    case Setup(id, _, _, _) => if id !in w.nets { SetupStrands(w, s); }
    case Teardown(id, _) => if id in w.nets { TeardownStrands(w, s, initial); }
    case KernelRemovesVeth(_) => assert forall h :: Holds(Apply(w, s), h) <==> Holds(w, h);
    case VmUp(id, _, _) => if id !in w.vms { VmUpStrands(w, s); }
    case VmDown(id, _) => if id in w.vms { VmDownStrands(w, s, initial); }
  }

  predicate StrandAhead(w: World, steps: seq<Step>)
    decreases |steps|
  {
    steps != [] && (Strands(w, steps[0]) || StrandAhead(Apply(w, steps[0]), steps[1..]))
  }

  /** The exact condition, for every run: forwarding ends up on for good if and only if some step gave the value up. */
  lemma {:induction false} LeftOnIffStranded(w: World, steps: seq<Step>, initial: string)
    requires Genuine(w, initial) && OneHolder(w) && !LeftOn(w)
    ensures LeftOn(Run(w, steps)) <==> StrandAhead(w, steps)
    decreases |steps|
  {
    if steps != [] {
      var t := Apply(w, steps[0]);
      StepStrands(w, steps[0], initial);
      StepKeepsGenuine(w, steps[0], initial);
      StepKeepsOneHolder(w, steps[0]);
      if Strands(w, steps[0]) {
        LeftOnForGood(t, steps[1..]);
      } else {
        LeftOnIffStranded(t, steps[1..], initial);
      }
    }
  }

  /** When everybody is gone, forwarding is what it was before if and only if no step gave the value up. */
  lemma ForwardingComesBackIff(value: string, steps: seq<Step>)
    requires value != "1"
    requires var end := Run(Fresh(value), steps); end.nets.Keys == {} && end.vms.Keys == {}
    ensures Run(Fresh(value), steps).forward == value <==> !StrandAhead(Fresh(value), steps)
  {
    var end := Run(Fresh(value), steps);
    LeftOnIffStranded(Fresh(value), steps, value);
    RunKeepsGenuine(Fresh(value), steps, value);
    assert forall h :: !Holds(end, h);
  }

  // -------------------------------------------------------------- what a run leaves

  /** Every veth and every table belongs to a live build or VM. */
  ghost predicate NoStrays(w: World) {
    && (forall v :: v in w.veths ==> v.owner in w.nets && w.nets[v.owner].block == v.block)
    && (forall r :: r in w.rules ==> r.owner in w.nets && w.nets[r.owner].block == r.block)
    && (forall n :: n in w.vmVeths || n in w.vmTables ==> exists id :: id in w.vms && w.vms[id].number == n)
  }

  /** No call of the step fails, except that a name may be taken. */
  predicate NoFailure(s: Step) {
    match s
    case Setup(_, _, _, env) => env == GOOD
    case Teardown(_, env) => env == GOOD_UNDO
    case KernelRemovesVeth(_) => true
    case VmUp(_, _, env) => env == GOOD_VM
    case VmDown(_, env) => env == GOOD_VM
  }

  lemma BuildStepLeavesNoStrays(w: World, s: Step)
    requires NoStrays(w) && NoFailure(s) && (s.Setup? || s.Teardown? || s.KernelRemovesVeth?)
    ensures NoStrays(Apply(w, s))
  {
    var t := Apply(w, s);
    assert t.vms == w.vms && t.vmVeths == w.vmVeths && t.vmTables == w.vmTables;
  }

  lemma VmStepLeavesNoStrays(w: World, s: Step)
    requires NoStrays(w) && NoFailure(s) && (s.VmUp? || s.VmDown?)
    ensures NoStrays(Apply(w, s))
  {
    var t := Apply(w, s);
    assert t.nets == w.nets && t.veths == w.veths && t.rules == w.rules;
    forall n | n in t.vmVeths || n in t.vmTables ensures exists id :: id in t.vms && t.vms[id].number == n {
      if n in w.vmVeths || n in w.vmTables {
        var id :| id in w.vms && w.vms[id].number == n;
        assert id in t.vms && t.vms[id].number == n;
      } else {
        assert s.id in t.vms && t.vms[s.id].number == n;
      }
    }
  }

  /** Without failing calls, nothing outlives the networks: when everybody is gone no veth and no table is left. */
  lemma {:induction false} CleanRunLeavesNothing(w: World, steps: seq<Step>)
    requires NoStrays(w) && forall i :: 0 <= i < |steps| ==> NoFailure(steps[i])
    ensures NoStrays(Run(w, steps))
    ensures var end := Run(w, steps);
      && (end.nets.Keys == {} ==> end.veths == {} && end.rules == {})
      && (end.vms.Keys == {} ==> end.vmVeths == {} && end.vmTables == {})
    decreases |steps|
  {
    if steps != [] {
      if steps[0].VmUp? || steps[0].VmDown? { VmStepLeavesNoStrays(w, steps[0]); } else { BuildStepLeavesNoStrays(w, steps[0]); }
      CleanRunLeavesNothing(Apply(w, steps[0]), steps[1..]);
    }
  }

  // --------------------------------------------------- when no name is used twice

  /** Every live build has its own veth and its own rules. */
  ghost predicate Leased(w: World) {
    NamesUnique(w) && forall x :: x in w.nets ==> HasVeth(w, x) && HasRules(w, x)
  }

  /** The kernel takes no veth away from a live build. */
  predicate Orderly(w: World, s: Step) {
    s.KernelRemovesVeth? ==> forall x :: x in w.nets ==> w.nets[x].block != s.block
  }

  lemma OrderlyStepKeepsLeases(w: World, s: Step)
    requires Leased(w) && Orderly(w, s)
    ensures Leased(Apply(w, s))
  {
    StepKeepsNames(w, s);
    var t := Apply(w, s);
    forall x | x in t.nets ensures HasVeth(t, x) && HasRules(t, x) {
      if x in w.nets {
        LosesExactlyByName(w, s, x);
        assert HasVeth(w, x) && HasRules(w, x);
        if s.Teardown? && s.id in w.nets && s.id != x {
          SharedBlockLacksVeth(w, x, s.id);
        }
      }
    }
  }

  predicate OrderlyRun(w: World, steps: seq<Step>)
    decreases |steps|
  {
    steps == [] || (Orderly(w, steps[0]) && OrderlyRun(Apply(w, steps[0]), steps[1..]))
  }

  /** While veths last as long as their builds, no build ever touches another's veth or rules. */
  lemma {:induction false} OrderlyRunKeepsLeases(w: World, steps: seq<Step>)
    requires Leased(w) && OrderlyRun(w, steps)
    ensures Leased(Run(w, steps))
    decreases |steps|
  {
    if steps != [] {
      OrderlyStepKeepsLeases(w, steps[0]);
      OrderlyRunKeepsLeases(Apply(w, steps[0]), steps[1..]);
    }
  }

  lemma LeasedIsNotStruck(w: World, s: Step)
    requires Leased(w) && w.vms.Keys == {} && Orderly(w, s)
    ensures !Strikes(w, s)
  {
    if Strikes(w, s) {
      var x :| x in w.nets.Keys - {s.id};
      OrderlyStepKeepsLeases(w, s);
      StruckBuildsLackRules(w, s, x);
    }
  }

  /** Then, without VMs, no live build ever loses forwarding. */
  lemma {:induction false} OrderlyBuildsKeepForwarding(w: World, steps: seq<Step>, initial: string)
    requires Leased(w) && Genuine(w, initial) && !Harmed(w) && w.vms.Keys == {}
    requires OrderlyRun(w, steps) && forall i :: 0 <= i < |steps| ==> !steps[i].VmUp?
    ensures !HarmAhead(w, steps)
    decreases |steps|
  {
    if steps != [] {
      var t := Apply(w, steps[0]);
      LeasedIsNotStruck(w, steps[0]);
      StepHarmsIffStrikes(w, steps[0], initial);
      StepKeepsGenuine(w, steps[0], initial);
      OrderlyStepKeepsLeases(w, steps[0]);
      assert t.vms.Keys == {};
      OrderlyBuildsKeepForwarding(t, steps[1..], initial);
    }
  }

  // ------------------------------------------------------ when a name is used twice

  ghost predicate AllHaveRules(w: World) {
    forall x :: x in w.nets ==> HasRules(w, x)
  }

  /** A step that deletes, by name, the table of a build that goes on living. */
  ghost predicate TakesTable(w: World, s: Step) {
    exists x :: x in w.nets && x in Apply(w, s).nets && DeletesTableOf(w, s, w.nets[x].block)
  }

  ghost predicate TakenAhead(w: World, steps: seq<Step>)
    decreases |steps|
  {
    steps != [] && (TakesTable(w, steps[0]) || TakenAhead(Apply(w, steps[0]), steps[1..]))
  }

  lemma StepKeepsRules(w: World, s: Step)
    requires AllHaveRules(w) && !TakesTable(w, s)
    ensures AllHaveRules(Apply(w, s))
    ensures w.vms.Keys == {} ==> !Strikes(w, s)
  {
    var t := Apply(w, s);
    forall x | x in t.nets ensures HasRules(t, x) {
      if x in w.nets { LosesExactlyByName(w, s, x); }
    }
    if s.Teardown? && w.vms.Keys == {} && Strikes(w, s) {
      var x :| x in w.nets.Keys - {s.id};
      StruckBuildsLackRules(w, s, x);
    }
  }

  /** Without VMs, a build loses forwarding only after another deleted a living build's table by name. */
  lemma {:induction false} HarmNeedsTakenTable(w: World, steps: seq<Step>, initial: string)
    requires AllHaveRules(w) && Genuine(w, initial) && !Harmed(w) && w.vms.Keys == {}
    requires forall i :: 0 <= i < |steps| ==> !steps[i].VmUp?
    ensures HarmAhead(w, steps) ==> TakenAhead(w, steps)
    decreases |steps|
  {
    if steps != [] && !TakesTable(w, steps[0]) {
      var t := Apply(w, steps[0]);
      StepKeepsRules(w, steps[0]);
      StepHarmsIffStrikes(w, steps[0], initial);
      StepKeepsGenuine(w, steps[0], initial);
      assert t.vms.Keys == {};
      HarmNeedsTakenTable(t, steps[1..], initial);
    }
  }

  // ----------------------------------------------------------- runs that go wrong

  lemma {:induction false} RunAlong(worlds: seq<World>, steps: seq<Step>)
    requires |worlds| == |steps| + 1
    requires forall i :: 0 <= i < |steps| ==> Apply(worlds[i], steps[i]) == worlds[i + 1]
    ensures Run(worlds[0], steps) == worlds[|steps|]
  {
    if steps != [] {
      assert forall i :: 0 <= i < |steps[1..]| ==> Apply(worlds[1..][i], steps[1..][i]) == worlds[1..][i + 1];
      RunAlong(worlds[1..], steps[1..]);
    }
  }

  /** The first build on a host. */
  lemma FirstBuild(value: string, a: nat, p: Base, x: Block)
    requires value != "1"
    ensures Apply(Fresh(value), Setup(a, p, x, GOOD)) ==
            World({Veth(x, a, p)}, {Rules(x, a)}, "1", map[a := Net(x, p, Some(value))], map[], {}, {})
  {
    var w := Fresh(value);
    assert w.veths + {Veth(x, a, p)} == {Veth(x, a, p)} && w.rules + {Rules(x, a)} == {Rules(x, a)};
    assert w.nets[a := Net(x, p, Some(value))] == map[a := Net(x, p, Some(value))];
  }

  /** Two builds with one block: the first to leave takes the other's table, its veth and forwarding. */
  lemma ReusedBlockIsStruck(value: string, a: nat, p: Base, b: nat, q: Base, x: Block)
    requires value != "1" && a != b
    ensures var end := Run(Fresh(value),
        [Setup(a, p, x, GOOD), KernelRemovesVeth(x), Setup(b, q, x, GOOD), Teardown(a, GOOD_UNDO)]);
      Harmed(end) && end.nets.Keys == {b} && end.rules == {} && end.veths == {} && end.forward == value
  {
    var first, second := Net(x, p, Some(value)), Net(x, q, None);
    FirstBuild(value, a, p, x);
    var w1 := World({Veth(x, a, p)}, {Rules(x, a)}, "1", map[a := first], map[], {}, {});
    var w2 := w1.(veths := {});
    var w3 := World({Veth(x, b, q)}, {Rules(x, a), Rules(x, b)}, "1", map[a := first, b := second], map[], {}, {});
    var w4 := World({}, {}, value, map[b := second], map[], {}, {});
    assert WithoutLink(w1.veths, x) == {};
    assert w2.veths + {Veth(x, b, q)} == w3.veths && w2.rules + {Rules(x, b)} == w3.rules;
    assert w2.nets[b := second] == w3.nets;
    assert WithoutTable(w3.rules, x) == {} && WithoutLink(w3.veths, x) == {} && w3.nets - {a} == w4.nets;
    assert b in w4.nets.Keys;
    RunAlong([Fresh(value), w1, w2, w3, w4],
             [Setup(a, p, x, GOOD), KernelRemovesVeth(x), Setup(b, q, x, GOOD), Teardown(a, GOOD_UNDO)]);
  }

  /** A setup that fails rolls back by name, and so takes the table of a live build with its block. */
  lemma FailedSetupTakesTable(value: string, a: nat, p: Base, b: nat, q: Base, x: Block)
    requires value != "1" && a != b
    ensures var end := Run(Fresh(value),
        [Setup(a, p, x, GOOD), KernelRemovesVeth(x), Setup(b, q, x, GOOD.(addTable := false))]);
      end.nets.Keys == {a} && end.rules == {} && !HasRules(end, a)
  {
    var first := Net(x, p, Some(value));
    FirstBuild(value, a, p, x);
    var w1 := World({Veth(x, a, p)}, {Rules(x, a)}, "1", map[a := first], map[], {}, {});
    var w2 := w1.(veths := {});
    var w3 := w2.(rules := {});
    assert WithoutLink(w1.veths, x) == {} && WithoutTable(w2.rules, x) == {};
    assert WithoutLink(w2.veths + {Veth(x, b, q)}, x) == {};
    RunAlong([Fresh(value), w1, w2, w3],
             [Setup(a, p, x, GOOD), KernelRemovesVeth(x), Setup(b, q, x, GOOD.(addTable := false))]);
  }

  /** A VM up before a build and down during it leaves the build's table without forwarding. */
  lemma VmStopsForwardingUnderBuild(value: string, v: nat, n: nat, b: nat, p: Base, x: Block)
    requires value != "1"
    ensures var end := Run(Fresh(value), [VmUp(v, n, GOOD_VM), Setup(b, p, x, GOOD), VmDown(v, GOOD_VM)]);
      Harmed(end) && HasRules(end, b) && end.forward == value
  {
    var vm := map[v := Vm(n, Some(value))];
    var w1 := World({}, {}, "1", map[], vm, {n}, {n});
    var w2 := World({Veth(x, b, p)}, {Rules(x, b)}, "1", map[b := Net(x, p, None)], vm, {n}, {n});
    var w3 := w2.(forward := value, vms := map[], vmVeths := {}, vmTables := {});
    assert Fresh(value).vms[v := Vm(n, Some(value))] == vm && Fresh(value).vmTables + {n} == {n};
    assert w1.veths + {Veth(x, b, p)} == w2.veths && w1.rules + {Rules(x, b)} == w2.rules;
    assert w1.nets[b := Net(x, p, None)] == w2.nets;
    assert vm - {v} == map[] && {n} - {n} == {};
    assert b in w3.nets.Keys;
    RunAlong([Fresh(value), w1, w2, w3], [VmUp(v, n, GOOD_VM), Setup(b, p, x, GOOD), VmDown(v, GOOD_VM)]);
  }

  /** The other way round: a VM's table is no `umf-nat` table, so the last build turns forwarding off under it. */
  lemma BuildStopsForwardingUnderVm(value: string, v: nat, n: nat, b: nat, p: Base, x: Block)
    requires value != "1"
    ensures var end := Run(Fresh(value), [Setup(b, p, x, GOOD), VmUp(v, n, GOOD_VM), Teardown(b, GOOD_UNDO)]);
      Harmed(end) && v in end.vms && n in end.vmTables && end.forward == value
  {
    FirstBuild(value, b, p, x);
    var vm := map[v := Vm(n, None)];
    var w1 := World({Veth(x, b, p)}, {Rules(x, b)}, "1", map[b := Net(x, p, Some(value))], map[], {}, {});
    var w2 := w1.(vms := vm, vmVeths := {n}, vmTables := {n});
    var w3 := World({}, {}, value, map[], vm, {n}, {n});
    assert w1.vms[v := Vm(n, None)] == vm && w1.vmTables + {n} == {n} && w1.vmVeths + {n} == {n};
    assert WithoutTable(w2.rules, x) == {} && WithoutLink(w2.veths, x) == {} && w2.nets - {b} == map[];
    assert v in w3.vms.Keys;
    RunAlong([Fresh(value), w1, w2, w3], [Setup(b, p, x, GOOD), VmUp(v, n, GOOD_VM), Teardown(b, GOOD_UNDO)]);
  }

  /** The build that turned forwarding on leaves first: everybody is gone, no call failed, and it is still on. */
  lemma HolderLeavesFirst(value: string, a: nat, p: Base, x: Block, b: nat, q: Base, y: Block)
    requires value != "1" && a != b && x != y
    ensures var end := Run(Fresh(value), [Setup(a, p, x, GOOD), Setup(b, q, y, GOOD),
                                          Teardown(a, GOOD_UNDO), Teardown(b, GOOD_UNDO)]);
      end.nets == map[] && end.veths == {} && end.rules == {} && end.forward == "1" && LeftOn(end)
  {
    var first, second := Net(x, p, Some(value)), Net(y, q, None);
    FirstBuild(value, a, p, x);
    var w1 := World({Veth(x, a, p)}, {Rules(x, a)}, "1", map[a := first], map[], {}, {});
    var w2 := World({Veth(x, a, p), Veth(y, b, q)}, {Rules(x, a), Rules(y, b)}, "1",
                    map[a := first, b := second], map[], {}, {});
    var w3 := World({Veth(y, b, q)}, {Rules(y, b)}, "1", map[b := second], map[], {}, {});
    var w4 := World({}, {}, "1", map[], map[], {}, {});
    assert w1.veths + {Veth(y, b, q)} == w2.veths && w1.rules + {Rules(y, b)} == w2.rules;
    assert w1.nets[b := second] == w2.nets;
    assert WithoutTable(w2.rules, x) == w3.rules && WithoutLink(w2.veths, x) == w3.veths && w2.nets - {a} == w3.nets;
    assert WithoutTable(w3.rules, y) == {} && WithoutLink(w3.veths, y) == {} && w3.nets - {b} == map[];
    assert Rules(y, b) in w3.rules;
    RunAlong([Fresh(value), w1, w2, w3, w4],
             [Setup(a, p, x, GOOD), Setup(b, q, y, GOOD), Teardown(a, GOOD_UNDO), Teardown(b, GOOD_UNDO)]);
  }
}
