/**
What builds and VMs do to the network state of the host they share, as values.

A build claims a block by creating its veth, whose name the kernel refuses a second
time; it then turns on IPv4 forwarding and puts its rules into the table
`umf-nat-<block>`.  Teardown deletes table and veth by name and restores the
forwarding value it found, unless some `umf-nat` table remains.  A VM keeps a table
`umf-vmfwd-<id>` and restores forwarding without looking at any table.

Names come from the block alone, so every veth and every set of rules also records
whose it is: the code cannot see that, and the statements below need it.  A setup
and a teardown are one step each; which calls fail is an argument of the step.
*/
module EgressWorld {
  import opened Wrappers
  import opened EgressPlan

  /** The veth of a block, the build that made it, and the /16 it was given. */
  datatype Veth = Veth(block: Block, owner: nat, base: Base)

  /** The rules that `owner` put into the table of a block. */
  datatype Rules = Rules(block: Block, owner: nat)

  /** A live network: its block and base, and the forwarding value it has to restore, if any. */
  datatype Net = Net(block: Block, base: Base, prior: Option<string>)

  /** A live VM network: the number its names come from, and the forwarding value it has to restore, if any. */
  datatype Vm = Vm(number: nat, prior: Option<string>)

  /** `nets` are the live builds and `vms` the live VM networks, by guard; VM veths and tables go by number. */
  datatype World = World(
    veths: set<Veth>,
    rules: set<Rules>,
    forward: string,
    nets: map<nat, Net>,
    vms: map<nat, Vm>,
    vmVeths: set<nat>,
    vmTables: set<nat>)

  function Fresh(value: string): World {
    World({}, {}, value, map[], map[], {}, {})
  }

  /** Which calls of a teardown succeed. */
  datatype TeardownEnv = TeardownEnv(deleteTable: bool, deleteLink: bool, listTables: bool, restoreWrite: bool)

  /** Which calls of a setup succeed.  `readable`: the forwarding value could be read first. */
  datatype SetupEnv = SetupEnv(policy: bool, link: bool, hostSide: bool, containerSide: bool,
                               readable: bool, forwardWrite: bool, addTable: bool, undo: TeardownEnv)

  /** Which calls of a VM's setup and teardown succeed. */
  datatype VmEnv = VmEnv(readable: bool, forwardWrite: bool, netns: bool, link: bool, plumbing: bool, addTable: bool,
                         deleteTable: bool, deleteLink: bool, restoreWrite: bool)

  datatype SetupResult = SetUp | LinkExists | SetupFailed

  datatype Step =
    | Setup(id: nat, base: Base, block: Block, env: SetupEnv)
    | Teardown(id: nat, tenv: TeardownEnv)
    | KernelRemovesVeth(block: Block)
    | VmUp(id: nat, number: nat, venv: VmEnv)
    | VmDown(id: nat, venv: VmEnv)

  // ------------------------------------------------------------------- effects

  predicate Taken(veths: set<Veth>, block: Block) {
    exists v :: v in veths && v.block == block
  }

  function WithoutLink(veths: set<Veth>, block: Block): set<Veth> {
    set v | v in veths && v.block != block
  }

  function WithoutTable(rules: set<Rules>, block: Block): set<Rules> {
    set r | r in rules && r.block != block
  }

  /** What to restore on teardown, given the value read before forwarding was turned on. */
  function ForwardRestoreTarget(prior: Option<string>): Option<string> {
    if prior == None || prior == Some("1") then None else prior
  }

  function ReadBefore(w: World, readable: bool): Option<string> {
    ForwardRestoreTarget(if readable then Some(w.forward) else None)
  }

  /** Put `prior` back, unless a `umf-nat` table remains or cannot be ruled out. */
  function Restore(w: World, prior: Option<string>, env: TeardownEnv): World {
    if prior.Some? && env.listTables && w.rules == {} && env.restoreWrite then w.(forward := prior.value) else w
  }

  /** A VM puts its value back without looking. */
  function VmRestore(w: World, prior: Option<string>, env: VmEnv): World {
    if prior.Some? && env.restoreWrite then w.(forward := prior.value) else w
  }

  function DeleteTable(w: World, block: Block, env: TeardownEnv): World {
    if env.deleteTable then w.(rules := WithoutTable(w.rules, block)) else w
  }

  function DeleteLink(w: World, block: Block, env: TeardownEnv): World {
    if env.deleteLink then w.(veths := WithoutLink(w.veths, block)) else w
  }

  function RollBack(w: World, block: Block, prior: Option<string>, env: TeardownEnv): World {
    DeleteLink(Restore(DeleteTable(w, block, env), prior, env), block, env)
  }

  /** One candidate block: claim its veth, bring egress up, or undo what was done. */
  function SetupOutcome(w: World, id: nat, base: Base, block: Block, env: SetupEnv): (World, SetupResult) {
    if !env.policy then (w, SetupFailed)
    else if Taken(w.veths, block) then (w, LinkExists)
    else if !env.link then (w, SetupFailed)
    else
      var claimed := w.(veths := w.veths + {Veth(block, id, base)});
      if !env.hostSide then (claimed, SetupFailed)
      else if !env.containerSide || !env.forwardWrite then (RollBack(claimed, block, None, env.undo), SetupFailed)
      else
        var prior := ReadBefore(w, env.readable);
        var on := claimed.(forward := "1");
        if !env.addTable then (RollBack(on, block, prior, env.undo), SetupFailed)
        else (on.(rules := w.rules + {Rules(block, id)}, nets := w.nets[id := Net(block, base, prior)]), SetUp)
  }

  /** Dropping the guard of a live network. */
  function TeardownOutcome(w: World, id: nat, env: TeardownEnv): World
    requires id in w.nets
  {
    var net := w.nets[id];
    var cleared := DeleteLink(DeleteTable(w, net.block, env), net.block, env);
    Restore(cleared, net.prior, env).(nets := w.nets - {id})
  }

  /** A network that comes up holds the value it met, unless that was "1" or unreadable, and forwarding is on. */
  lemma SetupHoldsWhatItMet(w: World, id: nat, base: Base, block: Block, env: SetupEnv)
    requires SetupOutcome(w, id, base, block, env).1.SetUp?
    ensures var t := SetupOutcome(w, id, base, block, env).0;
      && t.nets == w.nets[id := Net(block, base, if env.readable && w.forward != "1" then Some(w.forward) else None)]
      && t.veths == w.veths + {Veth(block, id, base)} && t.rules == w.rules + {Rules(block, id)}
      && t.forward == "1" && (t.vms, t.vmVeths, t.vmTables) == (w.vms, w.vmVeths, w.vmTables)
  {
  }

  /** What is left of a setup that fails, by how far it got and which calls of the rollback succeed. */
  lemma FailedSetupIsUndone(w: World, id: nat, base: Base, block: Block, env: SetupEnv)
    requires SetupOutcome(w, id, base, block, env).1.SetupFailed?
    ensures var t := SetupOutcome(w, id, base, block, env).0;
      var reached := env.policy && env.link && !Taken(w.veths, block);
      && t.nets == w.nets && (t.vms, t.vmVeths, t.vmTables) == (w.vms, w.vmVeths, w.vmTables)
      && t.veths == (if reached && !(env.hostSide && env.undo.deleteLink) then w.veths + {Veth(block, id, base)} else w.veths)
      && t.rules == (if reached && env.hostSide && env.undo.deleteTable then WithoutTable(w.rules, block) else w.rules)
      && (t.forward == w.forward || t.forward == "1")
      && (env.readable && env.undo.listTables && env.undo.restoreWrite && t.rules == {} ==> t.forward == w.forward)
      && (!env.containerSide || !env.forwardWrite ==> t.forward == w.forward)
  {
    if env.policy && env.link && env.hostSide && env.undo.deleteLink && !Taken(w.veths, block) {
      assert WithoutLink(w.veths + {Veth(block, id, base)}, block) == w.veths;
    }
  }

  function VmTeardown(w: World, number: nat, prior: Option<string>, env: VmEnv): World {
    VmRestore(w.(vmTables := if env.deleteTable then w.vmTables - {number} else w.vmTables,
                 vmVeths := if env.deleteLink then w.vmVeths - {number} else w.vmVeths), prior, env)
  }

  /** A VM whose number is taken fails on the interface name, and rolls back by name like any other. */
  function VmUpOutcome(w: World, id: nat, number: nat, env: VmEnv): (World, bool) {
    if !env.forwardWrite then (w, false)
    else
      var prior := ReadBefore(w, env.readable);
      var on := w.(forward := "1");
      if !env.netns then (VmRestore(on, prior, env), false)
      else if number in w.vmVeths || !env.link then (VmTeardown(on, number, prior, env), false)
      else
        var linked := on.(vmVeths := w.vmVeths + {number});
        if !env.plumbing || !env.addTable then (VmTeardown(linked, number, prior, env), false)
        else (linked.(vmTables := w.vmTables + {number}, vms := w.vms[id := Vm(number, prior)]), true)
  }

  lemma VmHoldsWhatItMet(w: World, id: nat, number: nat, env: VmEnv)
    requires VmUpOutcome(w, id, number, env).1
    ensures var t := VmUpOutcome(w, id, number, env).0;
      && t.vms == w.vms[id := Vm(number, if env.readable && w.forward != "1" then Some(w.forward) else None)]
      && t.vmVeths == w.vmVeths + {number} && t.vmTables == w.vmTables + {number} && number !in w.vmVeths
      && t.forward == "1" && (t.nets, t.veths, t.rules) == (w.nets, w.veths, w.rules)
  {
  }

  lemma FailedVmIsUndone(w: World, id: nat, number: nat, env: VmEnv)
    requires !VmUpOutcome(w, id, number, env).1
    ensures var t := VmUpOutcome(w, id, number, env).0;
      var reached := env.forwardWrite && env.netns;
      && t.vms == w.vms && (t.nets, t.veths, t.rules) == (w.nets, w.veths, w.rules)
      && (reached && env.deleteTable ==> t.vmTables == w.vmTables - {number})
      && (reached && env.deleteLink ==> t.vmVeths == w.vmVeths - {number})
      && (t.forward == w.forward || t.forward == "1")
      && (env.readable && env.restoreWrite ==> t.forward == w.forward)
  {
  }

  function VmDownOutcome(w: World, id: nat, env: VmEnv): World
    requires id in w.vms
  {
    VmTeardown(w, w.vms[id].number, w.vms[id].prior, env).(vms := w.vms - {id})
  }

  function LinkLost(w: World, block: Block): World {
    w.(veths := WithoutLink(w.veths, block))
  }

  /** One step; a step that cannot happen where it stands is passed over. */
  function Apply(w: World, s: Step): World {
    match s
    case Setup(id, base, block, env) => if id in w.nets then w else SetupOutcome(w, id, base, block, env).0
    case Teardown(id, env) => if id in w.nets then TeardownOutcome(w, id, env) else w
    case KernelRemovesVeth(block) => LinkLost(w, block)
    case VmUp(id, number, env) => if id in w.vms then w else VmUpOutcome(w, id, number, env).0
    case VmDown(id, env) => if id in w.vms then VmDownOutcome(w, id, env) else w
  }

  function Run(w: World, steps: seq<Step>): World
    decreases |steps|
  {
    if steps == [] then w else Run(Apply(w, steps[0]), steps[1..])
  }

  lemma {:induction false} RunSnoc(w: World, steps: seq<Step>, s: Step)
    ensures Run(w, steps + [s]) == Apply(Run(w, steps), s)
    decreases |steps|
  {
    if steps == [] {
      assert steps + [s] == [s] && [s][1..] == [];
    } else {
      assert (steps + [s])[1..] == steps[1..] + [s];
      RunSnoc(Apply(w, steps[0]), steps[1..], s);
    }
  }

  // ------------------------------------------------ the value that is put back

  /** Only the host's own value is held, and forwarding is that value or on. */
  ghost predicate Genuine(w: World, initial: string) {
    && (w.forward == "1" || w.forward == initial)
    && (forall id :: id in w.nets && w.nets[id].prior.Some? ==> w.nets[id].prior.value == initial != "1")
    && (forall id :: id in w.vms && w.vms[id].prior.Some? ==> w.vms[id].prior.value == initial != "1")
  }

  lemma SetupKeepsGenuine(w: World, id: nat, base: Base, block: Block, env: SetupEnv, initial: string)
    requires Genuine(w, initial)
    ensures Genuine(SetupOutcome(w, id, base, block, env).0, initial)
  {
    var t := SetupOutcome(w, id, base, block, env).0;
    assert t.vms == w.vms;
    assert t.nets == w.nets || t.nets == w.nets[id := Net(block, base, ReadBefore(w, env.readable))];
  }

  lemma TeardownKeepsGenuine(w: World, id: nat, env: TeardownEnv, initial: string)
    requires Genuine(w, initial) && id in w.nets
    ensures Genuine(TeardownOutcome(w, id, env), initial)
  {
    var t := TeardownOutcome(w, id, env);
    assert t.vms == w.vms && t.nets == w.nets - {id};
  }

  lemma VmKeepsGenuine(w: World, id: nat, number: nat, env: VmEnv, initial: string)
    requires Genuine(w, initial)
    ensures Genuine(VmUpOutcome(w, id, number, env).0, initial)
    ensures id in w.vms ==> Genuine(VmDownOutcome(w, id, env), initial)
  {
  }

  lemma StepKeepsGenuine(w: World, s: Step, initial: string)
    requires Genuine(w, initial)
    ensures Genuine(Apply(w, s), initial)
  {
    match s
    case Setup(id, base, block, env) => SetupKeepsGenuine(w, id, base, block, env, initial);
    case Teardown(id, env) => if id in w.nets { TeardownKeepsGenuine(w, id, env, initial); }
    case KernelRemovesVeth(_) =>
    case VmUp(id, number, env) => VmKeepsGenuine(w, id, number, env, initial);
    case VmDown(id, env) => VmKeepsGenuine(w, id, 0, env, initial);
  }

  /** In every run, of builds and VMs, what is restored is the value the host had at the start. */
  lemma {:induction false} RunKeepsGenuine(w: World, steps: seq<Step>, initial: string)
    requires Genuine(w, initial)
    ensures Genuine(Run(w, steps), initial)
    decreases |steps|
  {
    if steps != [] {
      StepKeepsGenuine(w, steps[0], initial);
      RunKeepsGenuine(Apply(w, steps[0]), steps[1..], initial);
    }
  }

  // ------------------------------------------------------------- whose address

  /** An interface name exists once. */
  ghost predicate NamesUnique(w: World) {
    forall v, u :: v in w.veths && u in w.veths && v.block == u.block ==> v == u
  }

  lemma StepKeepsNames(w: World, s: Step)
    requires NamesUnique(w)
    ensures NamesUnique(Apply(w, s))
  {
  }

  lemma {:induction false} RunKeepsNames(w: World, steps: seq<Step>)
    requires NamesUnique(w)
    ensures NamesUnique(Run(w, steps))
    decreases |steps|
  {
    if steps != [] {
      StepKeepsNames(w, steps[0]);
      RunKeepsNames(Apply(w, steps[0]), steps[1..]);
    }
  }

  /** In every run no address lies in the /30s of two existing veths, whatever base each build was given. */
  lemma VethsOwnTheirAddresses(value: string, steps: seq<Step>, v: Veth, u: Veth)
    requires v in Run(Fresh(value), steps).veths && u in Run(Fresh(value), steps).veths && v != u
    ensures Apart(ContainerRange(v.base, v.block), ContainerRange(u.base, u.block))
  {
    RunKeepsNames(Fresh(value), steps);
    ContainerRangesApart(v.base, v.block, u.base, u.block);
  }

  /** The veth of live build `x` exists and is its own. */
  predicate HasVeth(w: World, x: nat) {
    x in w.nets && Veth(w.nets[x].block, x, w.nets[x].base) in w.veths
  }

  /** The rules of live build `x` are in place. */
  predicate HasRules(w: World, x: nat) {
    x in w.nets && Rules(w.nets[x].block, x) in w.rules
  }

  /** Two live builds share a block only while at most one of them has its veth. */
  lemma SharedBlockLacksVeth(w: World, x: nat, y: nat)
    requires NamesUnique(w) && HasVeth(w, x) && HasVeth(w, y) && x != y
    ensures w.nets[x].block != w.nets[y].block
    ensures Apart(ContainerRange(w.nets[x].base, w.nets[x].block), ContainerRange(w.nets[y].base, w.nets[y].block))
  {
    ContainerRangesApart(w.nets[x].base, w.nets[x].block, w.nets[y].base, w.nets[y].block);
  }

  /** A setup that gets as far as rolling its block back. */
  predicate RollsBack(w: World, s: Step) {
    && s.Setup? && s.id !in w.nets
    && s.env.policy && !Taken(w.veths, s.block) && s.env.link && s.env.hostSide
    && !(s.env.containerSide && s.env.forwardWrite && s.env.addTable)
  }

  /** A step by another build that deletes the table of a block. */
  predicate DeletesTableOf(w: World, s: Step, block: Block) {
    || (s.Teardown? && s.id in w.nets && w.nets[s.id].block == block && s.tenv.deleteTable)
    || (RollsBack(w, s) && s.block == block && s.env.undo.deleteTable)
  }

  predicate DeletesVethOf(w: World, s: Step, block: Block) {
    || (s.Teardown? && s.id in w.nets && w.nets[s.id].block == block && s.tenv.deleteLink)
    || (RollsBack(w, s) && s.block == block && s.env.undo.deleteLink)
    || s == KernelRemovesVeth(block)
  }

  lemma SetupLosesByName(w: World, s: Step, x: nat)
    requires s.Setup? && s.id !in w.nets && x in w.nets
    ensures var t := SetupOutcome(w, s.id, s.base, s.block, s.env).0;
      && (HasRules(w, x) ==> (HasRules(t, x) <==> !DeletesTableOf(w, s, w.nets[x].block)))
      && (HasVeth(w, x) ==> (HasVeth(t, x) <==> !DeletesVethOf(w, s, w.nets[x].block)))
  {
    var t := SetupOutcome(w, s.id, s.base, s.block, s.env).0;
    assert t.nets[x] == w.nets[x];
  }

  /** A live build loses its rules or its veth in a step exactly when that step deletes them by name. */
  lemma LosesExactlyByName(w: World, s: Step, x: nat)
    requires x in w.nets && x in Apply(w, s).nets
    ensures HasRules(w, x) ==> (HasRules(Apply(w, s), x) <==> !DeletesTableOf(w, s, w.nets[x].block))
    ensures HasVeth(w, x) ==> (HasVeth(Apply(w, s), x) <==> !DeletesVethOf(w, s, w.nets[x].block))
  {
    if s.Setup? {
      if s.id !in w.nets { SetupLosesByName(w, s, x); }
    } else {
      assert Apply(w, s).nets[x] == w.nets[x];
    }
  }
}
