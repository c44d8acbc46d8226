/**
The code that sets networks up and tears them down, over what the kernel has: the
names of interfaces and tables, as text, and the forwarding value.  Names are all it
sees.  A ghost `World` says whose veth or rules a name stands for, and every method
is proved to change that world as `EgressWorld` says, so its theorems hold for it.
*/
module EgressHost {
  import opened Wrappers
  import opened EgressPlan
  import opened EgressWorld
  import opened EgressNames

  datatype Outcome = Got(block: Block) | NoFreeSubnet | Error

  /** The steps are none of build `id`'s own. */
  predicate NotBy(steps: seq<Step>, id: nat) {
    forall i :: 0 <= i < |steps| ==> (steps[i].Setup? || steps[i].Teardown? ==> steps[i].id != id)
  }

  lemma {:induction false} OthersDoNotBringUp(w: World, steps: seq<Step>, id: nat)
    requires id !in w.nets && NotBy(steps, id)
    ensures id !in Run(w, steps).nets
    decreases |steps|
  {
    if steps != [] { OthersDoNotBringUp(Apply(w, steps[0]), steps[1..], id); }
  }

  /** The host when the `i`-th block is tried; `others(i)` happens just before that. */
  function WorldAt(w: World, others: nat -> seq<Step>, i: nat): World {
    Run(if i == 0 then w else WorldAt(w, others, i - 1), others(i))
  }

  /** The `i`-th block tried had its veth when it was tried. */
  ghost predicate Refused(w: World, pid: nat, others: nat -> seq<Step>, env: nat -> SetupEnv, i: nat) {
    env(i).policy && Taken(WorldAt(w, others, i).veths, Candidate(pid, i))
  }

  /** No free subnet: each block of the pool had its veth at some point of the walk. */
  lemma EveryBlockWasTaken(w: World, pid: nat, others: nat -> seq<Step>, env: nat -> SetupEnv, block: Block)
    requires forall i :: 0 <= i < SUBNET_BLOCKS ==> Refused(w, pid, others, env, i)
    ensures exists i :: 0 <= i < SUBNET_BLOCKS && Taken(WorldAt(w, others, i).veths, block)
  {
    WalkMeetsEachBlockOnce(pid, block);
    var i :| 0 <= i < SUBNET_BLOCKS && Candidate(pid, i) == block;
    assert Refused(w, pid, others, env, i);
  }

  /** What an attempt by a build that is not up means for the host `w` it meets. */
  ghost predicate AttemptMeaning(w: World, id: nat, base: Base, block: Block, env: SetupEnv, r: SetupResult, now: World) {
    match r
    case LinkExists => env.policy && Taken(w.veths, block) && now == w
    case SetUp =>
      && !Taken(w.veths, block)
      && id in now.nets && now.nets[id].block == block && now.nets[id].base == base
      && HasVeth(now, id) && HasRules(now, id) && now.forward == "1"
    case SetupFailed => now.nets == w.nets && (Taken(w.veths, block) ==> !env.policy && now == w)
  }

  lemma AttemptMeans(w: World, id: nat, base: Base, block: Block, env: SetupEnv)
    ensures var (now, r) := SetupOutcome(w, id, base, block, env); AttemptMeaning(w, id, base, block, env, r, now)
  {
  }

  /** What a build keeps to tear its network down. */
  datatype Guard = Guard(hostIf: string, table: string, containerIp: nat, prior: Option<string>)

  /** What a VM keeps. */
  datatype VmGuard = VmGuard(hostVeth: string, table: string, prior: Option<string>)

  function GuardOf(net: Net): Guard {
    Guard(LinkName(net.block), TableName(net.block), ContainerRange(net.base, net.block).first + 2, net.prior)
  }

  function VmGuardOf(vm: Vm): VmGuard {
    VmGuard(VmLinkName(vm.number), VmTableName(vm.number), vm.prior)
  }

  ghost predicate GuardsMatch(guards: map<nat, Guard>, nets: map<nat, Net>) {
    guards.Keys == nets.Keys && forall id :: id in guards ==> guards[id] == GuardOf(nets[id])
  }

  ghost predicate VmGuardsMatch(guards: map<nat, VmGuard>, vms: map<nat, Vm>) {
    guards.Keys == vms.Keys && forall id :: id in guards ==> guards[id] == VmGuardOf(vms[id])
  }

  lemma GuardAdded(guards: map<nat, Guard>, nets: map<nat, Net>, id: nat, net: Net)
    requires GuardsMatch(guards, nets)
    ensures GuardsMatch(guards[id := GuardOf(net)], nets[id := net])
  {
  }

  lemma GuardRemoved(guards: map<nat, Guard>, nets: map<nat, Net>, id: nat)
    requires GuardsMatch(guards, nets)
    ensures GuardsMatch(guards - {id}, nets - {id})
  {
  }

  /** The container of block `x` of the /16 `a.b` has the address `a.b.0.0` plus `4x + 2`. */
  predicate HasAddress(guard: Guard, base: Base, block: Block) {
    Octets(guard.containerIp) == Dotted(base.a, base.b, (4 * block + 2) / 256, (4 * block + 2) % 256)
  }

  lemma GuardHasAddress(net: Net)
    ensures HasAddress(GuardOf(net), net.base, net.block)
  {
    ContainerAddress(net.base, net.block);
  }

  /** At most `name` was added or removed. */
  predicate OnlyName(name: string, was: set<string>, now: set<string>) {
    now - {name} == was - {name}
  }

  class Host {
    var links: set<string>           // interface names
    var tables: set<string>          // names of nft tables
    var forward: string
    var guards: map<nat, Guard>      // the live builds
    var vmGuards: map<nat, VmGuard>  // the live VM networks
    ghost var world: World           // what the names stand for

    ghost predicate Valid()
      reads this
    {
      && LinksMatch(links, world.veths, world.vmVeths)
      && TablesMatch(tables, world.rules, world.vmTables)
      && forward == world.forward
      && GuardsMatch(guards, world.nets)
      && VmGuardsMatch(vmGuards, world.vms)
    }

    /** A host with interfaces and tables of its own, none of them named like ours. */
    constructor (value: string, foreignLinks: set<string>, foreignTables: set<string>)
      requires LinksMatch(foreignLinks, {}, {}) && TablesMatch(foreignTables, {}, {})
      ensures Valid() && world == Fresh(value)
    {
      links, tables, forward, guards, vmGuards := foreignLinks, foreignTables, value, map[], map[];
      world := Fresh(value);
    }

    /** Turn forwarding on: what to restore later, or nothing when the write failed. */
    method EnableForwarding(readable: bool, forwardWrite: bool) returns (ok: bool, restore: Option<string>)
      requires Valid()
      modifies this`forward, this`world
      ensures Valid() && ok == forwardWrite
      ensures ok ==> world == old(world).(forward := "1") && restore == ReadBefore(old(world), readable)
      ensures !ok ==> world == old(world) && restore.None?
    {
      var prior := if readable then Some(forward) else None;
      if !forwardWrite { return false, None; }
      forward := "1";
      world := world.(forward := "1");
      ok, restore := true, ForwardRestoreTarget(prior);
    }

    /** Whether the listing of tables shows one of a build; `true` when it cannot be had. */
    method UmfNatTablePresent(listOk: bool) returns (present: bool)
      requires Valid()
      ensures present <==> !listOk || world.rules != {}
    {
      if !listOk { return true; }
      var text, todo := "", tables;
      while todo != {}
        invariant todo <= tables && (text == "" || text[|text| - 1] == '\n')
        invariant Contains(text, NAT) <==> exists t :: t in tables - todo && Contains(t, NAT)
        decreases |todo|
      {
        var t :| t in todo;
        ContainsJoined(text, Line(t), NAT);
        LineShows(t);
        todo, text := todo - {t}, text + Line(t);
      }
      ListedIffRulesRemain(tables, world.rules, world.vmTables);
      present := Contains(text, NAT);
    }

    /** Put `prior` back, unless a build's table is listed or the listing fails. */
    method RestoreForward(prior: Option<string>, env: TeardownEnv)
      requires Valid()
      modifies this`forward, this`world
      ensures Valid() && world == Restore(old(world), prior, env)
      ensures forward != old(forward) ==> forall t :: t in tables ==> !Contains(t, NAT)
    {
      if prior.None? { return; }
      ListedIffRulesRemain(tables, world.rules, world.vmTables);
      var present := UmfNatTablePresent(env.listTables);
      if present || !env.restoreWrite { return; }
      forward := prior.value;
      world := world.(forward := prior.value);
    }

    /** Delete a table by its name: the rules of every build with the block are gone. */
    method DelMasquerade(table: string, env: TeardownEnv, ghost block: Block)
      requires Valid() && table == TableName(block)
      modifies this`tables, this`world
      ensures Valid() && world == DeleteTable(old(world), block, env)
      ensures tables == if env.deleteTable then old(tables) - {table} else old(tables)
    {
      if env.deleteTable {
        RemoveTable(tables, world.rules, world.vmTables, block);
        tables := tables - {table};
        world := DeleteTable(world, block, env);
      }
    }

    /** Delete an interface by its name: the veth of the block is gone, whoever made it. */
    method DelLink(link: string, env: TeardownEnv, ghost block: Block)
      requires Valid() && link == LinkName(block)
      modifies this`links, this`world
      ensures Valid() && world == DeleteLink(old(world), block, env)
      ensures links == if env.deleteLink then old(links) - {link} else old(links)
    {
      if env.deleteLink {
        RemoveLink(links, world.veths, world.vmVeths, block);
        links := links - {link};
        world := DeleteLink(world, block, env);
      }
    }

    /** Add the veth of a block: the kernel refuses a name that exists. */
    method AddVeth(link: string, id: nat, base: Base, ghost block: Block) returns (ok: bool)
      requires Valid() && link == LinkName(block)
      modifies this`links, this`world
      ensures Valid() && ok == !Taken(old(world).veths, block)
      ensures world == if ok then old(world).(veths := old(world).veths + {Veth(block, id, base)}) else old(world)
      ensures links == old(links) + {link} && ok == (link !in old(links))
    {
      if link in links { return false; }
      AddLink(links, world.veths, world.vmVeths, Veth(block, id, base));
      links := links + {link};
      world := world.(veths := world.veths + {Veth(block, id, base)});
      ok := true;
    }

    /** Container side, forwarding, rules: what to restore, or what has to be rolled back. */
    method SetupEgress(id: nat, table: string, env: SetupEnv, ghost block: Block)
      returns (ok: bool, restore: Option<string>)
      requires Valid() && table == TableName(block)
      modifies this`forward, this`tables, this`world
      ensures Valid() && ok == (env.containerSide && env.forwardWrite && env.addTable)
      ensures restore == if env.containerSide && env.forwardWrite then ReadBefore(old(world), env.readable) else None
      ensures world == old(world).(
        forward := if env.containerSide && env.forwardWrite then "1" else old(world).forward,
        rules := if ok then old(world).rules + {Rules(block, id)} else old(world).rules)
      ensures tables == if ok then old(tables) + {table} else old(tables)
    {
      if !env.containerSide { return false, None; }
      ok, restore := EnableForwarding(env.readable, env.forwardWrite);
      if !ok { return; }
      if !env.addTable { return false, restore; }
      AddTable(tables, world.rules, world.vmTables, Rules(block, id));
      tables := tables + {table};
      world := world.(rules := world.rules + {Rules(block, id)});
    }

    method KeepGuard(id: nat, hostIf: string, table: string, prior: Option<string>, base: Base, block: Block)
      requires Valid() && hostIf == LinkName(block) && table == TableName(block)
      modifies this`guards, this`world
      ensures Valid() && world == old(world).(nets := old(world).nets[id := Net(block, base, prior)])
      ensures guards == old(guards)[id := GuardOf(Net(block, base, prior))]
    {
      var guard := Guard(hostIf, table, ContainerRange(base, block).first + 2, prior);
      assert guard == GuardOf(Net(block, base, prior));
      GuardAdded(guards, world.nets, id, Net(block, base, prior));
      guards := guards[id := guard];
      world := world.(nets := world.nets[id := Net(block, base, prior)]);
    }

    /** One candidate block: the code sees names, the world changes as its theorems say. */
    method SetupBlock(id: nat, base: Base, block: Block, env: SetupEnv) returns (r: SetupResult)
      requires Valid()
      modifies this
      ensures Valid() && (world, r) == SetupOutcome(old(world), id, base, block, env)
      ensures r.LinkExists? <==> env.policy && LinkName(block) in old(links)
      ensures r.SetUp? ==>
        && id in guards && guards[id].hostIf in links && guards[id].table in tables && forward == "1"
        && guards[id].hostIf == LinkName(block) && HasAddress(guards[id], base, block)
      ensures !r.SetUp? ==> guards == old(guards)
      ensures OnlyName(LinkName(block), old(links), links) && OnlyName(TableName(block), old(tables), tables)
    {
      r := BringUp(id, base, block, env);
      if r.SetUp? { GuardHasAddress(world.nets[id]); }
    }

    method BringUp(id: nat, base: Base, block: Block, env: SetupEnv) returns (r: SetupResult)
      requires Valid()
      modifies this
      ensures Valid() && (world, r) == SetupOutcome(old(world), id, base, block, env)
      ensures r.LinkExists? <==> env.policy && LinkName(block) in old(links)
      ensures r.SetUp? ==> LinkName(block) in links && TableName(block) in tables
      ensures !r.SetUp? ==> guards == old(guards)
      ensures OnlyName(LinkName(block), old(links), links) && OnlyName(TableName(block), old(tables), tables)
    {
      var hostIf, table := LinkName(block), TableName(block);
      if !env.policy { return SetupFailed; }
      if hostIf !in links && !env.link { return SetupFailed; }
      var claimed := AddVeth(hostIf, id, base, block);
      if !claimed { return LinkExists; }
      if !env.hostSide { return SetupFailed; }
      var ok, restore := SetupEgress(id, table, env, block);
      if ok {
        KeepGuard(id, hostIf, table, restore, base, block);
        return SetUp;
      }
      DelMasquerade(table, env.undo, block);
      RestoreForward(restore, env.undo);
      DelLink(hostIf, env.undo, block);
      r := SetupFailed;
    }

    /** Dropping the guard of a live network: it knows names only. */
    method TeardownNet(id: nat, env: TeardownEnv)
      requires Valid() && id in guards
      modifies this
      ensures Valid() && world == TeardownOutcome(old(world), id, env)
      ensures guards == old(guards) - {id}
      ensures links == if env.deleteLink then old(links) - {old(guards[id]).hostIf} else old(links)
      ensures tables == if env.deleteTable then old(tables) - {old(guards[id]).table} else old(tables)
      ensures forward != old(forward) ==> forall t :: t in tables ==> !Contains(t, NAT)
    {
      var guard := guards[id];
      ghost var block := world.nets[id].block;
      DelMasquerade(guard.table, env, block);
      DelLink(guard.hostIf, env, block);
      RestoreForward(guard.prior, env);
      ForgetGuard(id);
    }

    method ForgetGuard(id: nat)
      requires Valid() && id in guards
      modifies this`guards, this`world
      ensures Valid() && guards == old(guards) - {id} && world == old(world).(nets := old(world).nets - {id})
    {
      GuardRemoved(guards, world.nets, id);
      guards := guards - {id};
      world := world.(nets := world.nets - {id});
    }

    /** The kernel removes a veth when the container's network namespace goes away. */
    method LoseVeth(block: Block)
      requires Valid()
      modifies this`links, this`world
      ensures Valid() && world == LinkLost(old(world), block)
    {
      RemoveLink(links, world.veths, world.vmVeths, block);
      links := links - {LinkName(block)};
      world := LinkLost(world, block);
    }

    method VmRestoreForward(prior: Option<string>, env: VmEnv)
      requires Valid()
      modifies this`forward, this`world
      ensures Valid() && world == VmRestore(old(world), prior, env)
    {
      if prior.Some? && env.restoreWrite {
        forward := prior.value;
        world := world.(forward := prior.value);
      }
    }

    /** Tear a VM's plumbing down by name; no listing is consulted. */
    method TeardownVm(hostVeth: string, table: string, prior: Option<string>, env: VmEnv, ghost number: nat)
      requires Valid() && hostVeth == VmLinkName(number) && table == VmTableName(number)
      modifies this`links, this`tables, this`forward, this`world
      ensures Valid() && world == VmTeardown(old(world), number, prior, env)
      ensures links == if env.deleteLink then old(links) - {hostVeth} else old(links)
      ensures tables == if env.deleteTable then old(tables) - {table} else old(tables)
    {
      VmTables(tables, world.rules, world.vmTables, number);
      VmLinks(links, world.veths, world.vmVeths, number);
      if env.deleteTable {
        tables := tables - {table};
        world := world.(vmTables := world.vmTables - {number});
      }
      if env.deleteLink {
        links := links - {hostVeth};
        world := world.(vmVeths := world.vmVeths - {number});
      }
      VmRestoreForward(prior, env);
    }

    method SetupVm(id: nat, number: nat, env: VmEnv) returns (up: bool)
      requires Valid()
      modifies this
      ensures Valid() && (world, up) == VmUpOutcome(old(world), id, number, env)
      ensures up ==>
        && VmLinkName(number) !in old(links) && VmLinkName(number) in links && VmTableName(number) in tables
        && id in vmGuards && forward == "1"
      ensures !up ==> vmGuards == old(vmGuards)
      ensures OnlyName(VmLinkName(number), old(links), links) && OnlyName(VmTableName(number), old(tables), tables)
    {
      var hostVeth, table := VmLinkName(number), VmTableName(number);
      var ok, prior := EnableForwarding(env.readable, env.forwardWrite);
      if !ok { return false; }
      if !env.netns {
        VmRestoreForward(prior, env);
        return false;
      }
      if hostVeth in links || !env.link {
        TeardownVm(hostVeth, table, prior, env, number);
        return false;
      }
      AddVmLink(hostVeth, number);
      if !env.plumbing || !env.addTable {
        TeardownVm(hostVeth, table, prior, env, number);
        return false;
      }
      AddVmTable(id, hostVeth, table, prior, number);
      up := true;
    }

    method AddVmLink(hostVeth: string, ghost number: nat)
      requires Valid() && hostVeth == VmLinkName(number)
      modifies this`links, this`world
      ensures Valid() && links == old(links) + {hostVeth}
      ensures world == old(world).(vmVeths := old(world).vmVeths + {number})
    {
      VmLinks(links, world.veths, world.vmVeths, number);
      links := links + {hostVeth};
      world := world.(vmVeths := world.vmVeths + {number});
    }

    method AddVmTable(id: nat, hostVeth: string, table: string, prior: Option<string>, ghost number: nat)
      requires Valid() && hostVeth == VmLinkName(number) && table == VmTableName(number)
      modifies this`tables, this`vmGuards, this`world
      ensures Valid() && tables == old(tables) + {table} && id in vmGuards
      ensures world == old(world).(vmTables := old(world).vmTables + {number},
                                   vms := old(world).vms[id := Vm(number, prior)])
    {
      VmTables(tables, world.rules, world.vmTables, number);
      tables := tables + {table};
      vmGuards := vmGuards[id := VmGuard(hostVeth, table, prior)];
      world := world.(vmTables := world.vmTables + {number}, vms := world.vms[id := Vm(number, prior)]);
    }

    method DropVm(id: nat, env: VmEnv)
      requires Valid() && id in vmGuards
      modifies this
      ensures Valid() && world == VmDownOutcome(old(world), id, env)
      ensures vmGuards == old(vmGuards) - {id}
      ensures links == if env.deleteLink then old(links) - {old(vmGuards[id]).hostVeth} else old(links)
      ensures tables == if env.deleteTable then old(tables) - {old(vmGuards[id]).table} else old(tables)
    {
      var guard := vmGuards[id];
      TeardownVm(guard.hostVeth, guard.table, guard.prior, env, world.vms[id].number);
      vmGuards := vmGuards - {id};
      world := world.(vms := world.vms - {id});
    }

    method DoStep(s: Step)
      requires Valid()
      modifies this
      ensures Valid() && world == Apply(old(world), s)
    {
      match s {
        case Setup(id, base, block, env) => if id !in guards { var _ := SetupBlock(id, base, block, env); }
        case Teardown(id, env) => if id in guards { TeardownNet(id, env); }
        case KernelRemovesVeth(block) => LoseVeth(block);
        case VmUp(id, number, env) => if id !in vmGuards { var _ := SetupVm(id, number, env); }
        case VmDown(id, env) => if id in vmGuards { DropVm(id, env); }
      }
    }

    /** Any run of builds and VMs. */
    method RunSteps(steps: seq<Step>)
      requires Valid()
      modifies this
      ensures Valid() && world == Run(old(world), steps)
    {
      for i := 0 to |steps|
        invariant Valid() && world == Run(old(world), steps[..i])
      {
        RunSnoc(old(world), steps[..i], steps[i]);
        assert steps[..i] + [steps[i]] == steps[..i + 1];
        DoStep(steps[i]);
      }
      assert steps[..|steps|] == steps;
    }

    /** One attempt of the walk, after what others did since the last. */
    method TryBlock(id: nat, base: Base, block: Block, others: seq<Step>, env: SetupEnv) returns (r: SetupResult)
      requires Valid() && id !in guards && NotBy(others, id)
      modifies this
      ensures Valid() && AttemptMeaning(Run(old(world), others), id, base, block, env, r, world)
      ensures !r.SetUp? ==> id !in guards
    {
      OthersDoNotBringUp(world, others, id);
      RunSteps(others);
      ghost var before := world;
      r := SetupBlock(id, base, block, env);
      AttemptMeans(before, id, base, block, env);
    }

    /**
    Walk the pool from `pid % 16384` while other builds go on: the first block whose
    veth is free when it is tried, or none after each was taken when it was tried.
    */
    method Claim(pid: nat, id: nat, base: Base, others: nat -> seq<Step>, env: nat -> SetupEnv)
      returns (r: Outcome, tried: nat)
      requires Valid() && id !in guards && forall i :: NotBy(others(i), id)
      modifies this
      ensures Valid() && tried <= SUBNET_BLOCKS
      ensures forall i :: 0 <= i < tried ==> Refused(old(world), pid, others, env, i)
      ensures r.NoFreeSubnet? <==> tried == SUBNET_BLOCKS
      ensures r.Got? ==> r.block == Candidate(pid, tried)
      ensures r.Got? ==> id in guards && HasAddress(guards[id], base, r.block)
      ensures !r.NoFreeSubnet? ==>
        AttemptMeaning(WorldAt(old(world), others, tried), id, base, Candidate(pid, tried), env(tried),
                       if r.Got? then SetUp else SetupFailed, world)
      ensures r.NoFreeSubnet? ==> world == WorldAt(old(world), others, SUBNET_BLOCKS - 1)
    {
      tried := 0;
      while tried < SUBNET_BLOCKS
        invariant Valid() && tried <= SUBNET_BLOCKS && id !in guards
        invariant world == if tried == 0 then old(world) else WorldAt(old(world), others, tried - 1)
        invariant forall i :: 0 <= i < tried ==> Refused(old(world), pid, others, env, i)
      {
        var block := (pid % SUBNET_BLOCKS + tried) % SUBNET_BLOCKS;
        var s := TryBlock(id, base, block, others(tried), env(tried));
        match s {
          case SetUp =>
            GuardHasAddress(world.nets[id]);
            return Got(block), tried;
          case SetupFailed => return Error, tried;
          case LinkExists => tried := tried + 1;
        }
      }
      r := NoFreeSubnet;
    }
  }
}
