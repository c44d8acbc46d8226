/**
The address plans: a /30 for each container out of a /16 that the caller names, a
/29 for each VM out of 10.70.0.0/16, and the order in which blocks are tried.
*/
module EgressPlan {
  const SUBNET_BLOCKS := 16384

  type Octet = n: nat | n < 256
  type Block = n: nat | n < SUBNET_BLOCKS

  /** The two octets that name a /16. */
  datatype Base = Base(a: Octet, b: Octet) {
    function First(): nat {
      a * 0x100_0000 + b * 0x1_0000
    }
  }

  const VM_BASE := Base(10, 70)

  /** An inclusive range of IPv4 addresses. */
  datatype Range = Range(first: nat, last: nat)

  predicate Apart(r: Range, s: Range) {
    r.last < s.first || s.last < r.first
  }

  /** The /30 of a container: network, host, container and broadcast address. */
  function ContainerRange(base: Base, block: Block): Range {
    Range(base.First() + block * 4, base.First() + block * 4 + 3)
  }

  /** The /29 of a VM. */
  function VmRange(id: nat): Range {
    var block := VM_BASE.First() + (id % 8192) * 8;
    Range(block, block + 7)
  }

  /** An IPv4 address in dotted form. */
  datatype Dotted = Dotted(a: nat, b: nat, c: nat, d: nat)

  function Octets(address: nat): Dotted {
    Dotted(address / 0x100_0000, address / 0x1_0000 % 256, address / 256 % 256, address % 256)
  }

  /** The addresses of block `x` of the /16 `a.b`: its network, and the container two further on. */
  lemma ContainerAddress(base: Base, x: Block)
    ensures var first := ContainerRange(base, x).first;
      && Octets(first) == Dotted(base.a, base.b, 4 * x / 256, 4 * x % 256)
      && Octets(first + 2) == Dotted(base.a, base.b, (4 * x + 2) / 256, (4 * x + 2) % 256)
      && ContainerRange(base, x).last == first + 3
  {
    DottedMeaning(base.a, base.b, 4 * x);
    DottedMeaning(base.a, base.b, 4 * x + 2);
  }

  /** The block of VM `id` in 10.70.0.0/16. */
  lemma VmAddress(id: nat)
    ensures var first := VmRange(id).first;
      && Octets(first) == Dotted(10, 70, id % 8192 * 8 / 256, id % 8192 * 8 % 256)
      && VmRange(id).last == first + 7
  {
    DottedMeaning(10, 70, id % 8192 * 8);
  }

  lemma DottedMeaning(a: Octet, b: Octet, rest: nat)
    requires rest < 0x1_0000
    ensures Octets(a * 0x100_0000 + b * 0x1_0000 + rest) == Dotted(a, b, rest / 256, rest % 256)
  {
    var n := a * 0x100_0000 + b * 0x1_0000 + rest;
    assert n / 0x1_0000 == a * 256 + b;
    assert n == (a * 0x1_0000 + b * 256) * 256 + rest;
    assert n / 256 == a * 0x1_0000 + b * 256 + rest / 256;
  }

  /** A block stays in its /16, no address leaves 32 bits, and two are apart unless base and block agree. */
  lemma ContainerRangesApart(p: Base, x: Block, q: Base, y: Block)
    ensures p.First() <= ContainerRange(p, x).first && ContainerRange(p, x).last < p.First() + 0x1_0000 <= 0x1_0000_0000
    ensures Apart(ContainerRange(p, x), ContainerRange(q, y)) <==> (p, x) != (q, y)
  {
    BasesApart(p, q);
    if p == q {
      assert x < y ==> x * 4 + 3 < y * 4;
      assert y < x ==> y * 4 + 3 < x * 4;
    }
  }

  lemma BasesApart(p: Base, q: Base)
    ensures p == q || p.First() + 0x1_0000 <= q.First() || q.First() + 0x1_0000 <= p.First()
  {
    if p.a < q.a {
      assert p.a * 0x100_0000 + 0x100_0000 <= q.a * 0x100_0000 && p.b * 0x1_0000 + 0x1_0000 <= 0x100_0000;
    } else if q.a < p.a {
      assert q.a * 0x100_0000 + 0x100_0000 <= p.a * 0x100_0000 && q.b * 0x1_0000 + 0x1_0000 <= 0x100_0000;
    }
  }

  /**
  VM blocks are apart exactly when the ids differ modulo 8192.  A VM's meets a
  container's exactly when the container was given the /16 of the VMs and lies in it.
  */
  lemma VmRangesApart(id: nat, id': nat, base: Base, block: Block)
    ensures Apart(VmRange(id), VmRange(id')) <==> id % 8192 != id' % 8192
    ensures Apart(VmRange(id), ContainerRange(base, block)) <==> base != VM_BASE || block / 2 != id % 8192
  {
    var k, k' := id % 8192, id' % 8192;
    assert k < k' ==> k * 8 + 7 < k' * 8;
    assert k' < k ==> k' * 8 + 7 < k * 8;
    BasesApart(base, VM_BASE);
    VmMeetsBlock(k, block);
  }

  lemma VmMeetsBlock(k: nat, block: nat)
    ensures k * 8 + 7 < block * 4 || block * 4 + 3 < k * 8 <==> block / 2 != k
  {
    assert block == block / 2 * 2 + block % 2;
  }

  // ------------------------------------------------------------- the claim walk

  /** The `i`-th block tried. */
  function Candidate(pid: nat, i: nat): Block {
    (pid % SUBNET_BLOCKS + i) % SUBNET_BLOCKS
  }

  /** The walk starts at `pid % 16384`, goes up by one and wraps round, and so meets every block exactly once. */
  lemma WalkMeetsEachBlockOnce(pid: nat, block: Block)
    ensures Candidate(pid, 0) == pid % 16384
    ensures forall i: nat :: Candidate(pid, i + 1) == if Candidate(pid, i) == 16383 then 0 else Candidate(pid, i) + 1
    ensures exists i :: 0 <= i < SUBNET_BLOCKS && Candidate(pid, i) == block
    ensures forall i, j :: 0 <= i < j < SUBNET_BLOCKS ==> Candidate(pid, i) != Candidate(pid, j)
  {
    var start := pid % SUBNET_BLOCKS;
    var i := if start <= block then block - start else block + SUBNET_BLOCKS - start;
    assert 0 <= i < SUBNET_BLOCKS && Candidate(pid, i) == block;
  }
}
