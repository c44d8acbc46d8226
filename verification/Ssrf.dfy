/**
The egress policy: which host-internal addresses a build may not reach.

The same policy is enforced twice, by a hand-written classifier asked before a
connection is opened and by a packet filter generated from a list of prefixes.
Prefixes are given one meaning, `InPrefix`, and both are measured against it.
*/
module Ssrf {
  import opened Wrappers

  type Octets = seq<bv8>

  datatype Address = V4(octets: Octets) | V6(octets: Octets) {
    predicate Valid() {
      |octets| == if V4? then 4 else 16
    }
  }

  datatype Category = Loopback | LinkLocal | Rfc1918 | UniqueLocal | Cgnat

  const ALL := [Loopback, LinkLocal, Rfc1918, UniqueLocal, Cgnat]

  // ------------------------------------------------------------------- prefixes

  datatype Prefix = Prefix(net: Octets, length: nat)

  /** The leading `bits` (fewer than eight) of an octet. */
  function Leading(o: bv8, bits: nat): bv8
    requires bits < 8
  {
    o & (match bits
         case 0 => 0x00
         case 1 => 0x80
         case 2 => 0xc0
         case 3 => 0xe0
         case 4 => 0xf0
         case 5 => 0xf8
         case 6 => 0xfc
         case _ => 0xfe)
  }

  /** `o` agrees with the network on its first `length` bits. */
  predicate InPrefix(o: Octets, p: Prefix) {
    var whole, part := p.length / 8, p.length % 8;
    && |o| == |p.net|
    && p.length <= 8 * |o|
    && o[..whole] == p.net[..whole]
    && (part > 0 ==> Leading(o[whole], part) == Leading(p.net[whole], part))
  }

  /** The IPv4 prefixes of a category that the packet filter is given. */
  function V4Prefixes(c: Category): seq<Prefix> {
    match c
    case Loopback => [Prefix([127, 0, 0, 0], 8)]
    case LinkLocal => [Prefix([169, 254, 0, 0], 16)]
    case Rfc1918 => [Prefix([10, 0, 0, 0], 8), Prefix([172, 16, 0, 0], 12), Prefix([192, 168, 0, 0], 16)]
    case UniqueLocal => []
    case Cgnat => [Prefix([100, 64, 0, 0], 10)]
  }

  const UNSPECIFIED_V4: Octets := [0, 0, 0, 0]
  const UNSPECIFIED_V6: Octets := [0, 0, 0, 0, 0, 0, 0, 0, 0, 0, 0, 0, 0, 0, 0, 0]
  const LOOPBACK_V6: Octets := [0, 0, 0, 0, 0, 0, 0, 0, 0, 0, 0, 0, 0, 0, 0, 1]
  const FE80: Octets := [0xfe, 0x80, 0, 0, 0, 0, 0, 0, 0, 0, 0, 0, 0, 0, 0, 0]
  const FC00: Octets := [0xfc, 0, 0, 0, 0, 0, 0, 0, 0, 0, 0, 0, 0, 0, 0, 0]
  const MAPPED: Octets := [0, 0, 0, 0, 0, 0, 0, 0, 0, 0, 0xff, 0xff]

  /** The IPv6 prefixes the documentation gives for a category. */
  function V6Prefixes(c: Category): seq<Prefix> {
    match c
    case Loopback => [Prefix(LOOPBACK_V6, 128), Prefix(UNSPECIFIED_V6, 128)]
    case LinkLocal => [Prefix(FE80, 10)]
    case UniqueLocal => [Prefix(FC00, 7)]
    case _ => []
  }

  // ----------------------------------------------------------------- classifier

  function ClassifyV4(o: Octets): Option<Category>
    requires |o| == 4
  {
    if o[0] == 127 || o == UNSPECIFIED_V4 then Some(Loopback)
    else if o[0] == 169 && o[1] == 254 then Some(LinkLocal)
    else if o[0] == 100 && o[1] & 0xc0 == 0x40 then Some(Cgnat)
    else if o[0] == 10 || (o[0] == 172 && 0x10 <= o[1] <= 0x1f) || (o[0] == 192 && o[1] == 168) then Some(Rfc1918)
    else None
  }

  function ClassifyV6(o: Octets): Option<Category>
    requires |o| == 16
  {
    if o == LOOPBACK_V6 || o == UNSPECIFIED_V6 then Some(Loopback)
    else if o[0] == 0xfe && o[1] & 0xc0 == 0x80 then Some(LinkLocal)
    else if o[0] & 0xfe == 0xfc then Some(UniqueLocal)
    else None
  }

  /** `::ffff:a.b.c.d` stands for `a.b.c.d`. */
  function ToV4Mapped(o: Octets): Option<Octets>
    requires |o| == 16
  {
    if o[..12] == MAPPED then Some(o[12..]) else None
  }

  function Classify(ip: Address): Option<Category>
    requires ip.Valid()
  {
    match ip
    case V4(o) => ClassifyV4(o)
    case V6(o) =>
      match ToV4Mapped(o)
      case Some(v4) => ClassifyV4(v4)
      case None => ClassifyV6(o)
  }

  // -------------------------------------------------- what the classifier means

  /** `o` lies in one of the prefixes. */
  ghost predicate InSome(o: Octets, ps: seq<Prefix>) {
    exists i :: 0 <= i < |ps| && InPrefix(o, ps[i])
  }

  /** The IPv4 addresses of a category, by prefixes alone; `0.0.0.0` counts as loopback. */
  ghost predicate BelongsV4(o: Octets, c: Category) {
    InSome(o, V4Prefixes(c)) || (c == Loopback && o == UNSPECIFIED_V4)
  }

  /** The addresses of a category. */
  ghost predicate Belongs(ip: Address, c: Category)
    requires ip.Valid()
  {
    match ip
    case V4(o) => BelongsV4(o, c)
    case V6(o) => if o[..12] == MAPPED then BelongsV4(o[12..], c) else InSome(o, V6Prefixes(c))
  }

  lemma V4PrefixMeaning(o: Octets, c: Category)
    requires |o| == 4
    ensures InSome(o, V4Prefixes(c)) <==>
      match c
      case Loopback => o[0] == 127
      case LinkLocal => o[0] == 169 && o[1] == 254
      case Rfc1918 => o[0] == 10 || (o[0] == 172 && 0x10 <= o[1] <= 0x1f) || (o[0] == 192 && o[1] == 168)
      case UniqueLocal => false
      case Cgnat => o[0] == 100 && o[1] & 0xc0 == 0x40
  {
    var ps := V4Prefixes(c);
    assert o[..1] == [o[0]] && o[..2] == [o[0], o[1]];
    match c
    case Loopback => assert InPrefix(o, ps[0]) <==> o[0] == 127;
    case LinkLocal => assert InPrefix(o, ps[0]) <==> o[0] == 169 && o[1] == 254;
    case Rfc1918 =>
      assert InPrefix(o, ps[0]) <==> o[0] == 10;
      assert InPrefix(o, ps[1]) <==> o[0] == 172 && o[1] & 0xf0 == 0x10;
      assert InPrefix(o, ps[2]) <==> o[0] == 192 && o[1] == 168;
      HighNibble(o[1]);
    case UniqueLocal =>
    case Cgnat => assert InPrefix(o, ps[0]) <==> o[0] == 100 && o[1] & 0xc0 == 0x40;
  }

  lemma HighNibble(x: bv8)
    ensures x & 0xf0 == 0x10 <==> 0x10 <= x <= 0x1f
  {
  }

  lemma V6PrefixMeaning(o: Octets, c: Category)
    requires |o| == 16
    ensures InSome(o, V6Prefixes(c)) <==>
      match c
      case Loopback => (forall i :: 0 <= i < 15 ==> o[i] == 0) && (o[15] == 0 || o[15] == 1)
      case LinkLocal => o[0] == 0xfe && o[1] & 0xc0 == 0x80
      case UniqueLocal => o[0] & 0xfe == 0xfc
      case _ => false
  {
    var ps := V6Prefixes(c);
    assert o[..16] == o && o[..1] == [o[0]] && o[..0] == [];
    match c
    case Loopback =>
      V6Ends(o);
      assert LOOPBACK_V6[..16] == LOOPBACK_V6 && UNSPECIFIED_V6[..16] == UNSPECIFIED_V6;
      assert InPrefix(o, ps[0]) <==> o == LOOPBACK_V6;
      assert InPrefix(o, ps[1]) <==> o == UNSPECIFIED_V6;
    case LinkLocal =>
      assert FE80[..1] == [0xfe];
      assert InPrefix(o, ps[0]) <==> o[0] == 0xfe && o[1] & 0xc0 == 0x80;
    case UniqueLocal =>
      assert FC00[..0] == [];
      assert InPrefix(o, ps[0]) <==> o[0] & 0xfe == 0xfc;
    case _ =>
  }

  lemma V6Ends(o: Octets)
    requires |o| == 16
    ensures (o == LOOPBACK_V6 || o == UNSPECIFIED_V6) <==>
      (forall i :: 0 <= i < 15 ==> o[i] == 0) && (o[15] == 0 || o[15] == 1)
  {
    assert forall i :: 0 <= i < 15 ==> LOOPBACK_V6[i] == 0 && UNSPECIFIED_V6[i] == 0;
    assert LOOPBACK_V6[15] == 1 && UNSPECIFIED_V6[15] == 0;
    if (forall i :: 0 <= i < 15 ==> o[i] == 0) && o[15] == 1 { assert o == LOOPBACK_V6; }
    if (forall i :: 0 <= i < 15 ==> o[i] == 0) && o[15] == 0 { assert o == UNSPECIFIED_V6; }
  }

  /** The classifier names the category an address belongs to, and no other category claims it. */
  lemma ClassifyIsMembership(ip: Address, c: Category)
    requires ip.Valid()
    ensures Classify(ip) == Some(c) <==> Belongs(ip, c)
  {
    match ip
    case V4(o) => ClassifyV4IsMembership(o, c);
    case V6(o) =>
      if o[..12] == MAPPED {
        ClassifyV4IsMembership(o[12..], c);
      } else {
        V6PrefixMeaning(o, c);
      }
  }

  lemma ClassifyV4IsMembership(o: Octets, c: Category)
    requires |o| == 4
    ensures ClassifyV4(o) == Some(c) <==> BelongsV4(o, c)
  {
    V4PrefixMeaning(o, c);
  }

  /** Categories do not overlap, so the order of the classifier's tests is irrelevant. */
  lemma CategoriesAreDisjoint(ip: Address, c: Category, d: Category)
    requires ip.Valid() && Belongs(ip, c) && Belongs(ip, d)
    ensures c == d
  {
    ClassifyIsMembership(ip, c);
    ClassifyIsMembership(ip, d);
  }

  // --------------------------------------------------------------------- policy

  type Policy = set<Category>  // the denied categories

  datatype Decision = Allow | Deny(category: Category)

  function Decide(policy: Policy, ip: Address): Decision
    requires ip.Valid()
  {
    match Classify(ip)
    case Some(c) => if c in policy then Deny(c) else Allow
    case None => Allow
  }

  /** An address is denied for a category exactly when it belongs to it and the policy denies it. */
  lemma DecideMeaning(policy: Policy, ip: Address, c: Category)
    requires ip.Valid()
    ensures Decide(policy, ip) == Deny(c) <==> Belongs(ip, c) && c in policy
  {
    ClassifyIsMembership(ip, c);
  }

  /** An IPv4-mapped address is decided as the IPv4 address it stands for. */
  lemma MappedDecidesAsV4(policy: Policy, v4: Octets)
    requires |v4| == 4
    ensures Decide(policy, V6([0, 0, 0, 0, 0, 0, 0, 0, 0, 0, 0xff, 0xff] + v4)) == Decide(policy, V4(v4))
  {
    assert MAPPED == [0, 0, 0, 0, 0, 0, 0, 0, 0, 0, 0xff, 0xff];
    assert (MAPPED + v4)[..12] == MAPPED && (MAPPED + v4)[12..] == v4;
  }

  /** The prefixes of the denied categories, in canonical order. */
  function DeniedFrom(policy: Policy, cats: seq<Category>): seq<Prefix> {
    if cats == [] then []
    else (if cats[0] in policy then V4Prefixes(cats[0]) else []) + DeniedFrom(policy, cats[1..])
  }

  function DeniedV4Prefixes(policy: Policy): seq<Prefix> {
    DeniedFrom(policy, ALL)
  }

  lemma InSomeConcat(o: Octets, a: seq<Prefix>, b: seq<Prefix>)
    ensures InSome(o, a + b) <==> InSome(o, a) || InSome(o, b)
  {
    if InSome(o, a) {
      var i :| 0 <= i < |a| && InPrefix(o, a[i]);
      assert (a + b)[i] == a[i];
    }
    if InSome(o, b) {
      var i :| 0 <= i < |b| && InPrefix(o, b[i]);
      assert (a + b)[|a| + i] == b[i];
    }
  }

  lemma {:induction false} DeniedFromMeaning(o: Octets, policy: Policy, cats: seq<Category>)
    ensures InSome(o, DeniedFrom(policy, cats)) <==>
              exists c :: c in cats && c in policy && InSome(o, V4Prefixes(c))
  {
    if cats != [] {
      DeniedFromMeaning(o, policy, cats[1..]);
      InSomeConcat(o, if cats[0] in policy then V4Prefixes(cats[0]) else [], DeniedFrom(policy, cats[1..]));
      assert forall c :: c in cats <==> c == cats[0] || c in cats[1..];
    }
  }

  lemma AllListed(c: Category)
    ensures c in ALL
  {
    assert ALL[0] == Loopback && ALL[1] == LinkLocal && ALL[2] == Rfc1918;
    assert ALL[3] == UniqueLocal && ALL[4] == Cgnat;
  }

  // -------------------------------------------------------------- packet filter

  /** One table: masquerade the subnet, and drop its routed packets to the listed prefixes. */
  datatype Ruleset = Ruleset(masquerade: Prefix, drops: Option<(Prefix, seq<Prefix>)>)

  /** The generated table; without denied prefixes it has no forward chain. */
  function MasqueradeRuleset(subnet: Prefix, deny: seq<Prefix>): Ruleset {
    Ruleset(subnet, if deny == [] then None else Some((subnet, deny)))
  }

  /** The forward chain's verdict on a routed IPv4 packet. */
  ghost predicate Drops(r: Ruleset, source: Octets, destination: Octets) {
    match r.drops
    case None => false
    case Some((subnet, deny)) => InPrefix(source, subnet) && InSome(destination, deny)
  }

  /**
  The two enforcement points agree on an IPv4 destination exactly when it is not
  `0.0.0.0` or loopback is allowed: the filter has no prefix for `0.0.0.0`.
  */
  lemma DecisionMatchesFilter(policy: Policy, subnet: Prefix, source: Octets, destination: Octets)
    requires |destination| == 4 && InPrefix(source, subnet)
    ensures
      var denied := Decide(policy, V4(destination)).Deny?;
      var dropped := Drops(MasqueradeRuleset(subnet, DeniedV4Prefixes(policy)), source, destination);
      denied == dropped <==> destination != [0, 0, 0, 0] || Loopback !in policy
  {
    var deny := DeniedV4Prefixes(policy);
    assert UNSPECIFIED_V4 == [0, 0, 0, 0];
    DeniedFromMeaning(destination, policy, ALL);
    forall c: Category ensures c in ALL { AllListed(c); }
    assert Drops(MasqueradeRuleset(subnet, deny), source, destination) <==> InSome(destination, deny);
    forall c: Category
      ensures ClassifyV4(destination) == Some(c) <==>
                InSome(destination, V4Prefixes(c)) || (c == Loopback && destination == UNSPECIFIED_V4)
    {
      ClassifyV4IsMembership(destination, c);
    }
    forall c: Category ensures destination == UNSPECIFIED_V4 ==> !InSome(destination, V4Prefixes(c)) {
      V4PrefixMeaning(destination, c);
    }
  }
}
