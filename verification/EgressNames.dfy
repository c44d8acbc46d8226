/**
The names under which the host keeps the state of builds and VMs, as text, and how
the listing of nft tables is searched for them.
*/
module EgressNames {
  import opened Wrappers
  import opened Decimals
  import opened EgressPlan
  import opened EgressWorld

  /** The marker searched for in the listing. */
  const NAT := "umf-nat-"

  function Number(n: nat): string {
    seq(|Decimal(n)|, i requires 0 <= i < |Decimal(n)| => Decimal(n)[i] as int as char)
  }

  /** The host end of a build's veth, and its table. */
  function LinkName(block: Block): string {
    "umfv" + Number(block) + "h"
  }

  function TableName(block: Block): string {
    NAT + Number(block)
  }

  /** The host end of a VM's veth, and its table. */
  function VmLinkName(number: nat): string {
    "vmh" + Number(number)
  }

  function VmTableName(number: nat): string {
    "umf-vmfwd-" + Number(number)
  }

  /** How the names look. */
  lemma NamesSpelt()
    ensures LinkName(0) == "umfv0h" && TableName(12) == "umf-nat-12"
    ensures VmLinkName(7) == "vmh7" && VmTableName(45) == "umf-vmfwd-45"
  {
    assert Decimal(0) == [48] && Decimal(7) == [55];
    assert Decimal(1) == [49] && Decimal(12) == [49, 50] && Decimal(4) == [52] && Decimal(45) == [52, 53];
    assert Number(0) == "0" && Number(12) == "12" && Number(7) == "7" && Number(45) == "45";
  }

  lemma NumberIsInjective(m: nat, n: nat)
    requires Number(m) == Number(n)
    ensures m == n
  {
    assert |Decimal(m)| == |Number(m)| == |Decimal(n)|;
    forall i | 0 <= i < |Decimal(m)| ensures Decimal(m)[i] == Decimal(n)[i] {
      assert Number(m)[i] == Number(n)[i];
    }
    DecimalIsInjective(m, n);
  }

  lemma BuildNamesAreInjective(x: Block, y: Block)
    ensures LinkName(x) == LinkName(y) <==> x == y
    ensures TableName(x) == TableName(y) <==> x == y
  {
    if LinkName(x) == LinkName(y) {
      assert LinkName(x)[4..|LinkName(x)| - 1] == Number(x) && LinkName(y)[4..|LinkName(y)| - 1] == Number(y);
      NumberIsInjective(x, y);
    }
    if TableName(x) == TableName(y) {
      assert TableName(x)[8..] == Number(x) && TableName(y)[8..] == Number(y);
      NumberIsInjective(x, y);
    }
  }

  lemma VmNamesAreInjective(m: nat, n: nat)
    ensures VmLinkName(m) == VmLinkName(n) <==> m == n
    ensures VmTableName(m) == VmTableName(n) <==> m == n
  {
    if VmLinkName(m) == VmLinkName(n) {
      assert VmLinkName(m)[3..] == Number(m) && VmLinkName(n)[3..] == Number(n);
      NumberIsInjective(m, n);
    }
    if VmTableName(m) == VmTableName(n) {
      assert VmTableName(m)[10..] == Number(m) && VmTableName(n)[10..] == Number(n);
      NumberIsInjective(m, n);
    }
  }

  /** No name of a build is a name of a VM. */
  lemma KindsHaveOwnNames(block: Block, number: nat)
    ensures LinkName(block) != VmLinkName(number) && TableName(block) != VmTableName(number)
  {
    assert LinkName(block)[0] == 'u' && VmLinkName(number)[0] == 'v';
    assert TableName(block)[4] == 'n' && VmTableName(number)[4] == 'v';
  }

  // ------------------------------------------------------------- the listing

  predicate At(text: string, part: string, i: nat) {
    i + |part| <= |text| && text[i..i + |part|] == part
  }

  predicate Contains(text: string, part: string) {
    exists i :: 0 <= i <= |text| && At(text, part, i)
  }

  lemma AtJoined(a: string, b: string, part: string, i: nat)
    ensures At(a, part, i) ==> At(a + b, part, i)
    ensures At(b, part, i) ==> At(a + b, part, |a| + i)
    ensures i + |part| <= |a| && At(a + b, part, i) ==> At(a, part, i)
    ensures |a| <= i && At(a + b, part, i) ==> At(b, part, i - |a|)
    ensures i < |a| < i + |part| && At(a + b, part, i) ==> a[|a| - 1] in part
  {
    if i + |part| <= |a| { assert (a + b)[i..i + |part|] == a[i..i + |part|]; }
    if i + |part| <= |b| { assert (a + b)[|a| + i..|a| + i + |part|] == b[i..i + |part|]; }
    if |a| <= i && i + |part| <= |a + b| { assert (a + b)[i..i + |part|] == b[i - |a|..i - |a| + |part|]; }
    if i < |a| < i + |part| && At(a + b, part, i) { assert (a + b)[i..i + |part|][|a| - 1 - i] == a[|a| - 1]; }
  }

  /** Across a character that the part does not have, nothing new is found. */
  lemma ContainsJoined(a: string, b: string, part: string)
    requires part != [] && (a == [] || a[|a| - 1] !in part)
    ensures Contains(a + b, part) <==> Contains(a, part) || Contains(b, part)
  {
    if Contains(a, part) {
      var i :| 0 <= i <= |a| && At(a, part, i);
      AtJoined(a, b, part, i);
    }
    if Contains(b, part) {
      var i :| 0 <= i <= |b| && At(b, part, i);
      AtJoined(a, b, part, i);
    }
    if Contains(a + b, part) {
      var i :| 0 <= i <= |a + b| && At(a + b, part, i);
      AtJoined(a, b, part, i);
      assert i + |part| <= |a| || |a| <= i;
    }
  }

  /** What `nft list tables` prints for one table. */
  function Line(table: string): string {
    "table inet " + table + "\n"
  }

  /** The marker is in the line exactly when it is in the name. */
  lemma LineShows(table: string)
    ensures Contains(Line(table), NAT) <==> Contains(table, NAT)
  {
    assert Line(table) == "table inet " + (table + "\n");
    HeadHasNoMarker();
    ContainsJoined("table inet ", table + "\n", NAT);
    MarkerBeforeEnd(table);
  }

  lemma HeadHasNoMarker()
    ensures !Contains("table inet ", NAT)
  {
    var head := "table inet ";
    assert head[0] != 'u' && head[1] != 'u' && head[2] != 'u' && head[3] != 'u';
    forall i: nat ensures !At(head, NAT, i) {
      if i + |NAT| <= |head| { assert head[i..i + |NAT|][0] == head[i]; }
    }
  }

  lemma MarkerBeforeEnd(table: string)
    ensures Contains(table + "\n", NAT) <==> Contains(table, NAT)
  {
    var text := table + "\n";
    assert |NAT| == 8 && NAT[7] == '-';
    forall i: nat ensures At(text, NAT, i) <==> At(table, NAT, i) {
      AtJoined(table, "\n", NAT, i);
      if i + 8 == |text| { assert text[i..i + 8][7] == '\n'; }
    }
  }

  lemma BuildTableIsNat(block: Block)
    ensures Contains(TableName(block), NAT)
  {
    assert At(TableName(block), NAT, 0);
  }

  /** A VM's table does not look like a build's. */
  lemma VmTableIsNotNat(number: nat)
    ensures !Contains(VmTableName(number), NAT)
  {
    var head, name := "umf-vmfwd-", VmTableName(number);
    DecimalParses(number);
    assert forall j :: 10 <= j < |name| ==> IsDigit(Decimal(number)[j - 10]) && name[j] == Decimal(number)[j - 10] as int as char;
    assert forall j :: 0 < j < 10 ==> head[j] != 'u' && name[j] == head[j];
    forall i: nat ensures !At(name, NAT, i) {
      if i + |NAT| <= |name| {
        assert name[i..i + |NAT|][0] == name[i] && name[i..i + |NAT|][4] == name[i + 4];
      }
    }
  }

  // ------------------------------------------------------ what the names stand for

  predicate HasTable(rules: set<Rules>, block: Block) {
    exists r :: r in rules && r.block == block
  }

  /** The interface names that exist are those of the veths; other interfaces do not matter. */
  ghost predicate LinksMatch(links: set<string>, veths: set<Veth>, vmVeths: set<nat>) {
    && (forall b: Block :: LinkName(b) in links <==> Taken(veths, b))
    && (forall n: nat :: VmLinkName(n) in links <==> n in vmVeths)
  }

  /** The tables that exist, and no foreign one that looks like a build's. */
  ghost predicate TablesMatch(tables: set<string>, rules: set<Rules>, vmTables: set<nat>) {
    && (forall b: Block :: TableName(b) in tables <==> HasTable(rules, b))
    && (forall n: nat :: VmTableName(n) in tables <==> n in vmTables)
    && (forall t :: t in tables && Contains(t, NAT) ==> exists b: Block :: t == TableName(b))
  }

  /** The listing shows a build's table exactly when rules remain, never because of a VM's. */
  lemma ListedIffRulesRemain(tables: set<string>, rules: set<Rules>, vmTables: set<nat>)
    requires TablesMatch(tables, rules, vmTables)
    ensures (exists t :: t in tables && Contains(t, NAT)) <==> rules != {}
  {
    if t :| t in tables && Contains(t, NAT) {
      var b: Block :| t == TableName(b);
      assert HasTable(rules, b);
    }
    if rules != {} {
      var r :| r in rules;
      assert HasTable(rules, r.block);
      BuildTableIsNat(r.block);
      assert TableName(r.block) in tables;
    }
  }

  lemma AddLink(links: set<string>, veths: set<Veth>, vmVeths: set<nat>, v: Veth)
    requires LinksMatch(links, veths, vmVeths)
    ensures LinksMatch(links + {LinkName(v.block)}, veths + {v}, vmVeths)
  {
    forall b: Block ensures LinkName(b) in links + {LinkName(v.block)} <==> Taken(veths + {v}, b) {
      BuildNamesAreInjective(b, v.block);
      if Taken(veths, b) { var u :| u in veths && u.block == b; assert u in veths + {v}; }
      if b == v.block { assert v in veths + {v}; }
    }
    forall n: nat ensures VmLinkName(n) != LinkName(v.block) { KindsHaveOwnNames(v.block, n); }
  }

  /** Deleting an interface by name takes every veth of the block, whoever made it. */
  lemma RemoveLink(links: set<string>, veths: set<Veth>, vmVeths: set<nat>, block: Block)
    requires LinksMatch(links, veths, vmVeths)
    ensures LinksMatch(links - {LinkName(block)}, WithoutLink(veths, block), vmVeths)
  {
    forall b: Block ensures LinkName(b) in links - {LinkName(block)} <==> Taken(WithoutLink(veths, block), b) {
      BuildNamesAreInjective(b, block);
      if b != block && Taken(veths, b) {
        var u :| u in veths && u.block == b;
        assert u in WithoutLink(veths, block);
      }
    }
    forall n: nat ensures VmLinkName(n) != LinkName(block) { KindsHaveOwnNames(block, n); }
  }

  lemma AddTable(tables: set<string>, rules: set<Rules>, vmTables: set<nat>, r: Rules)
    requires TablesMatch(tables, rules, vmTables)
    ensures TablesMatch(tables + {TableName(r.block)}, rules + {r}, vmTables)
  {
    forall b: Block ensures TableName(b) in tables + {TableName(r.block)} <==> HasTable(rules + {r}, b) {
      BuildNamesAreInjective(b, r.block);
      if HasTable(rules, b) { var q :| q in rules && q.block == b; assert q in rules + {r}; }
      if b == r.block { assert r in rules + {r}; }
    }
    forall n: nat ensures VmTableName(n) != TableName(r.block) { KindsHaveOwnNames(r.block, n); }
  }

  /** Deleting a table by name takes the rules of every build with the block. */
  lemma RemoveTable(tables: set<string>, rules: set<Rules>, vmTables: set<nat>, block: Block)
    requires TablesMatch(tables, rules, vmTables)
    ensures TablesMatch(tables - {TableName(block)}, WithoutTable(rules, block), vmTables)
  {
    forall b: Block ensures TableName(b) in tables - {TableName(block)} <==> HasTable(WithoutTable(rules, block), b) {
      BuildNamesAreInjective(b, block);
      if b != block && HasTable(rules, b) {
        var q :| q in rules && q.block == b;
        assert q in WithoutTable(rules, block);
      }
    }
    forall n: nat ensures VmTableName(n) != TableName(block) { KindsHaveOwnNames(block, n); }
  }

  lemma VmLinks(links: set<string>, veths: set<Veth>, vmVeths: set<nat>, number: nat)
    requires LinksMatch(links, veths, vmVeths)
    ensures LinksMatch(links + {VmLinkName(number)}, veths, vmVeths + {number})
    ensures LinksMatch(links - {VmLinkName(number)}, veths, vmVeths - {number})
  {
    forall b: Block ensures VmLinkName(number) != LinkName(b) { KindsHaveOwnNames(b, number); }
    forall n: nat ensures VmLinkName(n) == VmLinkName(number) <==> n == number { VmNamesAreInjective(n, number); }
  }

  lemma VmTables(tables: set<string>, rules: set<Rules>, vmTables: set<nat>, number: nat)
    requires TablesMatch(tables, rules, vmTables)
    ensures TablesMatch(tables + {VmTableName(number)}, rules, vmTables + {number})
    ensures TablesMatch(tables - {VmTableName(number)}, rules, vmTables - {number})
  {
    VmTableIsNotNat(number);
    forall b: Block ensures VmTableName(number) != TableName(b) { KindsHaveOwnNames(b, number); }
    forall n: nat ensures VmTableName(n) == VmTableName(number) <==> n == number { VmNamesAreInjective(n, number); }
  }
}
