/**
The entry order of the initramfs archive.  The kernel unpacks the archive front to
back and does not create missing directories, so each entry's directory has to
come before it; a directory shipped twice would be unpacked twice.
*/
module ArchiveOrder {
  import opened Wrappers
  import opened Paths

  datatype Kind = Directory | File | Symlink

  datatype Entry = Entry(path: Path, kind: Kind)

  /** `path` and its ancestors strictly below `root`, root first; all of them when `root` is no ancestor. */
  function Lineage(path: Path, root: Path): (chain: seq<Path>)
  {
    var from := if root <= path then |root| + 1 else 0;
    seq(|path| + 1 - from, i requires 0 <= i < |path| + 1 - from => path[..from + i])
  }

  method WalkAncestors(path: Path, root: Path) returns (chain: seq<Path>)
    ensures chain == Lineage(path, root)
  {
    var reversed: seq<Path> := [];
    var cur := Some(path);
    while cur.Some? && cur.value != root
      invariant cur.Some? ==> cur.value <= path && |reversed| == |path| - |cur.value|
      invariant cur.Some? && root <= path ==> root <= cur.value
      invariant cur.None? ==> |reversed| == |path| + 1 && !(root <= path)
      invariant forall i :: 0 <= i < |reversed| ==> i <= |path| && reversed[i] == path[..|path| - i]
      decreases if cur.Some? then |cur.value| + 1 else 0
    {
      var p := cur.value;
      assert p == path[..|p|];
      reversed := reversed + [p];
      if p == [] {
        cur := None;
      } else {
        if root <= path { assert root == p[..|root|] && |root| < |p|; }
        assert Parent(p) == path[..|p| - 1];
        cur := Some(Parent(p));
      }
    }
    chain := seq(|reversed|, i requires 0 <= i < |reversed| => reversed[|reversed| - 1 - i]);
  }

  // ------------------------------------------------------------------ the order

  /** The directory of entry `i`, if it is below the top level, comes before it. */
  ghost predicate ParentBefore(entries: seq<Entry>, i: nat)
    requires i < |entries|
  {
    1 < |entries[i].path| ==> Entry(Parent(entries[i].path), Directory) in entries[..i]
  }

  ghost predicate ParentsFirst(entries: seq<Entry>) {
    forall i :: 0 <= i < |entries| ==> ParentBefore(entries, i)
  }

  /** No directory is listed twice. */
  ghost predicate DirsOnce(entries: seq<Entry>) {
    forall i, j :: 0 <= i < j < |entries| && entries[i].kind.Directory? && entries[j].kind.Directory? ==>
      entries[i].path != entries[j].path
  }

  function ModulesPrefix(release: string): Path {
    ["lib", "modules", release]
  }

  function Dir(name: string): Entry {
    Entry([name], Directory)
  }

  const TOP_DIRS := [".", "bin", "sbin", "dev", "proc", "sys", "sysroot", "lib"]

  const APPLETS := ["sh", "mount", "umount", "modprobe", "insmod", "switch_root"]

  /** A directory on the way from the prefix to one of the modules. */
  ghost predicate OnTheWay(prefix: Path, modules: seq<Path>, p: Path) {
    exists i :: 0 <= i < |modules| && prefix <= p && p < prefix + modules[i]
  }

  lemma AppendEntry(entries: seq<Entry>, e: Entry)
    requires ParentsFirst(entries) && DirsOnce(entries)
    requires 1 < |e.path| ==> Entry(Parent(e.path), Directory) in entries
    requires e.kind.Directory? ==> e !in entries
    ensures ParentsFirst(entries + [e]) && DirsOnce(entries + [e])
  {
    var after := entries + [e];
    forall i | 0 <= i < |after| ensures ParentBefore(after, i) {
      if i < |entries| {
        assert ParentBefore(entries, i) && after[..i] == entries[..i];
      } else {
        assert after[..i] == entries;
      }
    }
    forall i | 0 <= i < |entries| && entries[i].kind.Directory? && e.kind.Directory? ensures entries[i].path != e.path {
      assert entries[i] in entries;
    }
  }

  /** `added` lists the directories from the prefix down that are in the archive. */
  ghost predicate Tracks(entries: seq<Entry>, prefix: Path, added: seq<Path>) {
    forall p :: p in added <==> Entry(p, Directory) in entries && prefix <= p
  }

  /** The entries so far are in order and lie outside the modules prefix. */
  ghost predicate HeadOrdered(entries: seq<Entry>, maxDepth: nat) {
    && ParentsFirst(entries) && DirsOnce(entries)
    && forall e :: e in entries ==> |e.path| <= maxDepth
  }

  /** What every archive holds besides modules: the top directories, busybox and its applets. */
  ghost predicate HasHead(entries: seq<Entry>) {
    && (forall name :: name in {".", "bin", "sbin", "dev", "proc", "sys", "sysroot", "lib"} ==> Dir(name) in entries)
    && Entry(["lib", "modules"], Directory) in entries
    && Entry(["bin", "busybox"], File) in entries
    && (forall name :: name in {"sh", "mount", "umount", "modprobe", "insmod", "switch_root"} ==>
          Entry(["bin", name], Symlink) in entries)
  }

  lemma TopDirsDistinct()
    ensures forall i, j :: 0 <= i < j < |TOP_DIRS| ==> TOP_DIRS[i] != TOP_DIRS[j]
  {
    var t := TOP_DIRS;
    assert t[0] != t[1] && t[1][0] == 'b' && t[2][0] == 's' && t[3][0] == 'd' && t[4][0] == 'p';
    assert t[0][0] == '.' && t[5][0] == 's' && t[6][0] == 's' && t[7][0] == 'l';
    assert |t[2]| == 4 && |t[5]| == 3 && |t[6]| == 7;
  }

  lemma HeadIsComplete(entries: seq<Entry>)
    requires forall i :: 0 <= i < |TOP_DIRS| ==> Dir(TOP_DIRS[i]) in entries
    requires Entry(["lib", "modules"], Directory) in entries && Entry(["bin", "busybox"], File) in entries
    requires forall i :: 0 <= i < |APPLETS| ==> Entry(["bin", APPLETS[i]], Symlink) in entries
    ensures HasHead(entries)
  {
    assert TOP_DIRS[0] == "." && TOP_DIRS[1] == "bin" && TOP_DIRS[2] == "sbin" && TOP_DIRS[3] == "dev";
    assert TOP_DIRS[4] == "proc" && TOP_DIRS[5] == "sys" && TOP_DIRS[6] == "sysroot" && TOP_DIRS[7] == "lib";
    assert APPLETS[0] == "sh" && APPLETS[1] == "mount" && APPLETS[2] == "umount";
    assert APPLETS[3] == "modprobe" && APPLETS[4] == "insmod" && APPLETS[5] == "switch_root";
  }

  method PushTopDirs() returns (cpio: seq<Entry>)
    ensures HeadOrdered(cpio, 1)
    ensures forall e :: e in cpio <==> exists j :: 0 <= j < |TOP_DIRS| && e == Dir(TOP_DIRS[j])
  {
    cpio := [];
    for i := 0 to |TOP_DIRS|
      invariant HeadOrdered(cpio, 1)
      invariant forall e :: e in cpio <==> exists j :: 0 <= j < i && e == Dir(TOP_DIRS[j])
    {
      TopDirsDistinct();
      AppendEntry(cpio, Dir(TOP_DIRS[i]));
      cpio := cpio + [Dir(TOP_DIRS[i])];
    }
  }

  /** Everything in front of the modules. */
  method PushHead(release: string) returns (cpio: seq<Entry>)
    ensures ParentsFirst(cpio) && DirsOnce(cpio) && HasHead(cpio)
    ensures Tracks(cpio, ModulesPrefix(release), [ModulesPrefix(release)])
    ensures forall p :: ModulesPrefix(release) <= p ==> Entry(p, File) !in cpio
  {
    cpio := PushTopDirs();
    assert Dir("bin") == Dir(TOP_DIRS[1]) && Dir("lib") == Dir(TOP_DIRS[7]);
    var modules := Entry(["lib", "modules"], Directory);
    assert Parent(modules.path) == ["lib"];
    AppendEntry(cpio, modules);
    cpio := cpio + [modules];
    var busybox := Entry(["bin", "busybox"], File);
    assert Parent(busybox.path) == ["bin"];
    AppendEntry(cpio, busybox);
    cpio := cpio + [busybox];
    for i := 0 to |APPLETS|
      invariant HeadOrdered(cpio, 2) && Dir("bin") in cpio && modules in cpio && busybox in cpio
      invariant forall j :: 0 <= j < |TOP_DIRS| ==> Dir(TOP_DIRS[j]) in cpio
      invariant forall j :: 0 <= j < i ==> Entry(["bin", APPLETS[j]], Symlink) in cpio
    {
      var applet := Entry(["bin", APPLETS[i]], Symlink);
      assert Parent(applet.path) == ["bin"];
      AppendEntry(cpio, applet);
      cpio := cpio + [applet];
    }
    HeadIsComplete(cpio);
    var prefix := Entry(ModulesPrefix(release), Directory);
    assert Parent(prefix.path) == modules.path;
    AppendEntry(cpio, prefix);
    cpio := cpio + [prefix];
  }

  lemma LineageMember(path: Path, root: Path, p: Path)
    requires root <= path
    ensures p in Lineage(path, root) <==> root <= p && p <= path && p != root
  {
    if root <= p && p <= path && p != root {
      assert Lineage(path, root)[|p| - |root| - 1] == path[..|p|] == p;
    }
  }

  /** The `i`-th ancestor follows its own directory. */
  lemma LineageStep(path: Path, root: Path, i: nat)
    requires root <= path && i < |path| - |root|
    ensures var dir := Lineage(path, root)[i];
      && root <= dir && dir != []
      && Parent(dir) == if i == 0 then root else Lineage(path, root)[i - 1]
  {
  }

  /** The directories from the prefix down to `parent`, those that are not there yet. */
  method PushAncestors(cpio: seq<Entry>, prefix: Path, added: seq<Path>, parent: Path)
    returns (cpio': seq<Entry>, added': seq<Path>)
    requires prefix <= parent && prefix in added
    requires ParentsFirst(cpio) && DirsOnce(cpio) && Tracks(cpio, prefix, added)
    ensures ParentsFirst(cpio') && DirsOnce(cpio') && Tracks(cpio', prefix, added')
    ensures forall p :: p in added' <==> p in added || p in Lineage(parent, prefix)
    ensures forall e: Entry :: !e.kind.Directory? ==> (e in cpio' <==> e in cpio)
    ensures forall e :: e in cpio ==> e in cpio'
  {
    cpio', added' := cpio, added;
    var chain := WalkAncestors(parent, prefix);
    for i := 0 to |chain|
      invariant ParentsFirst(cpio') && DirsOnce(cpio') && Tracks(cpio', prefix, added')
      invariant forall p :: p in added' <==> p in added || p in chain[..i]
      invariant forall e: Entry :: !e.kind.Directory? ==> (e in cpio' <==> e in cpio)
      invariant forall e :: e in cpio ==> e in cpio'
    {
      var dir := chain[i];
      LineageStep(parent, prefix, i);
      assert chain[..i + 1] == chain[..i] + [dir];
      if dir !in added' {
        assert Parent(dir) in added' by { assert 0 < i ==> chain[i - 1] in chain[..i]; }
        AppendEntry(cpio', Entry(dir, Directory));
        cpio', added' := cpio' + [Entry(dir, Directory)], added' + [dir];
      }
    }
    assert chain[..|chain|] == chain;
  }

  /**
  The whole archive for the module files `modules`, given relative to the modules
  root: in order, each directory once, and below the prefix just what is needed.
  */
  method GenerateEntries(release: string, modules: seq<Path>) returns (cpio: seq<Entry>)
    requires forall i :: 0 <= i < |modules| ==> modules[i] != []
    ensures ParentsFirst(cpio) && DirsOnce(cpio)
    ensures HasHead(cpio) && Entry(["init"], File) in cpio
    ensures var prefix := ["lib", "modules", release];
      && (forall p :: prefix <= p ==>
            (Entry(p, Directory) in cpio <==> p == prefix || OnTheWay(prefix, modules, p)))
      && (forall p :: prefix <= p ==>
            (Entry(p, File) in cpio <==> exists i :: 0 <= i < |modules| && p == prefix + modules[i]))
  {
    var prefix := ModulesPrefix(release);
    cpio := PushHead(release);
    var added := [prefix];
    for n := 0 to |modules|
      invariant ParentsFirst(cpio) && DirsOnce(cpio) && Tracks(cpio, prefix, added) && prefix in added && HasHead(cpio)
      invariant forall p :: p in added <==> p == prefix || OnTheWay(prefix, modules[..n], p)
      invariant forall p :: prefix <= p ==>
                  (Entry(p, File) in cpio <==> exists i :: 0 <= i < n && p == prefix + modules[i])
    {
      var dest := prefix + modules[n];
      var parent := Parent(dest);
      assert prefix <= parent by { assert parent == prefix + modules[n][..|modules[n]| - 1]; }
      cpio, added := PushAncestors(cpio, prefix, added, parent);
      forall p ensures p in Lineage(parent, prefix) <==> prefix <= p && p <= parent && p != prefix {
        LineageMember(parent, prefix, p);
      }
      AppendEntry(cpio, Entry(dest, File));
      cpio := cpio + [Entry(dest, File)];
      WayExtends(prefix, modules, n);
    }
    assert modules[..|modules|] == modules;
    AppendEntry(cpio, Entry(["init"], File));
    cpio := cpio + [Entry(["init"], File)];
  }

  lemma WayExtends(prefix: Path, modules: seq<Path>, n: nat)
    requires n < |modules| && modules[n] != []
    ensures forall p :: OnTheWay(prefix, modules[..n + 1], p) <==>
              OnTheWay(prefix, modules[..n], p) || (prefix <= p && p <= Parent(prefix + modules[n]))
  {
    forall p ensures OnTheWay(prefix, modules[..n + 1], p) <==>
      OnTheWay(prefix, modules[..n], p) || (prefix <= p && p <= Parent(prefix + modules[n]))
    {
      assert p < prefix + modules[n] <==> p <= Parent(prefix + modules[n]);
      if OnTheWay(prefix, modules[..n], p) {
        var i :| 0 <= i < n && prefix <= p && p < prefix + modules[..n][i];
        assert modules[..n + 1][i] == modules[..n][i];
      }
      if OnTheWay(prefix, modules[..n + 1], p) {
        var i :| 0 <= i < n + 1 && prefix <= p && p < prefix + modules[..n + 1][i];
        assert i < n ==> modules[..n][i] == modules[..n + 1][i];
      }
      if prefix <= p && p < prefix + modules[n] {
        assert modules[..n + 1][n] == modules[n];
      }
    }
  }
}
