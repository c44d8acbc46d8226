/**
Writes that must stay inside a directory tree.

The file system maps absolute paths to directories, files and symbolic links, and
every system call resolves its path the way the kernel does: link targets are
followed in the middle of a path and, where the call asks for it, at its end.  The
two routines modelled here rely on never letting the kernel follow a link, and
the lemmas about `Resolve` are what shows that it does not.
*/
module FileTree {
  import opened Wrappers
  import opened Paths
  import opened SetSize

  datatype Part = Name(name: string) | Up | Here

  datatype Node = Dir | File(data: seq<byte>) | Link(absolute: bool, target: seq<Part>)

  type Tree = map<Path, Node>

  datatype Errno = NotFound | NotDirectory | TooManyLinks | Exists | IsDirectory | Fault

  ghost predicate IsDir(t: Tree, p: Path) {
    p in t && t[p].Dir?
  }

  /** The root is a directory and so is the parent of everything else. */
  ghost predicate WellFormed(t: Tree) {
    && IsDir(t, [])
    && forall p {:trigger Parent(p)} :: p in t && p != [] ==> IsDir(t, Parent(p))
  }

  // --------------------------------------------------------------- resolution

  const MAX_LINKS := 40

  /** Walk `todo` from directory `cur`; `follow` says whether a final link is followed. */
  function Resolve(t: Tree, cur: Path, todo: seq<Part>, follow: bool, links: nat): Result<Path, Errno>
    decreases links, |todo|
  {
    if todo == [] then Ok(cur)
    else
      match todo[0]
      case Here => Resolve(t, cur, todo[1..], follow, links)
      case Up => Resolve(t, if cur == [] then cur else Parent(cur), todo[1..], follow, links)
      case Name(n) =>
        var next := cur + [n];
        if |todo| == 1 && !(follow && next in t && t[next].Link?) then Ok(next)
        else if next !in t then Err(NotFound)
        else
          match t[next]
          case Dir => Resolve(t, next, todo[1..], follow, links)
          case File(_) => Err(NotDirectory)
          case Link(absolute, target) =>
            if links == 0 then Err(TooManyLinks)
            else Resolve(t, if absolute then [] else cur, target + todo[1..], follow, links - 1)
  }

  function Names(p: Path): (parts: seq<Part>)
    ensures |parts| == |p|
  {
    seq(|p|, i requires 0 <= i < |p| => Name(p[i]))
  }

  function Lookup(t: Tree, p: Path, follow: bool): Result<Path, Errno> {
    Resolve(t, [], Names(p), follow, MAX_LINKS)
  }

  /** Every proper prefix of `p` is a real directory. */
  ghost predicate RealPrefixes(t: Tree, p: Path) {
    forall i :: 0 <= i < |p| ==> IsDir(t, p[..i])
  }

  lemma {:induction false} DirHasRealPrefixes(t: Tree, p: Path)
    requires WellFormed(t) && (p == [] || IsDir(t, Parent(p)))
    ensures RealPrefixes(t, p)
  {
    if p != [] {
      DirHasRealPrefixes(t, Parent(p));
      forall i | 0 <= i < |p| ensures IsDir(t, p[..i]) {
        assert i < |p| - 1 ==> p[..i] == Parent(p)[..i];
      }
    }
  }

  /** Along real directories the kernel walks exactly the path it was given. */
  lemma {:induction false} ResolveReal(t: Tree, p: Path, i: nat, follow: bool, links: nat)
    requires i <= |p| && RealPrefixes(t, p)
    requires follow && p in t ==> !t[p].Link?
    ensures Resolve(t, p[..i], Names(p)[i..], follow, links) == Ok(p)
    decreases |p| - i
  {
    if i == |p| {
      assert p[..i] == p;
    } else {
      assert p[..i] + [p[i]] == p[..i + 1];
      assert Names(p)[i..][1..] == Names(p)[i + 1..];
      if i + 1 == |p| {
        assert p[..i + 1] == p;
      } else {
        ResolveReal(t, p, i + 1, follow, links);
      }
    }
  }

  lemma LookupReal(t: Tree, p: Path, follow: bool)
    requires WellFormed(t) && (p == [] || IsDir(t, Parent(p)))
    requires follow && p in t ==> !t[p].Link?
    ensures Lookup(t, p, follow) == Ok(p)
  {
    DirHasRealPrefixes(t, p);
    ResolveReal(t, p, 0, follow, MAX_LINKS);
    assert p[..0] == [] && Names(p)[0..] == Names(p);
  }

  /** No part of the way to `p` is a link. */
  ghost predicate NoLinksAbove(t: Tree, p: Path) {
    forall i :: 0 <= i < |p| && p[..i] in t ==> !t[p[..i]].Link?
  }

  lemma DirHasNoLinksAbove(t: Tree, p: Path)
    requires WellFormed(t) && (p == [] || IsDir(t, Parent(p)))
    ensures NoLinksAbove(t, p)
  {
    DirHasRealPrefixes(t, p);
  }

  /** Where a directory is missing on the way, and no link stands in for it, nothing resolves. */
  lemma {:induction false} ResolveMissing(t: Tree, p: Path, i: nat, links: nat)
    requires i < |p| && NoLinksAbove(t, p) && IsDir(t, p[..i]) && !IsDir(t, Parent(p))
    ensures Resolve(t, p[..i], Names(p)[i..], false, links).Err?
    decreases |p| - i
  {
    assert p[..i] + [p[i]] == p[..i + 1];
    assert Names(p)[i..][1..] == Names(p)[i + 1..];
    if i + 1 < |p| && IsDir(t, p[..i + 1]) { ResolveMissing(t, p, i + 1, links); }
  }

  lemma LookupMissing(t: Tree, p: Path)
    requires WellFormed(t) && p != [] && NoLinksAbove(t, p) && !IsDir(t, Parent(p))
    ensures Lookup(t, p, false).Err?
  {
    assert p[..0] == [] && Names(p)[0..] == Names(p);
    ResolveMissing(t, p, 0, MAX_LINKS);
  }

  /** Resolution itself never faults. */
  lemma {:induction false} ResolveError(t: Tree, cur: Path, todo: seq<Part>, follow: bool, links: nat)
    ensures Resolve(t, cur, todo, follow, links) != Err(Fault)
    decreases links, |todo|
  {
    if todo != [] {
      match todo[0]
      case Here => ResolveError(t, cur, todo[1..], follow, links);
      case Up => ResolveError(t, if cur == [] then cur else Parent(cur), todo[1..], follow, links);
      case Name(n) =>
        var next := cur + [n];
        if |todo| == 1 && !(follow && next in t && t[next].Link?) {
        } else if next in t && t[next].Dir? {
          ResolveError(t, next, todo[1..], follow, links);
        } else if next in t && t[next].Link? && links > 0 {
          ResolveError(t, if t[next].absolute then [] else cur, t[next].target + todo[1..], follow, links - 1);
        }
    }
  }

  /** A tree whose staging directory holds a link to the root. */
  const PLANTED: Tree := map[[] := Dir, ["staging"] := Dir, ["staging", "out"] := Link(true, [])]

  /** What the descent guards against: a plain join follows the planted link out of the staging directory. */
  lemma PlainJoinEscapes(name: string)
    requires name != "staging"
    ensures WellFormed(PLANTED) && Lookup(PLANTED, ["staging", "out", name], true) == Ok([name])
  {
    var t, p := PLANTED, ["staging", "out", name];
    assert Parent(["staging"]) == [] && Parent(["staging", "out"]) == ["staging"];
    assert [] + ["staging"] == ["staging"] && ["staging"] + ["out"] == ["staging", "out"] && [] + [name] == [name];
    assert Names(p) == [Name("staging"), Name("out"), Name(name)];
    assert Names(p)[1..] == [Name("out"), Name(name)] && Names(p)[1..][1..] == [Name(name)];
    assert [] + [Name(name)] == [Name(name)];
    assert Resolve(t, [], [Name(name)], true, MAX_LINKS - 1) == Ok([name]);
    assert Resolve(t, ["staging"], Names(p)[1..], true, MAX_LINKS) == Ok([name]);
  }

  // ------------------------------------------------------------- system calls

  class FileSystem {
    const mayFault: bool  // whether a call may fail for a reason outside the tree
    var tree: Tree

    constructor (mayFault: bool)
      ensures WellFormed(tree) && tree.Keys == {[]} && this.mayFault == mayFault
    {
      this.mayFault, this.tree := mayFault, map[[] := Dir];
    }

    /** `lstat`: the node itself, a final link not followed. */
    function Lstat(p: Path): Result<Node, Errno>
      reads this
    {
      match Lookup(tree, p, false)
      case Err(e) => Err(e)
      case Ok(q) => if q in tree then Ok(tree[q]) else Err(NotFound)
    }

    /** Create `node` (a directory or a link) under a name that must be free. */
    method Create(p: Path, node: Node) returns (r: Result<(), Errno>)
      requires !node.File?
      modifies this
      ensures r.Ok? ==>
        exists q :: Lookup(old(tree), p, false) == Ok(q) && q !in old(tree) && tree == old(tree)[q := node]
      ensures r.Err? ==> tree == old(tree)
      ensures r.Err? && r.error != Fault ==> CreateRefused(old(tree), p, r.error)
      ensures r == Err(Fault) ==> mayFault
    {
      var fault: bool := *;
      if fault && mayFault { return Err(Fault); }
      ResolveError(tree, [], Names(p), false, MAX_LINKS);
      match Lookup(tree, p, false) {
        case Err(e) => r := Err(e);
        case Ok(q) =>
          if q in tree { return Err(Exists); }
          tree := tree[q := node];
          r := Ok(());
      }
    }

    /** `unlink`: never follows a final link. */
    method Unlink(p: Path) returns (r: Result<(), Errno>)
      modifies this
      ensures r.Ok? ==>
        exists q :: Lookup(old(tree), p, false) == Ok(q) && IsLeaf(old(tree), q) && tree == old(tree) - {q}
      ensures r.Err? ==> tree == old(tree)
      ensures r.Err? && r.error != Fault ==>
        forall q :: Lookup(old(tree), p, false) == Ok(q) ==> !IsLeaf(old(tree), q)
      ensures r == Err(Fault) ==> mayFault
    {
      var fault: bool := *;
      if fault && mayFault { return Err(Fault); }
      ResolveError(tree, [], Names(p), false, MAX_LINKS);
      match Lookup(tree, p, false) {
        case Err(e) => r := Err(e);
        case Ok(q) =>
          if q !in tree { return Err(NotFound); }
          if tree[q].Dir? { return Err(IsDirectory); }
          tree := tree - {q};
          r := Ok(());
      }
    }

    /** Open for writing (following a final link), truncate and write; a fault may leave a part. */
    method WriteFile(p: Path, data: seq<byte>) returns (r: Result<(), Errno>)
      modifies this
      ensures r.Ok? ==>
        exists q :: Lookup(old(tree), p, true) == Ok(q) && !IsDir(old(tree), q) && tree == old(tree)[q := File(data)]
      ensures r.Err? && tree != old(tree) ==>
        exists q, part :: Lookup(old(tree), p, true) == Ok(q) && !IsDir(old(tree), q) && tree == old(tree)[q := File(part)]
      ensures r.Err? && tree != old(tree) ==> r.error == Fault
      ensures r.Err? && r.error != Fault ==>
        forall q :: Lookup(old(tree), p, true) == Ok(q) ==> IsDir(old(tree), q)
      ensures r == Err(Fault) ==> mayFault
    {
      var refused: bool := *;
      if refused && mayFault { return Err(Fault); }
      ResolveError(tree, [], Names(p), true, MAX_LINKS);
      match Lookup(tree, p, true) {
        case Err(e) => r := Err(e);
        case Ok(q) =>
          if q in tree && tree[q].Dir? { return Err(IsDirectory); }
          var n: nat :| n <= |data| && (n < |data| ==> mayFault);
          tree := tree[q := File(data[..n])];
          if n < |data| { return Err(Fault); }
          assert data[..n] == data;
          r := Ok(());
      }
    }

    /** `remove_existing_symlink`: a link at `p` is unlinked, anything else stays. */
    method RemoveExistingSymlink(p: Path) returns (r: Result<(), Errno>)
      modifies this
      ensures r.Ok? ==> tree == match Lookup(old(tree), p, false) case Ok(q) => WithoutLink(old(tree), q) case Err(_) => old(tree)
      ensures r.Err? ==> r.error == Fault && mayFault && tree == old(tree)
    {
      match Lstat(p) {
        case Ok(Link(_, _)) => r := Unlink(p);
        case _ => r := Ok(());
      }
    }
  }

  /** Why a name could not be created: the path does not resolve, or the name is taken. */
  ghost predicate CreateRefused(t: Tree, p: Path, e: Errno) {
    match Lookup(t, p, false)
    case Err(e') => e == e'
    case Ok(q) => e == Exists && q in t
  }

  ghost predicate IsLeaf(t: Tree, p: Path) {
    p in t && !t[p].Dir?
  }

  /** `t` with a link at `p`, if there is one, removed. */
  function WithoutLink(t: Tree, p: Path): Tree {
    if p in t && t[p].Link? then t - {p} else t
  }

  // ------------------------------------------------------ contained_write_path

  /** The pieces of `s` between slashes. */
  function Pieces(s: string): (r: seq<string>)
    ensures r != []
  {
    if s == "" then [""] else Onto(s[0], Pieces(s[1..]))
  }

  /** One more character in front: a slash starts a new piece, any other joins the first. */
  function Onto(c: char, pieces: seq<string>): (r: seq<string>)
    requires pieces != []
    ensures r != []
  {
    if c == '/' then [""] + pieces else [[c] + pieces[0]] + pieces[1..]
  }

  function Join(pieces: seq<string>): string
    requires pieces != []
  {
    if |pieces| == 1 then pieces[0] else pieces[0] + "/" + Join(pieces[1..])
  }

  /** Splitting is the inverse of joining, and no piece holds a slash. */
  lemma {:induction false} PiecesJoin(s: string)
    ensures Join(Pieces(s)) == s
    ensures forall i :: 0 <= i < |Pieces(s)| ==> '/' !in Pieces(s)[i]
  {
    if s != "" {
      var rest := Pieces(s[1..]);
      PiecesJoin(s[1..]);
      if s[0] == '/' {
        assert ([""] + rest)[1..] == rest;
      } else {
        assert ([[s[0]] + rest[0]] + rest[1..])[1..] == rest[1..];
      }
      assert s == [s[0]] + s[1..];
    }
  }

  /** The pieces that name something: empty pieces and `.` are skipped. */
  function Normals(pieces: seq<string>): seq<string> {
    if pieces == [] then []
    else
      var last := pieces[|pieces| - 1];
      Normals(pieces[..|pieces| - 1]) + if last == "" || last == "." then [] else [last]
  }

  /** Components keep their order: a longer path has the components of its parts, one after the other. */
  lemma {:induction false} NormalsConcat(a: seq<string>, b: seq<string>)
    ensures Normals(a + b) == Normals(a) + Normals(b)
  {
    if b == [] {
      assert a + b == a;
    } else {
      var n := |b| - 1;
      assert (a + b)[..|a| + n] == a + b[..n];
      NormalsConcat(a, b[..n]);
    }
  }

  lemma NormalsOne(p: string)
    ensures Normals([p]) == if p == "" || p == "." then [] else [p]
  {
    assert [p][..0] == [] && Normals([]) == [];
  }

  lemma {:induction false} PiecesConcat(a: string, b: string)
    ensures Pieces(a + "/" + b) == Pieces(a) + Pieces(b)
  {
    var s := a + "/" + b;
    if a == "" {
      assert s[1..] == b && s[0] == '/';
    } else {
      assert s[1..] == a[1..] + "/" + b && s[0] == a[0];
      PiecesConcat(a[1..], b);
      OntoConcat(a[0], Pieces(a[1..]), Pieces(b));
    }
  }

  lemma OntoConcat(c: char, p: seq<string>, q: seq<string>)
    requires p != []
    ensures Onto(c, p + q) == Onto(c, p) + q
  {
    assert (p + q)[0] == p[0] && (p + q)[1..] == p[1..] + q;
  }

  lemma {:induction false} PiecesPlain(s: string)
    requires '/' !in s
    ensures Pieces(s) == [s]
  {
    if s != "" {
      PiecesPlain(s[1..]);
      assert [s[0]] + s[1..] == s;
    }
  }

  /** The components of `a/b` are those of `a` and then those of `b`, for any two texts. */
  lemma ComponentsOfJoined(a: string, b: string)
    ensures Normals(Pieces(a + "/" + b)) == Normals(Pieces(a)) + Normals(Pieces(b))
    ensures ".." in Pieces(a + "/" + b) <==> ".." in Pieces(a) || ".." in Pieces(b)
  {
    PiecesConcat(a, b);
    NormalsConcat(Pieces(a), Pieces(b));
  }

  /** Names as they come: no slash, and none of the three with a meaning of their own. */
  predicate Plain(names: seq<string>) {
    forall i :: 0 <= i < |names| ==>
      '/' !in names[i] && names[i] != "" && names[i] != "." && names[i] != ".."
  }

  /** A path written as names joined by slashes has those names as its components, in that order. */
  lemma {:induction false} ComponentsOfNames(names: seq<string>)
    requires names != [] && Plain(names)
    ensures Normals(Pieces(Join(names))) == names && ".." !in Pieces(Join(names))
  {
    PiecesPlain(names[0]);
    NormalsOne(names[0]);
    if |names| == 1 {
      assert names == [names[0]];
    } else {
      ComponentsOfNames(names[1..]);
      ComponentsOfJoined(names[0], Join(names[1..]));
      assert names == [names[0]] + names[1..];
    }
  }

  datatype WriteError =
    | UnsafeComponent           // a `..` in the path
    | Escape(at: Path)          // a link where a directory is needed
    | NotADirectory(at: Path)   // a file where a directory is needed
    | Os                        // the operating system refused

  /** The path `n` steps down from `root` along `names`. */
  function Down(root: Path, names: seq<string>, n: nat): (p: Path)
    requires n <= |names|
    ensures |p| == |root| + n && root <= p
    ensures n == 0 ==> p == root
    ensures n == |names| ==> p == root + names
  {
    root + names[..n]
  }

  lemma DownOneStep(root: Path, names: seq<string>, n: nat)
    requires 0 < n <= |names|
    ensures Down(root, names, n) == Down(root, names, n - 1) + [names[n - 1]]
    ensures Parent(Down(root, names, n)) == Down(root, names, n - 1)
  {
  }

  /** The first `n` directories on the way to `root + names`, created where missing. */
  function WithDirs(t: Tree, root: Path, names: seq<string>, n: nat): Tree
    requires n <= |names|
  {
    if n == 0 then t else WithDirs(t, root, names, n - 1)[Down(root, names, n) := Dir]
  }

  /** Everything a successful call leaves: the directories above the leaf, and no link at it. */
  function Prepared(t: Tree, root: Path, names: seq<string>): Tree {
    if names == [] then t else WithoutLink(WithDirs(t, root, names, |names| - 1), root + names)
  }

  /** The first `n` steps below `root` meet only directories and free names. */
  ghost predicate Passable(t: Tree, root: Path, names: seq<string>, n: nat)
    requires n <= |names|
  {
    forall i :: 0 < i <= n && Down(root, names, i) in t ==> t[Down(root, names, i)].Dir?
  }

  /** Below the last directory made, nothing changed. */
  lemma {:induction false} DeeperUnchanged(t: Tree, root: Path, names: seq<string>, n: nat, p: Path)
    requires n <= |names| && |root| + n < |p|
    ensures p in WithDirs(t, root, names, n) <==> p in t
    ensures p in t ==> WithDirs(t, root, names, n)[p] == t[p]
  {
    if n > 0 { DeeperUnchanged(t, root, names, n - 1, p); }
  }

  lemma AddDir(t: Tree, p: Path)
    requires WellFormed(t) && p != [] && IsDir(t, Parent(p)) && (p in t ==> t[p].Dir?)
    ensures WellFormed(t[p := Dir])
  {
  }

  lemma {:induction false} WithDirsWellFormed(t: Tree, root: Path, names: seq<string>, n: nat)
    requires n <= |names| && WellFormed(t) && IsDir(t, root) && Passable(t, root, names, n)
    ensures WellFormed(WithDirs(t, root, names, n)) && IsDir(WithDirs(t, root, names, n), Down(root, names, n))
  {
    if n > 0 {
      var p := Down(root, names, n);
      DownOneStep(root, names, n);
      WithDirsWellFormed(t, root, names, n - 1);
      DeeperUnchanged(t, root, names, n - 1, p);
      AddDir(WithDirs(t, root, names, n - 1), p);
    }
  }

  /** The step `n` is the first that meets something other than a directory. */
  ghost predicate BlockedBy(t: Tree, root: Path, names: seq<string>, n: nat, e: WriteError) {
    && 0 < n < |names|
    && Down(root, names, n) in t
    && match e
       case Escape(at) => at == Down(root, names, n) && t[at].Link?
       case NotADirectory(at) => at == Down(root, names, n) && t[at].File?
       case _ => false
  }

  /** A failed descent has made the first `n` directories and then stopped for the reason given. */
  ghost predicate StoppedAt(t: Tree, root: Path, names: seq<string>, n: nat, e: WriteError, now: Tree) {
    && n < |names|
    && Passable(t, root, names, n)
    && now == WithDirs(t, root, names, n)
    && (!e.Os? ==> BlockedBy(t, root, names, n + 1, e))
  }

  ghost predicate Descended(t: Tree, root: Path, names: seq<string>, r: Result<Path, WriteError>, now: Tree) {
    match r
    case Ok(p) =>
      && p == root + names
      && Passable(t, root, names, if names == [] then 0 else |names| - 1)
      && now == Prepared(t, root, names)
    case Err(e) => exists n: nat :: StoppedAt(t, root, names, n, e, now)
  }

  /** One directory of the descent: an existing one is entered, a missing one made. */
  method EnterDir(fs: FileSystem, cur: Path) returns (e: Option<WriteError>)
    requires WellFormed(fs.tree) && cur != [] && NoLinksAbove(fs.tree, cur)
    modifies fs
    ensures e.None? ==> fs.tree == old(fs.tree)[cur := Dir] && (cur in old(fs.tree) ==> old(fs.tree)[cur].Dir?)
    ensures e.None? ==> IsDir(old(fs.tree), Parent(cur))
    ensures e.Some? ==> fs.tree == old(fs.tree)
    ensures e == Some(Os) ==> fs.mayFault || !IsDir(old(fs.tree), Parent(cur))
    ensures e.Some? && !e.value.Os? ==> IsLeaf(old(fs.tree), cur)
    ensures e.Some? && !e.value.Os? ==>
      e.value == if old(fs.tree)[cur].Link? then Escape(cur) else NotADirectory(cur)
  {
    if IsDir(fs.tree, Parent(cur)) { LookupReal(fs.tree, cur, false); } else { LookupMissing(fs.tree, cur); }
    match fs.Lstat(cur) {
      case Ok(Link(_, _)) => return Some(Escape(cur));
      case Ok(Dir) =>
      case Ok(File(_)) => return Some(NotADirectory(cur));
      case Err(NotFound) =>
        var m := fs.Create(cur, Dir);
        if m.Err? { return Some(Os); }
      case Err(_) => return Some(Os);
    }
    e := None;
  }

  method Descend(fs: FileSystem, root: Path, names: seq<string>) returns (r: Result<Path, WriteError>)
    requires WellFormed(fs.tree) && IsDir(fs.tree, root)
    modifies fs
    ensures r != Err(UnsafeComponent) && Descended(old(fs.tree), root, names, r, fs.tree)
    ensures r == Err(Os) ==> fs.mayFault
  {
    var cur := root;
    ghost var was := fs.tree;
    for i := 0 to |names|
      invariant cur == Down(root, names, i) && i <= if names == [] then 0 else |names| - 1
      invariant Passable(was, root, names, i) && fs.tree == WithDirs(was, root, names, i)
    {
      WithDirsWellFormed(was, root, names, i);
      DownOneStep(root, names, i + 1);
      cur := cur + [names[i]];
      DeeperUnchanged(was, root, names, i, cur);
      DirHasNoLinksAbove(fs.tree, cur);
      if i == |names| - 1 {
        LookupReal(fs.tree, cur, false);
        var u := fs.RemoveExistingSymlink(cur);
        if u.Err? {
          assert StoppedAt(was, root, names, i, Os, fs.tree);
          return Err(Os);
        }
        return Ok(cur);
      }
      var e := EnterDir(fs, cur);
      if e.Some? {
        assert StoppedAt(was, root, names, i, e.value, fs.tree);
        return Err(e.value);
      }
    }
    r := Ok(cur);
  }

  /**
  Resolve `rel` for writing under `root`.  A `..` is refused before anything is
  touched; otherwise the tree afterwards is known exactly in every outcome.
  */
  method ContainedWritePath(fs: FileSystem, root: Path, rel: string) returns (r: Result<Path, WriteError>)
    requires WellFormed(fs.tree) && IsDir(fs.tree, root)
    modifies fs
    ensures r == Err(UnsafeComponent) <==> ".." in Pieces(rel)
    ensures r == Err(UnsafeComponent) ==> fs.tree == old(fs.tree)
    ensures r != Err(UnsafeComponent) ==> Descended(old(fs.tree), root, Normals(Pieces(rel)), r, fs.tree)
    ensures r == Err(Os) ==> fs.mayFault
    ensures forall names :: names != [] && Plain(names) && rel == Join(names) ==>
      r != Err(UnsafeComponent) && (r.Ok? ==> r.value == root + names)
  {
    var pieces := Pieces(rel);
    var names := [];
    for i := 0 to |pieces|
      invariant names == Normals(pieces[..i])
      invariant ".." !in pieces[..i]
    {
      assert pieces[..i + 1][..i] == pieces[..i];
      if pieces[i] == ".." {
        forall ns | ns != [] && Plain(ns) && rel == Join(ns) ensures ".." !in pieces { ComponentsOfNames(ns); }
        return Err(UnsafeComponent);
      }
      if pieces[i] != "" && pieces[i] != "." { names := names + [pieces[i]]; }
    }
    assert pieces[..|pieces|] == pieces;
    forall ns | ns != [] && Plain(ns) && rel == Join(ns) ensures names == ns && ".." !in pieces { ComponentsOfNames(ns); }
    r := Descend(fs, root, names);
  }

  /** Nothing but the missing directories above the leaf, and a link at the leaf, can have changed. */
  lemma {:induction false} WithDirsFrame(t: Tree, root: Path, names: seq<string>, n: nat, p: Path)
    requires n <= |names| && Passable(t, root, names, n)
    ensures p in t ==> p in WithDirs(t, root, names, n) && WithDirs(t, root, names, n)[p] == t[p]
    ensures p !in t && p in WithDirs(t, root, names, n) ==>
              WithDirs(t, root, names, n)[p] == Dir && exists i :: 0 < i <= n && p == Down(root, names, i)
  {
    if n > 0 {
      assert 0 < n <= n && Down(root, names, n) == Down(root, names, n);
      WithDirsFrame(t, root, names, n - 1, p);
    }
  }

  /** In every outcome a changed path is a directory made on the way, or the leaf's removed link. */
  lemma DescentIsContained(t: Tree, root: Path, names: seq<string>, r: Result<Path, WriteError>, now: Tree, p: Path)
    requires Descended(t, root, names, r, now)
    requires (p in now) != (p in t) || (p in t && now[p] != t[p])
    ensures (p !in t && now[p] == Dir && exists i :: 0 < i < |names| && p == Down(root, names, i))
         || (r.Ok? && p !in now && p == root + names && t[p].Link?)
  {
    if r.Ok? {
      if names != [] { WithDirsFrame(t, root, names, |names| - 1, p); }
    } else {
      var n: nat :| StoppedAt(t, root, names, n, r.error, now);
      WithDirsFrame(t, root, names, n, p);
    }
  }

  /** After success a write to the result follows no link: it lands on that path alone. */
  lemma LaterWriteStaysPut(t: Tree, root: Path, names: seq<string>, r: Result<Path, WriteError>, now: Tree)
    requires WellFormed(t) && IsDir(t, root) && Descended(t, root, names, r, now) && r.Ok?
    ensures WellFormed(now) && RealPrefixes(now, r.value)
    ensures r.value in now ==> !now[r.value].Link?
    ensures Lookup(now, r.value, true) == Ok(r.value)
  {
    if names == [] {
      assert r.value == root;
      if root != [] { LookupReal(t, root, true); DirHasRealPrefixes(t, root); } else { LookupReal(t, [], true); }
    } else {
      var n := |names| - 1;
      WithDirsWellFormed(t, root, names, n);
      DeeperUnchanged(t, root, names, n, r.value);
      DownOneStep(root, names, n + 1);
      LinkRemovalKeeps(WithDirs(t, root, names, n), r.value);
      LookupReal(now, r.value, true);
      DirHasRealPrefixes(now, r.value);
    }
  }

  lemma LinkRemovalKeeps(t: Tree, p: Path)
    requires WellFormed(t)
    ensures WellFormed(WithoutLink(t, p))
    ensures forall q :: IsDir(t, q) ==> IsDir(WithoutLink(t, p), q)
  {
  }

  // -------------------------------------------------------- copy_dir_recursive

  datatype CopyError =
    | DestinationLink(at: Path)    // a link where a directory is merged
    | DestinationNotDir(at: Path)  // a file where a directory is merged
    | Clash(at: Path)              // a file over a directory, or a link over anything but a link
    | CopyFault                    // the operating system refused

  /** Neither path lies inside the other. */
  predicate Disjoint(a: Path, b: Path) {
    !(a <= b) && !(b <= a)
  }

  /** The source path whose copy belongs at `q`. */
  function Origin(src: Path, dst: Path, q: Path): Path
    requires dst <= q
  {
    src + q[|dst|..]
  }

  /** `q` is where some source entry goes. */
  predicate IsImage(t: Tree, src: Path, dst: Path, q: Path) {
    dst <= q && Origin(src, dst, q) in t
  }

  /** Of the images, those of `src` itself and of its children named in `done`. */
  predicate IsDone(t: Tree, src: Path, dst: Path, done: set<string>, q: Path) {
    IsImage(t, src, dst, q) && (q == dst || q[|dst|] in done)
  }

  /** A source node can be copied over what the destination holds. */
  predicate Compatible(s: Node, t: Tree, q: Path) {
    q !in t ||
    match s
    case Dir => t[q].Dir?
    case File(_) => !t[q].Dir?
    case Link(_, _) => t[q].Link?
  }

  /** No source entry clashes with what the destination holds at its place. */
  ghost predicate Mergeable(t: Tree, src: Path, dst: Path) {
    forall q :: IsImage(t, src, dst, q) ==> Compatible(t[Origin(src, dst, q)], t, q)
  }

  /** `now` is `t` with the images selected by `done` laid over it. */
  ghost predicate Overlaid(t: Tree, src: Path, dst: Path, done: set<string>, now: Tree) {
    && (forall q :: q in now <==> q in t || IsDone(t, src, dst, done, q))
    && (forall q :: q in now ==>
          now[q] == if IsDone(t, src, dst, done, q) then t[Origin(src, dst, q)] else t[q])
  }

  /** `now` is exactly the old tree with the whole source laid over the destination. */
  ghost predicate Merged(t: Tree, src: Path, dst: Path, now: Tree) {
    && (forall q :: q in now <==> q in t || IsImage(t, src, dst, q))
    && (forall q :: q in now ==>
          now[q] == if IsImage(t, src, dst, q) then t[Origin(src, dst, q)] else t[q])
  }

  /** Only images may differ. */
  ghost predicate OnlyImages(t: Tree, src: Path, dst: Path, now: Tree) {
    forall q :: !IsImage(t, src, dst, q) ==> (q in now <==> q in t) && (q in t ==> now[q] == t[q])
  }

  function Kids(t: Tree, p: Path): set<string> {
    set q | q in t && |q| == |p| + 1 && p <= q :: q[|p|]
  }

  function Below(t: Tree, p: Path): set<Path> {
    set q | q in t && p <= q
  }

  /** The source side is not an image, so it is never touched. */
  lemma SourceUntouched(t: Tree, src: Path, dst: Path, now: Tree, p: Path)
    requires Disjoint(src, dst) && OnlyImages(t, src, dst, now) && src <= p
    ensures (p in now <==> p in t) && (p in t ==> now[p] == t[p])
  {
    PrefixesNest(src, dst, p);
  }

  lemma PrefixesNest(a: Path, b: Path, p: Path)
    requires a <= p
    ensures b <= p ==> a <= b || b <= a
  {
    if b <= p {
      assert |a| <= |b| ==> a == b[..|a|];
      assert |b| <= |a| ==> b == a[..|b|];
    }
  }

  lemma OverlaidIsOnlyImages(t: Tree, src: Path, dst: Path, done: set<string>, now: Tree)
    requires Overlaid(t, src, dst, done, now)
    ensures OnlyImages(t, src, dst, now)
  {
  }

  lemma PrefixOfChild(a: Path, b: Path, n: string)
    ensures a + [n] <= b + [n] ==> a <= b
  {
    if a + [n] <= b + [n] {
      assert a == (a + [n])[..|a|] == (b + [n])[..|a|] == b[..|a|];
    }
  }

  lemma ChildDisjoint(src: Path, dst: Path, n: string)
    requires Disjoint(src, dst)
    ensures Disjoint(src + [n], dst + [n])
  {
    PrefixOfChild(src, dst, n);
    PrefixOfChild(dst, src, n);
  }

  /** The images under a child are the images whose first step is that child. */
  lemma ChildImage(t: Tree, src: Path, dst: Path, n: string, q: Path)
    ensures IsImage(t, src + [n], dst + [n], q) <==> IsImage(t, src, dst, q) && q != dst && q[|dst|] == n
    ensures dst + [n] <= q ==> Origin(src + [n], dst + [n], q) == Origin(src, dst, q)
  {
    if dst + [n] <= q {
      assert q[|dst|..] == [n] + q[|dst| + 1..];
      assert Origin(src + [n], dst + [n], q) == Origin(src, dst, q);
    }
    if dst <= q && q != dst && q[|dst|] == n {
      assert q[..|dst| + 1] == dst + [n];
    }
  }

  /** Below a node that is not a directory there is nothing. */
  lemma {:induction false} NothingBelowLeaf(t: Tree, p: Path, q: Path)
    requires WellFormed(t) && IsLeaf(t, p) && p <= q && q != p
    ensures q !in t
    decreases |q|
  {
    if q in t {
      assert p <= Parent(q);
      if Parent(q) != p { NothingBelowLeaf(t, p, Parent(q)); }
    }
  }

  /** A path in the tree comes with the child of `p` it goes through. */
  lemma {:induction false} ThroughKid(t: Tree, p: Path, q: Path)
    requires WellFormed(t) && q in t && p <= q && p != q
    ensures p + [q[|p|]] in t && q[|p|] in Kids(t, p)
    decreases |q|
  {
    if |q| == |p| + 1 {
      assert q == p + [q[|p|]];
    } else {
      assert p <= Parent(q);
      ThroughKid(t, p, Parent(q));
      assert |p + [q[|p|]]| == |p| + 1;
    }
  }

  lemma OverlayRoot(t: Tree, src: Path, dst: Path)
    requires IsDir(t, src)
    ensures !IsLeaf(t, dst) ==> Overlaid(t, src, dst, {}, t[dst := Dir]) && CompatibleSoFar(t, src, dst, {})
    ensures IsLeaf(t, dst) ==> !Mergeable(t, src, dst)
  {
    assert Origin(src, dst, dst) == src && IsImage(t, src, dst, dst);
  }

  lemma OverlayLeaf(t: Tree, src: Path, dst: Path, done: set<string>, n: string, now: Tree)
    requires WellFormed(t) && Overlaid(t, src, dst, done, now) && IsLeaf(t, src + [n])
    ensures Overlaid(t, src, dst, done + {n}, now[dst + [n] := t[src + [n]]])
  {
    var after := now[dst + [n] := t[src + [n]]];
    forall q ensures IsDone(t, src, dst, done + {n}, q) <==> q == dst + [n] || IsDone(t, src, dst, done, q) {
      if q == dst + [n] {
        assert q[|dst|..] == [n];
      } else if dst <= q && q != dst && q[|dst|] == n {
        ChildImage(t, src, dst, n, q);
        assert q[..|dst| + 1] == dst + [n];
        assert src + [n] <= Origin(src, dst, q);
        assert |Origin(src, dst, q)| != |src| + 1;
        NothingBelowLeaf(t, src + [n], Origin(src, dst, q));
      }
    }
    assert Origin(src, dst, dst + [n]) == src + [n];
  }

  lemma OverlayChild(t: Tree, src: Path, dst: Path, done: set<string>, n: string, now: Tree, after: Tree)
    requires Disjoint(src, dst) && Overlaid(t, src, dst, done, now) && Merged(now, src + [n], dst + [n], after)
    ensures Overlaid(t, src, dst, done + {n}, after)
  {
    OverlaidIsOnlyImages(t, src, dst, done, now);
    forall q
      ensures IsImage(now, src + [n], dst + [n], q) <==> IsImage(t, src, dst, q) && q != dst && q[|dst|] == n
      ensures IsImage(now, src + [n], dst + [n], q) ==>
        Origin(src + [n], dst + [n], q) == Origin(src, dst, q) && now[Origin(src, dst, q)] == t[Origin(src, dst, q)]
    {
      ChildImage(t, src, dst, n, q);
      if dst + [n] <= q { SourceUntouched(t, src, dst, now, Origin(src, dst, q)); }
    }
  }

  lemma OverlayComplete(t: Tree, src: Path, dst: Path, now: Tree)
    requires WellFormed(t) && Overlaid(t, src, dst, Kids(t, src), now)
    ensures Merged(t, src, dst, now)
    ensures CompatibleSoFar(t, src, dst, Kids(t, src)) ==> Mergeable(t, src, dst)
  {
    forall q | IsImage(t, src, dst, q) ensures IsDone(t, src, dst, Kids(t, src), q) {
      if q != dst {
        var p := Origin(src, dst, q);
        assert p[|src|] == q[|dst|] && src <= p && p != src;
        ThroughKid(t, src, p);
      }
    }
  }

  /** The entries already copied did not clash. */
  ghost predicate CompatibleSoFar(t: Tree, src: Path, dst: Path, done: set<string>) {
    forall q :: IsDone(t, src, dst, done, q) ==> Compatible(t[Origin(src, dst, q)], t, q)
  }

  /** Merging a child of the half-merged tree succeeds or fails as it would in the old one. */
  lemma ChildMergeable(t: Tree, src: Path, dst: Path, done: set<string>, n: string, now: Tree)
    requires Disjoint(src, dst) && Overlaid(t, src, dst, done, now) && n !in done
    ensures Mergeable(now, src + [n], dst + [n]) && CompatibleSoFar(t, src, dst, done) ==>
              CompatibleSoFar(t, src, dst, done + {n})
    ensures Mergeable(t, src, dst) ==> Mergeable(now, src + [n], dst + [n])
  {
    OverlaidIsOnlyImages(t, src, dst, done, now);
    forall q | dst + [n] <= q
      ensures IsImage(now, src + [n], dst + [n], q) <==> IsImage(t, src, dst, q)
      ensures IsImage(t, src, dst, q) ==>
        (Compatible(now[Origin(src + [n], dst + [n], q)], now, q) <==> Compatible(t[Origin(src, dst, q)], t, q))
    {
      ChildImage(t, src, dst, n, q);
      assert q[|dst|] == n;
      SourceUntouched(t, src, dst, now, Origin(src, dst, q));
    }
    forall q | IsDone(t, src, dst, done + {n}, q) && !IsDone(t, src, dst, done, q) ensures dst + [n] <= q {
      assert q[..|dst| + 1] == dst + [n];
    }
  }

  lemma BelowShrinks(t: Tree, now: Tree, src: Path, dst: Path, n: string)
    requires Disjoint(src, dst) && OnlyImages(t, src, dst, now) && src in t
    ensures |Below(now, src + [n])| < |Below(t, src)|
  {
    forall p | p in Below(now, src + [n]) ensures p in Below(t, src) && p != src {
      assert src == (src + [n])[..|src|] == p[..|src|];
      SourceUntouched(t, src, dst, now, p);
    }
    NoMore(Below(now, src + [n]), Below(t, src) - {src});
  }

  /** Copy one file or link over `p`, never through a link that is there. */
  method CopyLeaf(fs: FileSystem, node: Node, p: Path) returns (e: Option<CopyError>)
    requires WellFormed(fs.tree) && p != [] && IsDir(fs.tree, Parent(p)) && !node.Dir?
    modifies fs
    ensures WellFormed(fs.tree)
    ensures e.None? ==> Compatible(node, old(fs.tree), p) && fs.tree == old(fs.tree)[p := node]
    ensures e.Some? ==> fs.tree - {p} == old(fs.tree) - {p}
    ensures e.Some? && !e.value.CopyFault? ==> !Compatible(node, old(fs.tree), p)
    ensures e == Some(CopyFault) ==> fs.mayFault
  {
    ghost var was := fs.tree;
    LookupReal(was, p, false);
    var u := fs.RemoveExistingSymlink(p);
    if u.Err? { return Some(CopyFault); }
    LinkRemovalKeeps(was, p);
    LookupReal(fs.tree, p, true);
    LookupReal(fs.tree, p, false);
    var r: Result<(), Errno>;
    match node {
      case Link(_, _) => r := fs.Create(p, node);
      case File(data) => r := fs.WriteFile(p, data);
    }
    if r.Ok? { return None; }
    e := Some(if r.error == Fault then CopyFault else Clash(p));
  }

  lemma KidInTree(t: Tree, p: Path, n: string)
    requires n in Kids(t, p)
    ensures p + [n] in t
  {
    var q :| q in t && |q| == |p| + 1 && p <= q && q[|p|] == n;
    assert q == p + [n];
  }

  lemma KidsUntouched(t: Tree, src: Path, dst: Path, now: Tree)
    requires Disjoint(src, dst) && OnlyImages(t, src, dst, now)
    ensures Kids(now, src) == Kids(t, src)
  {
    forall p | src <= p ensures p in now <==> p in t {
      SourceUntouched(t, src, dst, now, p);
    }
  }

  /** One round of the copy loop: the entry `n` of `src`. */
  method CopyEntry(fs: FileSystem, src: Path, dst: Path, n: string, ghost was: Tree, ghost done: set<string>)
    returns (e: Option<CopyError>)
    requires WellFormed(was) && IsDir(was, src) && Disjoint(src, dst) && src + [n] in was && n !in done
    requires WellFormed(fs.tree) && IsDir(fs.tree, dst)
    requires Overlaid(was, src, dst, done, fs.tree) && CompatibleSoFar(was, src, dst, done)
    modifies fs
    ensures WellFormed(fs.tree)
    ensures e.None? ==> IsDir(fs.tree, dst) && Overlaid(was, src, dst, done + {n}, fs.tree)
    ensures e.None? ==> CompatibleSoFar(was, src, dst, done + {n})
    ensures e.Some? ==> OnlyImages(was, src, dst, fs.tree)
    ensures e.Some? && !e.value.CopyFault? ==> !Mergeable(was, src, dst)
    ensures e == Some(CopyFault) ==> fs.mayFault
    decreases |Below(was, src)|, 0
  {
    ghost var now := fs.tree;
    OverlaidIsOnlyImages(was, src, dst, done, now);
    SourceUntouched(was, src, dst, now, src + [n]);
    var unreadable: bool := *;
    if unreadable && fs.mayFault { return Some(CopyFault); }
    assert Parent(dst + [n]) == dst;
    assert dst != dst + [n];
    if fs.tree[src + [n]].Dir? {
      ChildDisjoint(src, dst, n);
      BelowShrinks(was, now, src, dst, n);
      ChildMergeable(was, src, dst, done, n, now);
      DirHasNoLinksAbove(now, dst + [n]);
      e := CopyDir(fs, src + [n], dst + [n]);
      if e.None? {
        OverlayChild(was, src, dst, done, n, now, fs.tree);
      } else {
        ChildOnlyImages(was, src, dst, n, now, fs.tree);
      }
    } else {
      EntryCompatible(was, src, dst, done, n, now);
      e := CopyLeaf(fs, fs.tree[src + [n]], dst + [n]);
      if e.None? {
        OverlayLeaf(was, src, dst, done, n, now);
      } else {
        LeafOnlyImage(was, src, dst, n, now, fs.tree);
      }
    }
  }

  lemma ChildOnlyImages(t: Tree, src: Path, dst: Path, n: string, now: Tree, after: Tree)
    requires Disjoint(src, dst) && OnlyImages(t, src, dst, now) && OnlyImages(now, src + [n], dst + [n], after)
    ensures OnlyImages(t, src, dst, after)
  {
    forall q | !IsImage(t, src, dst, q) ensures !IsImage(now, src + [n], dst + [n], q) {
      ChildImage(t, src, dst, n, q);
      if dst + [n] <= q { SourceUntouched(t, src, dst, now, Origin(src, dst, q)); }
    }
  }

  lemma LeafOnlyImage(t: Tree, src: Path, dst: Path, n: string, now: Tree, after: Tree)
    requires OnlyImages(t, src, dst, now) && src + [n] in t && after - {dst + [n]} == now - {dst + [n]}
    ensures OnlyImages(t, src, dst, after)
  {
    assert Origin(src, dst, dst + [n]) == src + [n];
    forall q | q != dst + [n] ensures (q in after <==> q in now) && (q in now ==> after[q] == now[q]) {
      assert q in after <==> q in after - {dst + [n]};
      assert q in now <==> q in now - {dst + [n]};
    }
  }

  /** Whether a leaf may be copied is the same in the old tree and the half-merged one. */
  lemma EntryCompatible(t: Tree, src: Path, dst: Path, done: set<string>, n: string, now: Tree)
    requires WellFormed(t) && Overlaid(t, src, dst, done, now) && IsLeaf(t, src + [n]) && n !in done
    ensures Compatible(t[src + [n]], now, dst + [n]) <==> Compatible(t[src + [n]], t, dst + [n])
    ensures !Compatible(t[src + [n]], t, dst + [n]) ==> !Mergeable(t, src, dst)
    ensures Compatible(t[src + [n]], t, dst + [n]) && CompatibleSoFar(t, src, dst, done) ==>
              CompatibleSoFar(t, src, dst, done + {n})
  {
    var p := dst + [n];
    assert Origin(src, dst, p) == src + [n];
    assert IsImage(t, src, dst, p) && !IsDone(t, src, dst, done, p);
    forall q | IsDone(t, src, dst, done + {n}, q) && !IsDone(t, src, dst, done, q) ensures q == p {
      assert q[..|dst| + 1] == p;
      if q != p {
        assert src + [n] <= Origin(src, dst, q) && |Origin(src, dst, q)| != |src| + 1;
        NothingBelowLeaf(t, src + [n], Origin(src, dst, q));
      }
    }
  }

  /** The loop over the entries of `src`, in whatever order they are listed. */
  method CopyEntries(fs: FileSystem, src: Path, dst: Path, kids: set<string>, ghost was: Tree)
    returns (e: Option<CopyError>)
    requires WellFormed(was) && IsDir(was, src) && Disjoint(src, dst) && kids == Kids(was, src)
    requires WellFormed(fs.tree) && IsDir(fs.tree, dst)
    requires Overlaid(was, src, dst, {}, fs.tree) && CompatibleSoFar(was, src, dst, {})
    modifies fs
    ensures WellFormed(fs.tree)
    ensures e.None? ==> Overlaid(was, src, dst, kids, fs.tree) && CompatibleSoFar(was, src, dst, kids)
    ensures e.Some? ==> OnlyImages(was, src, dst, fs.tree)
    ensures e.Some? && !e.value.CopyFault? ==> !Mergeable(was, src, dst)
    ensures e == Some(CopyFault) ==> fs.mayFault
    decreases |Below(was, src)|, 1
  {
    var todo := kids;
    ghost var done: set<string> := {};
    while todo != {}
      invariant done == kids - todo && todo <= kids && WellFormed(fs.tree) && IsDir(fs.tree, dst)
      invariant Overlaid(was, src, dst, done, fs.tree) && CompatibleSoFar(was, src, dst, done)
      decreases |todo|
    {
      var n :| n in todo;
      KidInTree(was, src, n);
      e := CopyEntry(fs, src, dst, n, was, done);
      if e.Some? { return; }
      todo, done := todo - {n}, done + {n};
    }
    assert done == kids;
    e := None;
  }

  /** Copy the directory `src` onto `dst`, merging directories and replacing links and files. */
  method CopyDir(fs: FileSystem, src: Path, dst: Path) returns (e: Option<CopyError>)
    requires WellFormed(fs.tree) && IsDir(fs.tree, src) && Disjoint(src, dst) && NoLinksAbove(fs.tree, dst)
    modifies fs
    ensures WellFormed(fs.tree)
    ensures e.None? ==> Merged(old(fs.tree), src, dst, fs.tree)
    ensures e.None? ==> Mergeable(old(fs.tree), src, dst) && IsDir(old(fs.tree), Parent(dst))
    ensures e.Some? ==> OnlyImages(old(fs.tree), src, dst, fs.tree)
    ensures e.Some? && !e.value.CopyFault? ==> !Mergeable(old(fs.tree), src, dst)
    ensures e == Some(CopyFault) ==> fs.mayFault || !IsDir(old(fs.tree), Parent(dst))
    decreases |Below(fs.tree, src)|, 2
  {
    ghost var was := fs.tree;
    OverlayRoot(was, src, dst);
    var d := EnterDir(fs, dst);
    if d.Some? {
      return Some(match d.value
                  case Escape(at) => DestinationLink(at)
                  case NotADirectory(at) => DestinationNotDir(at)
                  case _ => CopyFault);
    }
    AddDir(was, dst);
    OverlaidIsOnlyImages(was, src, dst, {}, fs.tree);
    KidsUntouched(was, src, dst, fs.tree);
    e := CopyEntries(fs, src, dst, Kids(fs.tree, src), was);
    if e.None? { OverlayComplete(was, src, dst, fs.tree); }
  }

  // ------------------------------------------------------- ADD onto the staging tree

  /** Outside `root` the two trees are the same. */
  ghost predicate SameOutside(root: Path, t: Tree, now: Tree) {
    forall q :: !(root <= q) ==> (q in now <==> q in t) && (q in t ==> now[q] == t[q])
  }

  lemma DescentStaysInside(t: Tree, root: Path, names: seq<string>, r: Result<Path, WriteError>, now: Tree)
    requires Descended(t, root, names, r, now)
    ensures SameOutside(root, t, now)
  {
    forall q | !(root <= q) ensures (q in now <==> q in t) && (q in t ==> now[q] == t[q]) {
      if (q in now) != (q in t) || (q in t && now[q] != t[q]) {
        DescentIsContained(t, root, names, r, now, q);
        assert false;
      }
    }
  }

  lemma PrefixTransitive(a: Path, b: Path, c: Path)
    ensures a <= b && b <= c ==> a <= c
  {
    if a <= b && b <= c {
      assert a == b[..|a|] == c[..|a|];
    }
  }

  lemma InsideIsDisjoint(src: Path, root: Path, p: Path)
    requires Disjoint(src, root) && root <= p
    ensures Disjoint(src, p)
  {
    PrefixesNest(root, src, p);
    PrefixTransitive(root, p, src);
  }

  lemma ImagesAreInside(t: Tree, src: Path, root: Path, dst: Path, now: Tree)
    requires root <= dst && OnlyImages(t, src, dst, now)
    ensures SameOutside(root, t, now)
  {
    forall q | IsImage(t, src, dst, q) ensures root <= q {
      assert root == dst[..|root|] == q[..|root|];
    }
  }

  /** What an `ADD` needs: a path that stays inside, and nothing in the way there or below. */
  ghost predicate Addable(t: Tree, staging: Path, rel: string, src: Path)
    requires src in t
  {
    var names := Normals(Pieces(rel));
    var ready := Prepared(t, staging, names);
    && ".." !in Pieces(rel)
    && Passable(t, staging, names, if names == [] then 0 else |names| - 1)
    && if t[src].Dir? then Mergeable(ready, src, staging + names) else !IsDir(ready, staging + names)
  }

  /** A descent stopped by the tree was not passable. */
  lemma StoppedIsImpassable(t: Tree, root: Path, names: seq<string>, r: Result<Path, WriteError>, now: Tree)
    requires Descended(t, root, names, r, now) && r.Err? && !r.error.Os?
    ensures names != [] && !Passable(t, root, names, |names| - 1)
  {
    var n: nat :| StoppedAt(t, root, names, n, r.error, now);
    assert BlockedBy(t, root, names, n + 1, r.error);
  }

  /**
  `ADD <src> <rel>`: find the place under the staging root, then copy the tree or
  the file there.  Whatever links an earlier layer planted under the root, and
  whether or not the call succeeds, nothing outside the root changes.
  */
  method AddToStaging(fs: FileSystem, staging: Path, rel: string, src: Path) returns (ok: bool)
    requires WellFormed(fs.tree) && IsDir(fs.tree, staging) && Disjoint(src, staging)
    requires src in fs.tree && !fs.tree[src].Link?
    modifies fs
    ensures SameOutside(staging, old(fs.tree), fs.tree)
    ensures ok ==> Addable(old(fs.tree), staging, rel, src)
    ensures Addable(old(fs.tree), staging, rel, src) && !fs.mayFault ==> ok
    ensures ok && old(fs.tree)[src].Dir? ==>
      var names := Normals(Pieces(rel));
      Merged(Prepared(old(fs.tree), staging, names), src, staging + names, fs.tree)
    ensures ok && old(fs.tree)[src].File? ==>
      var names := Normals(Pieces(rel));
      fs.tree == Prepared(old(fs.tree), staging, names)[staging + names := old(fs.tree)[src]]
  {
    ghost var was := fs.tree;
    ghost var names := Normals(Pieces(rel));
    var r := ContainedWritePath(fs, staging, rel);
    if r.Err? {
      if r != Err(UnsafeComponent) {
        DescentStaysInside(was, staging, names, r, fs.tree);
        if r != Err(Os) { StoppedIsImpassable(was, staging, names, r, fs.tree); }
      }
      return false;
    }
    DescentStaysInside(was, staging, names, r, fs.tree);
    LaterWriteStaysPut(was, staging, names, r, fs.tree);
    var dst := r.value;
    InsideIsDisjoint(src, staging, dst);
    ghost var mid := fs.tree;
    assert IsDir(mid, Parent(dst)) by { assert IsDir(mid, dst[..|dst| - 1]); }
    DirHasNoLinksAbove(mid, dst);
    match fs.tree[src] {
      case Dir =>
        var e := CopyDir(fs, src, dst);
        ImagesAreInside(mid, src, staging, dst, fs.tree);
        ok := e.None?;
      case File(data) =>
        var w := fs.WriteFile(dst, data);
        ok := w.Ok?;
    }
  }
}
