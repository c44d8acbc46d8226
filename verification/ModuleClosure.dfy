/**
The modules an initramfs carries: the selected ones and, through `modules.dep`,
everything they need that the tree has.

Matching is by stem (the file name without its `.ko` suffix, `-` and `_` taken as
the same character), never by path.
*/
module ModuleClosure {
  import opened SetSize

  type Stem = string

  /** A path, by components. */
  type FilePath = p: seq<string> | p != [] witness ["a"]

  // --------------------------------------------------------------------- stems

  predicate HasSuffix(s: string, suffix: string) {
    |suffix| <= |s| && s[|s| - |suffix|..] == suffix
  }

  function ModuleStem(name: string): string {
    if HasSuffix(name, ".ko.zst") then name[..|name| - 7]
    else if HasSuffix(name, ".ko.xz") then name[..|name| - 6]
    else if HasSuffix(name, ".ko.gz") then name[..|name| - 6]
    else if HasSuffix(name, ".ko") then name[..|name| - 3]
    else name
  }

  /** A decompressed file keeps the stem that `modules.dep` recorded for the compressed one. */
  lemma StemIgnoresCompression(base: string)
    ensures ModuleStem(base + ".ko") == base
    ensures ModuleStem(base + ".ko.gz") == base
    ensures ModuleStem(base + ".ko.xz") == base
    ensures ModuleStem(base + ".ko.zst") == base
  {
    var b := |base|;
    assert (base + ".ko")[b..] == ".ko" && (base + ".ko.gz")[b..] == ".ko.gz";
    assert (base + ".ko.xz")[b..] == ".ko.xz" && (base + ".ko.zst")[b..] == ".ko.zst";
    LastDiffers(base + ".ko", ".ko.zst");
    LastDiffers(base + ".ko", ".ko.xz");
    LastDiffers(base + ".ko", ".ko.gz");
    LastDiffers(base + ".ko.xz", ".ko.zst");
    LastDiffers(base + ".ko.gz", ".ko.zst");
    LastDiffers(base + ".ko.gz", ".ko.xz");
  }

  lemma LastDiffers(s: string, suffix: string)
    requires |suffix| > 1 && |s| > 1
    ensures HasSuffix(s, suffix) ==> s[|s| - 1] == suffix[|suffix| - 1] && s[|s| - 2] == suffix[|suffix| - 2]
  {
    if HasSuffix(s, suffix) {
      assert s[|s| - |suffix|..][|suffix| - 1] == s[|s| - 1];
      assert s[|s| - |suffix|..][|suffix| - 2] == s[|s| - 2];
    }
  }

  function ModuleKey(stem: string): Stem {
    seq(|stem|, i requires 0 <= i < |stem| => if stem[i] == '-' then '_' else stem[i])
  }

  function FileName(p: FilePath): string {
    p[|p| - 1]
  }

  function KeyOf(p: FilePath): Stem {
    ModuleKey(ModuleStem(FileName(p)))
  }

  predicate IsModule(p: FilePath) {
    ModuleStem(FileName(p)) != FileName(p)
  }

  /** Two names that differ at most where both have a dash or an underscore. */
  predicate Alike(s: string, t: string) {
    |s| == |t| && forall i :: 0 <= i < |s| ==> s[i] == t[i] || (s[i] in "-_" && t[i] in "-_")
  }

  /** Dash and underscore are one character to a key, and nothing else is changed. */
  lemma KeysAgreeIff(s: string, t: string)
    ensures ModuleKey(s) == ModuleKey(t) <==> Alike(s, t)
    ensures '-' !in ModuleKey(s)
    ensures '-' !in s ==> ModuleKey(s) == s
  {
    if ModuleKey(s) == ModuleKey(t) {
      forall i | 0 <= i < |s| ensures s[i] == t[i] || (s[i] in "-_" && t[i] in "-_") {
        assert ModuleKey(s)[i] == ModuleKey(t)[i];
        assert "-_"[0] == '-' && "-_"[1] == '_';
      }
    }
    if Alike(s, t) {
      forall i | 0 <= i < |s| ensures ModuleKey(s)[i] == ModuleKey(t)[i] {
        assert forall c :: c in "-_" <==> c == '-' || c == '_';
      }
    }
  }

  /** A module file goes by its own name, without its suffix, wherever it lies; a file without one is no module. */
  lemma KeyOfFile(dir: seq<string>, base: string)
    ensures forall suffix :: suffix in {".ko", ".ko.gz", ".ko.xz", ".ko.zst"} ==>
      KeyOf(dir + [base + suffix]) == ModuleKey(base) && IsModule(dir + [base + suffix])
    ensures IsModule(dir + [base]) <==>
      HasSuffix(base, ".ko") || HasSuffix(base, ".ko.gz") || HasSuffix(base, ".ko.xz") || HasSuffix(base, ".ko.zst")
  {
    StemIgnoresCompression(base);
    LastIsFileName(dir, base);
    forall suffix | suffix in {".ko", ".ko.gz", ".ko.xz", ".ko.zst"}
      ensures KeyOf(dir + [base + suffix]) == ModuleKey(base) && IsModule(dir + [base + suffix])
    {
      LastIsFileName(dir, base + suffix);
      assert (base + suffix)[|base|..] == suffix;
    }
  }

  lemma LastIsFileName(dir: seq<string>, name: string)
    ensures FileName(dir + [name]) == name
  {
  }

  // --------------------------------------------------------------------- order

  predicate StrLess(a: string, b: string) {
    if b == "" then false
    else if a == "" then true
    else a[0] < b[0] || (a[0] == b[0] && StrLess(a[1..], b[1..]))
  }

  predicate PathLess(a: seq<string>, b: seq<string>) {
    if b == [] then false
    else if a == [] then true
    else StrLess(a[0], b[0]) || (a[0] == b[0] && PathLess(a[1..], b[1..]))
  }

  /** `a` ends at `i`, or has the smaller character there, and up to there they agree. */
  predicate LessAt(a: string, b: string, i: nat) {
    i <= |a| && i < |b| && a[..i] == b[..i] && (i == |a| || a[i] < b[i])
  }

  /** The order of strings: the first difference decides, and a proper prefix comes first. */
  lemma {:induction false} StrLessMeaning(a: string, b: string)
    ensures StrLess(a, b) <==> exists i: nat :: LessAt(a, b, i)
  {
    if b != "" && a != "" {
      StrLessMeaning(a[1..], b[1..]);
      assert a == [a[0]] + a[1..] && b == [b[0]] + b[1..];
      if a[0] == b[0] && StrLess(a[1..], b[1..]) {
        var i: nat :| LessAt(a[1..], b[1..], i);
        assert a[..i + 1] == [a[0]] + a[1..][..i] && b[..i + 1] == [b[0]] + b[1..][..i];
        assert LessAt(a, b, i + 1);
      }
      if a[0] < b[0] { assert LessAt(a, b, 0); }
      if i: nat :| LessAt(a, b, i) {
        if i > 0 {
          assert a[..i][0] == a[0] && b[..i][0] == b[0];
          assert a[1..][..i - 1] == a[..i][1..] && b[1..][..i - 1] == b[..i][1..];
          assert LessAt(a[1..], b[1..], i - 1);
        }
      }
    } else if b != "" {
      assert LessAt(a, b, 0);
    }
  }

  /** The order of paths: by components, the first that differs decides, and a parent comes before what it holds. */
  lemma {:induction false} PathLessMeaning(prefix: seq<string>, a: seq<string>, b: seq<string>)
    ensures PathLess(prefix + a, prefix + b) <==>
      if b == [] then false else a == [] || StrLess(a[0], b[0]) || (a[0] == b[0] && PathLess(a[1..], b[1..]))
  {
    if prefix == [] {
      assert prefix + a == a && prefix + b == b;
    } else {
      assert (prefix + a)[1..] == prefix[1..] + a && (prefix + b)[1..] == prefix[1..] + b;
      assert (prefix + a)[0] == (prefix + b)[0] == prefix[0];
      StrLessTotal(prefix[0], prefix[0]);
      PathLessMeaning(prefix[1..], a, b);
    }
  }

  lemma {:induction false} StrLessTotal(a: string, b: string)
    ensures !StrLess(a, a)
    ensures !(StrLess(a, b) && StrLess(b, a))
    ensures StrLess(a, b) || StrLess(b, a) || a == b
  {
    if a != "" {
      StrLessTotal(a[1..], if b != "" then b[1..] else "");
      assert b != "" && a[0] == b[0] && a[1..] == b[1..] ==> a == b by {
        assert a == [a[0]] + a[1..];
        assert b != "" ==> b == [b[0]] + b[1..];
      }
    }
  }

  lemma {:induction false} StrLessTransitive(a: string, b: string, c: string)
    requires StrLess(a, b) && StrLess(b, c)
    ensures StrLess(a, c)
  {
    if a != "" && a[0] == b[0] && b[0] == c[0] { StrLessTransitive(a[1..], b[1..], c[1..]); }
  }

  lemma {:induction false} PathLessTotal(a: seq<string>, b: seq<string>)
    ensures !PathLess(a, a)
    ensures !(PathLess(a, b) && PathLess(b, a))
    ensures PathLess(a, b) || PathLess(b, a) || a == b
  {
    if a != [] {
      PathLessTotal(a[1..], if b != [] then b[1..] else []);
      StrLessTotal(a[0], if b != [] then b[0] else "");
      StrLessTotal(a[0], a[0]);
      assert b != [] && a[0] == b[0] && a[1..] == b[1..] ==> a == b by {
        assert a == [a[0]] + a[1..];
        assert b != [] ==> b == [b[0]] + b[1..];
      }
    }
  }

  lemma {:induction false} PathLessTransitive(a: seq<string>, b: seq<string>, c: seq<string>)
    requires PathLess(a, b) && PathLess(b, c)
    ensures PathLess(a, c)
  {
    if a != [] {
      if StrLess(a[0], b[0]) && StrLess(b[0], c[0]) {
        StrLessTransitive(a[0], b[0], c[0]);
      } else if a[0] == b[0] == c[0] {
        PathLessTransitive(a[1..], b[1..], c[1..]);
      }
    }
  }

  /** Strictly increasing, so also without duplicates. */
  ghost predicate Sorted(s: seq<FilePath>) {
    forall i, j :: 0 <= i < j < |s| ==> PathLess(s[i], s[j])
  }

  /** Insert into a sorted sequence without creating a duplicate. */
  method Insert(s: seq<FilePath>, p: FilePath) returns (r: seq<FilePath>)
    requires Sorted(s)
    ensures Sorted(r)
    ensures forall q :: q in r <==> q in s || q == p
  {
    var i := 0;
    while i < |s| && PathLess(s[i], p)
      invariant i <= |s| && forall j :: 0 <= j < i ==> PathLess(s[j], p)
    {
      i := i + 1;
    }
    if i < |s| && s[i] == p { return s; }
    if i < |s| {
      PathLessTotal(s[i], p);
      forall j | i <= j < |s| ensures PathLess(p, s[j]) {
        if i < j { PathLessTransitive(p, s[i], s[j]); }
      }
    }
    r := s[..i] + [p] + s[i..];
  }

  /** A set of paths has one sorted listing. */
  lemma {:induction false} SortedUnique(a: seq<FilePath>, b: seq<FilePath>)
    requires Sorted(a) && Sorted(b) && forall q :: q in a <==> q in b
    ensures a == b
  {
    if |b| > 0 { assert b[0] in a; }
    if a != [] {
      assert a[0] in b && (b != [] ==> b[0] in a);
      var i :| 0 <= i < |b| && b[i] == a[0];
      var j :| 0 <= j < |a| && a[j] == b[0];
      PathLessTotal(a[0], b[0]);
      assert i == 0;
      forall q ensures q in a[1..] <==> q in b[1..] {
        SortedTail(a, q);
        SortedTail(b, q);
      }
      SortedUnique(a[1..], b[1..]);
      assert a == [a[0]] + a[1..] && b == [b[0]] + b[1..];
    }
  }

  lemma SortedTail(s: seq<FilePath>, q: FilePath)
    requires Sorted(s) && s != []
    ensures q in s[1..] <==> q in s && q != s[0]
  {
    PathLessTotal(s[0], s[0]);
    if q in s && q != s[0] {
      var i :| 0 <= i < |s| && s[i] == q;
      assert s[1..][i - 1] == q;
    }
  }

  // ------------------------------------------------------------------- closure

  /** The last file of each stem. */
  function LastByStem(files: seq<FilePath>): map<Stem, FilePath> {
    if files == [] then map[]
    else
      var last, rest := files[|files| - 1], LastByStem(files[..|files| - 1]);
      if IsModule(last) then rest[KeyOf(last) := last] else rest
  }

  /** Every module file of the tree by stem; of two files with one stem the later walked wins. */
  method FilesByStem(files: seq<FilePath>) returns (onDisk: map<Stem, FilePath>)
    ensures onDisk == LastByStem(files)
  {
    onDisk := map[];
    for n := 0 to |files|
      invariant onDisk == LastByStem(files[..n])
    {
      assert files[..n + 1][..n] == files[..n];
      if IsModule(files[n]) { onDisk := onDisk[KeyOf(files[n]) := files[n]]; }
    }
    assert files[..|files|] == files;
  }

  /** Each stem on disk leads to a module file that has it. */
  lemma {:induction false} LastByStemIsSound(files: seq<FilePath>)
    ensures ByStem(files, LastByStem(files))
  {
    if files != [] {
      var rest := files[..|files| - 1];
      LastByStemIsSound(rest);
      assert forall p :: p in rest ==> p in files;
    }
  }

  /** Every module file's stem leads to that file or a later one, so to the last one. */
  lemma {:induction false} LastByStemIsLast(files: seq<FilePath>, i: nat) returns (j: nat)
    requires i < |files| && IsModule(files[i])
    ensures i <= j < |files| && KeyOf(files[i]) in LastByStem(files) && LastByStem(files)[KeyOf(files[i])] == files[j]
  {
    var n := |files| - 1;
    if i == n || (IsModule(files[n]) && KeyOf(files[n]) == KeyOf(files[i])) {
      j := n;
    } else {
      j := LastByStemIsLast(files[..n], i);
    }
  }

  /** Each stem leads to a module file that has it, so different stems lead to different files. */
  ghost predicate ByStem(files: seq<FilePath>, onDisk: map<Stem, FilePath>) {
    forall s :: s in onDisk ==> onDisk[s] in files && IsModule(onDisk[s]) && KeyOf(onDisk[s]) == s
  }

  type Deps = map<Stem, seq<Stem>>

  /** A walk from one of the `roots` along dependencies, through stems present on disk. */
  ghost predicate IsWalk(roots: set<Stem>, onDisk: map<Stem, FilePath>, deps: Deps, w: seq<Stem>) {
    && w != []
    && w[0] in roots
    && (forall j :: 0 <= j < |w| ==> w[j] in onDisk)
    && (forall j :: 0 <= j < |w| - 1 ==> w[j] in deps && w[j + 1] in deps[w[j]])
  }

  ghost predicate Reachable(roots: set<Stem>, onDisk: map<Stem, FilePath>, deps: Deps, s: Stem) {
    exists w :: IsWalk(roots, onDisk, deps, w) && w[|w| - 1] == s
  }

  /** Exactly the files of the reachable stems, in path order. */
  ghost predicate IsClosure(roots: set<Stem>, onDisk: map<Stem, FilePath>, deps: Deps, out: seq<FilePath>) {
    && Sorted(out)
    && forall p :: p in out <==> exists s :: Reachable(roots, onDisk, deps, s) && onDisk[s] == p
  }

  /** The result is determined by the set of selected stems: no worklist order shows in it. */
  lemma ClosureUnique(roots: set<Stem>, onDisk: map<Stem, FilePath>, deps: Deps, a: seq<FilePath>, b: seq<FilePath>)
    requires IsClosure(roots, onDisk, deps, a) && IsClosure(roots, onDisk, deps, b)
    ensures a == b
  {
    SortedUnique(a, b);
  }

  lemma ReachRoot(roots: set<Stem>, onDisk: map<Stem, FilePath>, deps: Deps, s: Stem)
    requires s in roots && s in onDisk
    ensures Reachable(roots, onDisk, deps, s)
  {
    assert IsWalk(roots, onDisk, deps, [s]) && [s][|[s]| - 1] == s;
  }

  lemma ReachNext(roots: set<Stem>, onDisk: map<Stem, FilePath>, deps: Deps, s: Stem, d: Stem)
    requires Reachable(roots, onDisk, deps, s) && s in deps && d in deps[s] && d in onDisk
    ensures Reachable(roots, onDisk, deps, d)
  {
    var w :| IsWalk(roots, onDisk, deps, w) && w[|w| - 1] == s;
    var v := w + [d];
    forall j | 0 <= j < |v| - 1 ensures v[j] in deps && v[j + 1] in deps[v[j]] {
      if j < |w| - 1 { assert v[j] == w[j] && v[j + 1] == w[j + 1]; }
    }
    assert IsWalk(roots, onDisk, deps, v) && v[|v| - 1] == d;
  }

  /** `seen` holds the roots and the dependencies of its members, as far as they are on disk. */
  ghost predicate Closed(roots: set<Stem>, onDisk: map<Stem, FilePath>, deps: Deps, seen: set<Stem>) {
    && (forall s :: s in roots && s in onDisk ==> s in seen)
    && (forall s, d :: s in seen && s in deps && d in deps[s] && d in onDisk ==> d in seen)
  }

  lemma {:induction false} ClosedHoldsWalk(roots: set<Stem>, onDisk: map<Stem, FilePath>, deps: Deps,
                                           seen: set<Stem>, w: seq<Stem>)
    requires Closed(roots, onDisk, deps, seen) && IsWalk(roots, onDisk, deps, w)
    ensures w[|w| - 1] in seen
  {
    if |w| > 1 {
      var v := w[..|w| - 1];
      forall j | 0 <= j < |v| - 1 ensures v[j] in deps && v[j + 1] in deps[v[j]] {
        assert v[j] == w[j] && v[j + 1] == w[j + 1];
      }
      assert forall j :: 0 <= j < |v| ==> v[j] == w[j];
      ClosedHoldsWalk(roots, onDisk, deps, seen, v);
      assert w[|w| - 2] in deps && w[|w| - 2 + 1] in deps[w[|w| - 2]];
    }
  }

  /** What the worklist still owes: everything not yet seen is queued. */
  ghost predicate Pending(roots: set<Stem>, onDisk: map<Stem, FilePath>, deps: Deps,
                          seen: set<Stem>, queue: seq<Stem>) {
    && (forall s :: s in roots && s in onDisk ==> s in seen || s in queue)
    && (forall s, d :: s in seen && s in deps && d in deps[s] && d in onDisk ==> d in seen || d in queue)
  }

  /** Only what is reachable is seen or queued. */
  ghost predicate Justified(roots: set<Stem>, onDisk: map<Stem, FilePath>, deps: Deps,
                            seen: set<Stem>, queue: seq<Stem>) {
    && (forall s :: s in seen ==> s in onDisk && Reachable(roots, onDisk, deps, s))
    && (forall s :: s in queue && s in onDisk ==> Reachable(roots, onDisk, deps, s))
  }

  /** Dropping a stem that is not on disk or already seen loses nothing. */
  lemma SkipKeeps(roots: set<Stem>, onDisk: map<Stem, FilePath>, deps: Deps, seen: set<Stem>,
                  queue: seq<Stem>, stem: Stem)
    requires Justified(roots, onDisk, deps, seen, queue + [stem]) && Pending(roots, onDisk, deps, seen, queue + [stem])
    requires stem !in onDisk || stem in seen
    ensures Justified(roots, onDisk, deps, seen, queue) && Pending(roots, onDisk, deps, seen, queue)
  {
    assert forall s :: s in queue + [stem] <==> s in queue || s == stem;
  }

  /** Taking a new stem adds it and queues what it needs. */
  lemma TakeKeeps(roots: set<Stem>, onDisk: map<Stem, FilePath>, deps: Deps, seen: set<Stem>,
                  queue: seq<Stem>, stem: Stem)
    requires Justified(roots, onDisk, deps, seen, queue + [stem]) && Pending(roots, onDisk, deps, seen, queue + [stem])
    requires stem in onDisk
    ensures var more := if stem in deps then deps[stem] else [];
      && Justified(roots, onDisk, deps, seen + {stem}, queue + more)
      && Pending(roots, onDisk, deps, seen + {stem}, queue + more)
  {
    assert forall s :: s in queue + [stem] <==> s in queue || s == stem;
    if stem in deps {
      forall d | d in deps[stem] && d in onDisk ensures Reachable(roots, onDisk, deps, d) {
        ReachNext(roots, onDisk, deps, stem, d);
      }
    }
  }

  /** `resolved` lists the files of the stems in `seen`. */
  ghost predicate Recorded(onDisk: map<Stem, FilePath>, seen: set<Stem>, resolved: seq<FilePath>) {
    && Sorted(resolved)
    && (forall s :: s in onDisk ==> (onDisk[s] in resolved <==> s in seen))
    && (forall p :: p in resolved ==> KeyOf(p) in onDisk && onDisk[KeyOf(p)] == p)
  }

  lemma TakeRecorded(files: seq<FilePath>, onDisk: map<Stem, FilePath>, seen: set<Stem>, resolved: seq<FilePath>,
                     stem: Stem, now: seq<FilePath>)
    requires ByStem(files, onDisk) && Recorded(onDisk, seen, resolved) && stem in onDisk
    requires Sorted(now) && forall q :: q in now <==> q in resolved || q == onDisk[stem]
    ensures Recorded(onDisk, seen + {stem}, now)
  {
  }

  /** Every stem the worklist sees: pop a stem and, unless it has no file or was seen, queue what it needs. */
  function Walk(onDisk: map<Stem, FilePath>, deps: Deps, seen: set<Stem>, queue: seq<Stem>): set<Stem>
    decreases |onDisk.Keys - seen|, |queue|
  {
    if queue == [] then seen
    else
      var stem, rest := queue[|queue| - 1], queue[..|queue| - 1];
      if stem !in onDisk || stem in seen then Walk(onDisk, deps, seen, rest)
      else
        Fewer(onDisk.Keys - (seen + {stem}), onDisk.Keys - seen, stem);
        Walk(onDisk, deps, seen + {stem}, rest + if stem in deps then deps[stem] else [])
  }

  /** The worklist owes nothing when it ends. */
  lemma {:induction false} WalkFinishes(roots: set<Stem>, onDisk: map<Stem, FilePath>, deps: Deps,
                                        seen: set<Stem>, queue: seq<Stem>)
    requires Justified(roots, onDisk, deps, seen, queue) && Pending(roots, onDisk, deps, seen, queue)
    ensures var all := Walk(onDisk, deps, seen, queue);
      Justified(roots, onDisk, deps, all, []) && Pending(roots, onDisk, deps, all, [])
    decreases |onDisk.Keys - seen|, |queue|
  {
    if queue != [] {
      var stem, rest := queue[|queue| - 1], queue[..|queue| - 1];
      assert queue == rest + [stem];
      if stem !in onDisk || stem in seen {
        SkipKeeps(roots, onDisk, deps, seen, rest, stem);
        WalkFinishes(roots, onDisk, deps, seen, rest);
      } else {
        TakeKeeps(roots, onDisk, deps, seen, rest, stem);
        Fewer(onDisk.Keys - (seen + {stem}), onDisk.Keys - seen, stem);
        WalkFinishes(roots, onDisk, deps, seen + {stem}, rest + if stem in deps then deps[stem] else []);
      }
    }
  }

  lemma FinishedIsReachable(roots: set<Stem>, onDisk: map<Stem, FilePath>, deps: Deps, seen: set<Stem>, s: Stem)
    requires Justified(roots, onDisk, deps, seen, []) && Pending(roots, onDisk, deps, seen, [])
    ensures Reachable(roots, onDisk, deps, s) <==> s in seen
  {
    if Reachable(roots, onDisk, deps, s) {
      var w :| IsWalk(roots, onDisk, deps, w) && w[|w| - 1] == s;
      ClosedHoldsWalk(roots, onDisk, deps, seen, w);
    }
  }

  /** The worklist sees exactly the stems reachable from the ones it starts with, cycles or not. */
  lemma WalkIsReachable(start: seq<Stem>, onDisk: map<Stem, FilePath>, deps: Deps, s: Stem)
    ensures s in Walk(onDisk, deps, {}, start) <==> Reachable((set x | x in start), onDisk, deps, s)
  {
    var roots := set x | x in start;
    forall x | x in start && x in onDisk ensures Reachable(roots, onDisk, deps, x) {
      ReachRoot(roots, onDisk, deps, x);
    }
    WalkFinishes(roots, onDisk, deps, {}, start);
    FinishedIsReachable(roots, onDisk, deps, Walk(onDisk, deps, {}, start), s);
  }

  /** The files recorded for what the worklist saw are the closure. */
  lemma RecordedIsClosure(start: seq<Stem>, onDisk: map<Stem, FilePath>, deps: Deps, resolved: seq<FilePath>)
    requires Recorded(onDisk, Walk(onDisk, deps, {}, start), resolved)
    ensures IsClosure((set s | s in start), onDisk, deps, resolved)
  {
    var roots := set s | s in start;
    forall p ensures p in resolved <==> exists s :: Reachable(roots, onDisk, deps, s) && onDisk[s] == p {
      if p in resolved {
        WalkIsReachable(start, onDisk, deps, KeyOf(p));
      }
      if s :| Reachable(roots, onDisk, deps, s) && onDisk[s] == p {
        WalkIsReachable(start, onDisk, deps, s);
      }
    }
  }

  /** The worklist: pop a stem, record its file, queue what it needs. */
  method Resolve(start: seq<Stem>, files: seq<FilePath>, onDisk: map<Stem, FilePath>, deps: Deps)
    returns (resolved: seq<FilePath>)
    requires ByStem(files, onDisk)
    ensures IsClosure((set s | s in start), onDisk, deps, resolved)
  {
    ghost var seen: set<Stem> := {};
    resolved := [];
    var queue := start;
    while queue != []
      invariant Recorded(onDisk, seen, resolved)
      invariant Walk(onDisk, deps, seen, queue) == Walk(onDisk, deps, {}, start)
      decreases |onDisk.Keys - seen|, |queue|
    {
      var stem := queue[|queue| - 1];
      queue := queue[..|queue| - 1];
      if stem !in onDisk || onDisk[stem] in resolved { continue; }
      ghost var before := resolved;
      resolved := Insert(resolved, onDisk[stem]);
      TakeRecorded(files, onDisk, seen, before, stem, resolved);
      Fewer(onDisk.Keys - (seen + {stem}), onDisk.Keys - seen, stem);
      seen := seen + {stem};
      queue := queue + if stem in deps then deps[stem] else [];
    }
    RecordedIsClosure(start, onDisk, deps, resolved);
  }

  // ----------------------------------------------------------- with_dependencies

  /** In path order, duplicates kept. */
  ghost predicate Ordered(s: seq<FilePath>) {
    forall i, j :: 0 <= i < j < |s| ==> !PathLess(s[j], s[i])
  }

  method InsertInOrder(s: seq<FilePath>, p: FilePath) returns (r: seq<FilePath>)
    requires Ordered(s)
    ensures Ordered(r) && multiset(r) == multiset(s) + multiset{p}
  {
    var i := 0;
    while i < |s| && PathLess(s[i], p)
      invariant i <= |s| && forall j :: 0 <= j < i ==> PathLess(s[j], p)
    {
      i := i + 1;
    }
    InsertOrdered(s, i, p);
    r := s[..i] + [p] + s[i..];
    assert s == s[..i] + s[i..];
  }

  method SortPaths(s: seq<FilePath>) returns (r: seq<FilePath>)
    ensures Ordered(r) && multiset(r) == multiset(s)
  {
    r := [];
    for n := 0 to |s|
      invariant Ordered(r) && multiset(r) == multiset(s[..n])
    {
      assert s[..n + 1] == s[..n] + [s[n]];
      r := InsertInOrder(r, s[n]);
    }
    assert s[..|s|] == s;
  }

  lemma InsertOrdered(r: seq<FilePath>, i: nat, p: FilePath)
    requires Ordered(r) && i <= |r| && (i < |r| ==> !PathLess(r[i], p))
    requires forall j :: 0 <= j < i ==> PathLess(r[j], p)
    ensures Ordered(r[..i] + [p] + r[i..])
  {
    forall j | 0 <= j < |r| ensures if j < i then !PathLess(p, r[j]) else !PathLess(r[j], p) {
      PathLessTotal(r[j], p);
      if i <= j && PathLess(r[j], p) {
        PathLessTotal(r[i], p);
        PathLessTotal(r[i], r[j]);
        if r[i] != p && PathLess(p, r[i]) { PathLessTransitive(r[j], p, r[i]); }
      }
    }
  }

  function Roots(selected: seq<FilePath>): seq<Stem> {
    seq(|selected|, i requires 0 <= i < |selected| => KeyOf(selected[i]))
  }

  /** Selections that differ only in dashes and underscores have the same closure. */
  lemma AlikeSelectionsAgree(a: seq<FilePath>, b: seq<FilePath>, onDisk: map<Stem, FilePath>, deps: Deps,
                             outA: seq<FilePath>, outB: seq<FilePath>)
    requires |a| == |b|
    requires forall i :: 0 <= i < |a| ==> Alike(ModuleStem(FileName(a[i])), ModuleStem(FileName(b[i])))
    requires IsClosure((set s | s in Roots(a)), onDisk, deps, outA)
    requires IsClosure((set s | s in Roots(b)), onDisk, deps, outB)
    ensures outA == outB
  {
    forall i | 0 <= i < |a| ensures Roots(a)[i] == Roots(b)[i] {
      KeysAgreeIff(ModuleStem(FileName(a[i])), ModuleStem(FileName(b[i])));
    }
    assert Roots(a) == Roots(b);
    ClosureUnique((set s | s in Roots(a)), onDisk, deps, outA, outB);
  }

  /**
  The modules to embed.  Without any `modules.dep` entry, the selection in path
  order; otherwise the files of every stem reachable from the selected stems.
  */
  method WithDependencies(selected: seq<FilePath>, files: seq<FilePath>, deps: Deps)
    returns (out: seq<FilePath>)
    ensures deps == map[] ==> Ordered(out) && multiset(out) == multiset(selected)
    ensures deps != map[] ==> IsClosure((set s | s in Roots(selected)), LastByStem(files), deps, out)
  {
    if deps == map[] {
      out := SortPaths(selected);
      return;
    }
    var byStem := FilesByStem(files);
    LastByStemIsSound(files);
    out := Resolve(Roots(selected), files, byStem, deps);
  }
}
