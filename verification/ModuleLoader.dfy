/**
The module-loading loop of the generated boot script: at most four passes over the
embedded modules, each trying `insmod` on every module in list order, until a pass
loads nothing.

A module is its position in the list.  `insmod` succeeds when the file can be
loaded at all, the module is not loaded yet and everything it needs is.  What the
loop achieves is stated without passes, over dependency chains: each dependency
listed at or after its dependent costs one more pass.
*/
module ModuleLoader {
  /**
  `needs[i]` are the modules that module `i` needs loaded first; a number past the
  end of the list is a module that is neither embedded nor built in.  `loadable[i]`
  is false when the file is missing or `insmod` cannot read it.
  */
  datatype Modules = Modules(needs: seq<set<nat>>, loadable: seq<bool>) {
    predicate Valid() {
      |needs| == |loadable|
    }
  }

  const PASSES := 4

  predicate Ready(m: Modules, loaded: set<nat>, i: nat)
    requires m.Valid() && i < |m.needs|
  {
    m.loadable[i] && m.needs[i] <= loaded
  }

  // ------------------------------------------------------------------- passes

  /** What is loaded once the first `i` modules of a pass were tried. */
  function PassUpTo(m: Modules, start: set<nat>, i: nat): set<nat>
    requires m.Valid() && i <= |m.needs|
  {
    if i == 0 then start
    else
      var loaded := PassUpTo(m, start, i - 1);
      if Ready(m, loaded, i - 1) then loaded + {i - 1} else loaded
  }

  /** What is loaded after `k` full passes. */
  function After(m: Modules, k: nat): set<nat>
    requires m.Valid()
  {
    if k == 0 then {} else PassUpTo(m, After(m, k - 1), |m.needs|)
  }

  /** One pass of the script, with its `_loaded` flag. */
  method Pass(m: Modules, start: set<nat>) returns (loaded: set<nat>, any: bool)
    requires m.Valid()
    ensures loaded == PassUpTo(m, start, |m.needs|)
    ensures !any <==> loaded == start
  {
    loaded, any := start, false;
    for i := 0 to |m.needs|
      invariant loaded == PassUpTo(m, start, i)
      invariant start <= loaded && (!any <==> loaded == start)
    {
      if m.loadable[i] && i !in loaded && m.needs[i] <= loaded {
        loaded, any := loaded + {i}, true;
      } else {
        assert i in loaded ==> loaded + {i} == loaded;
      }
    }
  }

  /** The script's loop: four passes at most, fewer when one loads nothing. */
  method Boot(m: Modules) returns (loaded: set<nat>)
    requires m.Valid()
    ensures loaded == After(m, 4)
    ensures forall i :: i in loaded <==> WithinPasses(m, i, 4)
  {
    loaded := {};
    var any := true;
    var pass := 0;
    while pass < PASSES && any
      invariant pass <= PASSES && loaded == After(m, pass)
      invariant !any ==> 0 < pass && After(m, pass) == After(m, pass - 1)
      decreases PASSES - pass
    {
      loaded, any := Pass(m, loaded);
      pass := pass + 1;
    }
    if !any { Fixpoint(m, pass - 1, PASSES); }
    forall i ensures i in loaded <==> WithinPasses(m, i, PASSES) {
      LoadedIffWithinPasses(m, i, PASSES);
    }
  }

  /** A pass that loads nothing ends it: no later pass loads anything. */
  lemma {:induction false} Fixpoint(m: Modules, k: nat, later: nat)
    requires m.Valid() && After(m, k + 1) == After(m, k) && k <= later
    ensures After(m, later) == After(m, k)
  {
    if k < later { Fixpoint(m, k, later - 1); }
  }

  // ------------------------------------------------------------------- chains

  /** Each element of `c` needs the next one. */
  ghost predicate IsChain(m: Modules, c: seq<nat>) {
    && c != []
    && forall j :: 0 <= j < |c| - 1 ==> c[j] < |m.needs| && c[j + 1] in m.needs[c[j]]
  }

  /** Every module on the chain is in the list and can be loaded. */
  ghost predicate Sound(m: Modules, c: seq<nat>)
    requires m.Valid()
  {
    forall j :: 0 <= j < |c| ==> c[j] < |m.needs| && m.loadable[c[j]]
  }

  /** How many dependencies on the chain are listed no earlier than their dependents. */
  function Late(c: seq<nat>): nat {
    if |c| <= 1 then 0 else (if c[0] <= c[1] then 1 else 0) + Late(c[1..])
  }

  /** The chains that start at `i` are sound and none has `k` late dependencies or more. */
  ghost predicate WithinPasses(m: Modules, i: nat, k: nat)
    requires m.Valid()
  {
    forall c :: IsChain(m, c) && c[0] == i ==> Sound(m, c) && Late(c) < k
  }

  /** The pass count of a module in terms of the modules it needs. */
  ghost predicate NeedsWithin(m: Modules, i: nat, k: nat)
    requires m.Valid() && 0 < k
  {
    && i < |m.needs| && m.loadable[i]
    && forall d :: d in m.needs[i] ==> WithinPasses(m, d, if d < i then k else k - 1)
  }

  lemma ExtendChain(m: Modules, i: nat, c: seq<nat>)
    requires i < |m.needs| && IsChain(m, c) && c[0] in m.needs[i]
    ensures IsChain(m, [i] + c) && Late([i] + c) == Late(c) + if i <= c[0] then 1 else 0
  {
    assert ([i] + c)[1..] == c;
    var e := [i] + c;
    forall j | 0 <= j < |e| - 1 ensures e[j] < |m.needs| && e[j + 1] in m.needs[e[j]] {
      if j > 0 { assert e[j] == c[j - 1] && e[j + 1] == c[j - 1 + 1]; }
    }
  }

  lemma WithinPassesStep(m: Modules, i: nat, k: nat)
    requires m.Valid() && 0 < k
    ensures WithinPasses(m, i, k) <==> NeedsWithin(m, i, k)
  {
    if WithinPasses(m, i, k) {
      assert IsChain(m, [i]) && Sound(m, [i]);
      assert [i][0] < |m.needs| && m.loadable[[i][0]];
      forall d | d in m.needs[i] ensures WithinPasses(m, d, if d < i then k else k - 1) {
        forall c | IsChain(m, c) && c[0] == d
          ensures Sound(m, c) && Late(c) < if d < i then k else k - 1
        {
          ExtendChain(m, i, c);
          assert Sound(m, [i] + c);
          forall j | 0 <= j < |c| ensures c[j] < |m.needs| && m.loadable[c[j]] {
            assert ([i] + c)[j + 1] == c[j];
          }
        }
      }
    }
    if NeedsWithin(m, i, k) {
      forall c | IsChain(m, c) && c[0] == i ensures Sound(m, c) && Late(c) < k {
        if |c| > 1 {
          var rest := c[1..];
          forall j | 0 <= j < |rest| - 1 ensures rest[j] < |m.needs| && rest[j + 1] in m.needs[rest[j]] {
            assert rest[j] == c[j + 1] && rest[j + 1] == c[j + 1 + 1];
          }
          assert c[0 + 1] in m.needs[c[0]];
          assert IsChain(m, rest);
          assert Sound(m, rest);
          forall j | 0 <= j < |c| ensures c[j] < |m.needs| && m.loadable[c[j]] {
            if j > 0 { assert c[j] == rest[j - 1]; }
          }
        }
      }
    }
  }

  // -------------------------------------------------------- passes meet chains

  /** The same step, for what the passes load. */
  ghost predicate NeedsLoaded(m: Modules, i: nat, k: nat)
    requires m.Valid() && 0 < k
  {
    && i < |m.needs| && m.loadable[i]
    && forall d :: d in m.needs[i] ==> d in After(m, if d < i then k else k - 1)
  }

  /** In the middle of a pass, what is loaded is the start plus this pass's earlier modules. */
  lemma {:induction false} MidPass(m: Modules, start: set<nat>, i: nat, j: nat)
    requires m.Valid() && i <= j <= |m.needs|
    ensures start <= PassUpTo(m, start, i) <= PassUpTo(m, start, j)
    ensures forall d :: d in PassUpTo(m, start, j) ==> d in PassUpTo(m, start, i) || i <= d < j
    decreases j
  {
    if i < j {
      MidPass(m, start, i, j - 1);
    } else if 0 < i {
      MidPass(m, start, i - 1, i - 1);
    }
  }

  lemma AfterGrows(m: Modules, k: nat)
    requires m.Valid()
    ensures After(m, k) <= After(m, k + 1)
  {
    MidPass(m, After(m, k), 0, |m.needs|);
  }

  lemma {:induction false} LoadedStep(m: Modules, i: nat, k: nat)
    requires m.Valid() && 0 < k
    ensures i in After(m, k) <==> NeedsLoaded(m, i, k)
    decreases k
  {
    var start, n := After(m, k - 1), |m.needs|;
    MidPass(m, start, 0, n);
    if i in start {
      if k > 1 {
        LoadedStep(m, i, k - 1);
        AfterGrows(m, k - 2);
        AfterGrows(m, k - 1);
      }
    } else if i < n {
      MidPass(m, start, i, n);
      MidPass(m, start, 0, i);
      MidPass(m, start, i + 1, n);
      assert i in After(m, k) <==> Ready(m, PassUpTo(m, start, i), i);
      forall d ensures d in PassUpTo(m, start, i) <==> d in After(m, if d < i then k else k - 1) {
      }
    }
  }

  /**
  After `k` passes a module is loaded exactly when its chains are sound and have
  fewer than `k` late dependencies each: its pass is one more than the worst count.
  No order and no absence of cycles is assumed; round a cycle the count has no bound.
  */
  lemma {:induction false} LoadedIffWithinPasses(m: Modules, i: nat, k: nat)
    requires m.Valid()
    ensures i in After(m, k) <==> WithinPasses(m, i, k)
    decreases k, i
  {
    if k == 0 {
      assert IsChain(m, [i]) && [i][0] == i;
    } else {
      LoadedStep(m, i, k);
      WithinPassesStep(m, i, k);
      if i < |m.needs| {
        forall d | d in m.needs[i]
          ensures d in After(m, if d < i then k else k - 1) <==> WithinPasses(m, d, if d < i then k else k - 1)
        {
          LoadedIffWithinPasses(m, d, if d < i then k else k - 1);
        }
      }
    }
  }

  /**
  Four passes load all that any number of passes would, exactly when no module whose
  chains have a bounded number of later steps has a chain with four or more; a fifth
  pass would show it.
  */
  lemma FourPassesSufficeIff(m: Modules)
    requires m.Valid()
    ensures (forall k: nat, i :: i in After(m, k) ==> i in After(m, 4)) <==>
            (forall k: nat, i :: WithinPasses(m, i, k) ==> WithinPasses(m, i, 4))
    ensures (forall k: nat, i :: i in After(m, k) ==> i in After(m, 4)) <==> After(m, 5) == After(m, 4)
  {
    forall k: nat, i: nat ensures i in After(m, k) <==> WithinPasses(m, i, k) { LoadedIffWithinPasses(m, i, k); }
    AfterGrows(m, PASSES);
    if After(m, PASSES + 1) == After(m, PASSES) {
      forall k: nat, i | i in After(m, k) ensures i in After(m, PASSES) {
        if k <= PASSES { GrowsTo(m, k, PASSES); } else { Fixpoint(m, PASSES, k); }
      }
    }
  }

  lemma {:induction false} GrowsTo(m: Modules, k: nat, later: nat)
    requires m.Valid() && k <= later
    ensures After(m, k) <= After(m, later)
  {
    if k < later {
      GrowsTo(m, k, later - 1);
      AfterGrows(m, later - 1);
    }
  }

  /** `n` modules, each needing the one listed right after it. */
  function Reversed(n: nat): (m: Modules)
    ensures m.Valid() && |m.needs| == n
  {
    Modules(seq(n, i requires 0 <= i < n => if i + 1 < n then {i + 1} else {}), seq(n, _ => true))
  }

  /** A module followed by four it depends on in turn is never loaded, whatever its place. */
  lemma {:induction false} ReversedNeedsEveryPass(n: nat, i: nat, k: nat)
    ensures i in After(Reversed(n), k) <==> i < n <= i + k
    decreases k
  {
    if k > 0 {
      var m := Reversed(n);
      LoadedStep(m, i, k);
      if i + 1 < n { ReversedNeedsEveryPass(n, i + 1, k - 1); }
      assert i < n ==> m.needs[i] == if i + 1 < n then {i + 1} else {};
    }
  }
}
