/**
Saving refs of an image layout to an archive and loading an archive into a layout.

A layout is an index of entries, some of them tagged with a ref name, and a store
of blobs by digest.  Hashing a blob and reading it as a manifest are given by a
`Codec`, about which nothing is assumed: where equal digests are taken to mean
equal bytes, the alternative, a collision, is stated.
*/
module OciArchive {
  import opened Wrappers
  import opened SetSize

  type Bytes = seq<byte>
  type Digest = string

  /** How a blob reads as a manifest: an image, an index of manifests, or anything else. */
  datatype Manifest = Leaf | Image(config: Digest, layers: seq<Digest>) | Index(children: seq<Digest>)

  datatype Codec = Codec(sha: Bytes -> Digest, parse: Bytes -> Manifest)

  type Annotations = map<string, string>

  const REF_NAME := "org.opencontainers.image.ref.name"

  const MAX_ENTRY_BYTES := 8 * 1024 * 1024 * 1024

  datatype IndexEntry = IndexEntry(mediaType: string, digest: Digest, size: int, annotations: Option<Annotations>)

  type Blobs = map<Digest, Bytes>

  function RefName(e: IndexEntry): Option<string> {
    if e.annotations.Some? && REF_NAME in e.annotations.value then Some(e.annotations.value[REF_NAME]) else None
  }

  /** The first entry tagged `name`. */
  function Lookup(index: seq<IndexEntry>, name: string): Option<IndexEntry> {
    if index == [] then None
    else if RefName(index[0]) == Some(name) then Some(index[0])
    else Lookup(index[1..], name)
  }

  /** A ref name is the value of one annotation. */
  lemma RefNameMeaning(e: IndexEntry, n: string)
    ensures RefName(e) == Some(n) <==>
      && e.annotations.Some?
      && "org.opencontainers.image.ref.name" in e.annotations.value
      && e.annotations.value["org.opencontainers.image.ref.name"] == n
  {
  }

  /** A name resolves to the first entry that has it. */
  lemma {:induction false} LookupIsFirst(index: seq<IndexEntry>, name: string, i: nat)
    requires i < |index| && RefName(index[i]) == Some(name)
    requires forall j :: 0 <= j < i ==> RefName(index[j]) != Some(name)
    ensures Lookup(index, name) == Some(index[i])
  {
    if i > 0 { LookupIsFirst(index[1..], name, i - 1); }
  }

  // --------------------------------------------------------------- reachability

  /** The digests a blob refers to directly, and those among them that are walked in turn. */
  function References(m: Manifest): seq<Digest> {
    match m
    case Leaf => []
    case Image(config, layers) => [config] + layers
    case Index(children) => children
  }

  /** An image refers to its config and to every layer, an index to every child. */
  lemma ReferencesMeaning(m: Manifest, d: Digest)
    ensures d in References(m) <==>
      || (m.Image? && (d == m.config || d in m.layers))
      || (m.Index? && d in m.children)
  {
  }

  function AsSet(s: seq<Digest>): set<Digest> {
    set d | d in s
  }

  /** `collect_reachable`: `None` when a stored manifest does not hash to its digest. */
  function Collect(c: Codec, blobs: Blobs, digest: Digest, out: set<Digest>): (r: Option<set<Digest>>)
    ensures r.Some? ==> out + {digest} <= r.value
    decreases |blobs.Keys - out|, 0
  {
    if digest in out then Some(out)
    else
      var seen := out + {digest};
      if digest !in blobs then Some(seen)
      else if c.sha(blobs[digest]) != digest then None
      else
        Fewer(blobs.Keys - seen, blobs.Keys - out, digest);
        match c.parse(blobs[digest])
        case Leaf => Some(seen)
        case Image(config, layers) => Some(seen + {config} + AsSet(layers))
        case Index(children) => CollectAll(c, blobs, children, seen)
  }

  function CollectAll(c: Codec, blobs: Blobs, digests: seq<Digest>, out: set<Digest>): (r: Option<set<Digest>>)
    ensures r.Some? ==> out <= r.value && AsSet(digests) <= r.value
    decreases |blobs.Keys - out|, 1 + |digests|
  {
    if digests == [] then Some(out)
    else
      match Collect(c, blobs, digests[0], out)
      case None => None
      case Some(more) =>
        NoMore(blobs.Keys - more, blobs.Keys - out);
        CollectAll(c, blobs, digests[1..], more)
  }

  /** A walk from a root through stored indexes to their children. */
  ghost predicate IsWalk(c: Codec, blobs: Blobs, roots: set<Digest>, w: seq<Digest>) {
    && w != []
    && w[0] in roots
    && forall j :: 0 <= j < |w| - 1 ==>
         w[j] in blobs && c.parse(blobs[w[j]]).Index? && w[j + 1] in References(c.parse(blobs[w[j]]))
  }

  ghost predicate Walked(c: Codec, blobs: Blobs, roots: set<Digest>, d: Digest) {
    exists w :: IsWalk(c, blobs, roots, w) && w[|w| - 1] == d
  }

  /** `d` is the config or a layer of the image `m`. */
  predicate IsPartOf(c: Codec, blobs: Blobs, m: Digest, d: Digest) {
    m in blobs && c.parse(blobs[m]).Image? && d in References(c.parse(blobs[m]))
  }

  /** The blob closure of the roots: what is walked, and the parts of walked images. */
  ghost predicate Reached(c: Codec, blobs: Blobs, roots: set<Digest>, d: Digest) {
    Walked(c, blobs, roots, d) || exists m :: Walked(c, blobs, roots, m) && IsPartOf(c, blobs, m, d)
  }

  lemma WalkRoot(c: Codec, blobs: Blobs, roots: set<Digest>, d: Digest)
    requires d in roots
    ensures Walked(c, blobs, roots, d)
  {
    assert IsWalk(c, blobs, roots, [d]) && [d][|[d]| - 1] == d;
  }

  lemma WalkOn(c: Codec, blobs: Blobs, roots: set<Digest>, m: Digest, d: Digest)
    requires Walked(c, blobs, roots, m) && m in blobs && c.parse(blobs[m]).Index?
    requires d in References(c.parse(blobs[m]))
    ensures Walked(c, blobs, roots, d)
  {
    var w :| IsWalk(c, blobs, roots, w) && w[|w| - 1] == m;
    var v := w + [d];
    forall j | 0 <= j < |v| - 1
      ensures v[j] in blobs && c.parse(blobs[v[j]]).Index? && v[j + 1] in References(c.parse(blobs[v[j]]))
    {
      if j < |w| - 1 { assert v[j] == w[j] && v[j + 1] == w[j + 1]; }
    }
    assert IsWalk(c, blobs, roots, v) && v[|v| - 1] == d;
  }

  /** The collection never strays from the closure. */
  lemma {:induction false} CollectIsSound(c: Codec, blobs: Blobs, roots: set<Digest>, d: Digest, out: set<Digest>)
    requires Walked(c, blobs, roots, d) && (forall x :: x in out ==> Reached(c, blobs, roots, x))
    requires Collect(c, blobs, d, out).Some?
    ensures forall x :: x in Collect(c, blobs, d, out).value ==> Reached(c, blobs, roots, x)
    decreases |blobs.Keys - out|, 0
  {
    if d !in out && d in blobs {
      Fewer(blobs.Keys - (out + {d}), blobs.Keys - out, d);
      match c.parse(blobs[d])
      case Leaf =>
      case Image(config, layers) =>
        forall x | x in {config} + AsSet(layers) ensures Reached(c, blobs, roots, x) {
          assert IsPartOf(c, blobs, d, x);
        }
      case Index(children) =>
        forall x | x in children ensures Walked(c, blobs, roots, x) { WalkOn(c, blobs, roots, d, x); }
        CollectAllIsSound(c, blobs, roots, children, out + {d});
    }
  }

  lemma {:induction false} CollectAllIsSound(c: Codec, blobs: Blobs, roots: set<Digest>, ds: seq<Digest>, out: set<Digest>)
    requires (forall x :: x in ds ==> Walked(c, blobs, roots, x)) && (forall x :: x in out ==> Reached(c, blobs, roots, x))
    requires CollectAll(c, blobs, ds, out).Some?
    ensures forall x :: x in CollectAll(c, blobs, ds, out).value ==> Reached(c, blobs, roots, x)
    decreases |blobs.Keys - out|, 1 + |ds|
  {
    if ds != [] {
      CollectIsSound(c, blobs, roots, ds[0], out);
      var more := Collect(c, blobs, ds[0], out).value;
      NoMore(blobs.Keys - more, blobs.Keys - out);
      CollectAllIsSound(c, blobs, roots, ds[1..], more);
    }
  }

  /** Everything `x` refers to is in `out`. */
  predicate ClosedAt(c: Codec, blobs: Blobs, x: Digest, out: set<Digest>) {
    x in blobs ==> AsSet(References(c.parse(blobs[x]))) <= out
  }

  /** The digests that `Collect` walks itself, rather than marks as a config or a layer. */
  ghost function Expanded(c: Codec, blobs: Blobs, digest: Digest, out: set<Digest>): set<Digest>
    requires Collect(c, blobs, digest, out).Some?
    decreases |blobs.Keys - out|, 0
  {
    if digest in out then {}
    else if digest in blobs && c.parse(blobs[digest]).Index? then
      Fewer(blobs.Keys - (out + {digest}), blobs.Keys - out, digest);
      {digest} + ExpandedAll(c, blobs, c.parse(blobs[digest]).children, out + {digest})
    else {digest}
  }

  ghost function ExpandedAll(c: Codec, blobs: Blobs, digests: seq<Digest>, out: set<Digest>): set<Digest>
    requires CollectAll(c, blobs, digests, out).Some?
    decreases |blobs.Keys - out|, 1 + |digests|
  {
    if digests == [] then {}
    else
      var more := Collect(c, blobs, digests[0], out).value;
      NoMore(blobs.Keys - more, blobs.Keys - out);
      Expanded(c, blobs, digests[0], out) + ExpandedAll(c, blobs, digests[1..], more)
  }

  /** All of `walked` was walked and is closed in `all`, and whatever else is new is part of a walked image. */
  ghost predicate Explains(c: Codec, blobs: Blobs, roots: set<Digest>, out: set<Digest>, walked: set<Digest>, all: set<Digest>) {
    && (forall x :: x in walked ==> x in all && Walked(c, blobs, roots, x) && ClosedAt(c, blobs, x, all))
    && (forall x :: x in all && x !in out && x !in walked ==> exists m :: m in walked && IsPartOf(c, blobs, m, x))
  }

  lemma {:induction false} CollectExplained(c: Codec, blobs: Blobs, roots: set<Digest>, d: Digest, out: set<Digest>)
    requires Walked(c, blobs, roots, d) && Collect(c, blobs, d, out).Some?
    ensures Explains(c, blobs, roots, out, Expanded(c, blobs, d, out), Collect(c, blobs, d, out).value)
    decreases |blobs.Keys - out|, 0
  {
    if d !in out && d in blobs {
      Fewer(blobs.Keys - (out + {d}), blobs.Keys - out, d);
      match c.parse(blobs[d])
      case Leaf =>
      case Image(config, layers) =>
        forall x | x in {config} + AsSet(layers) ensures IsPartOf(c, blobs, d, x) {
        }
      case Index(children) =>
        forall x | x in children ensures Walked(c, blobs, roots, x) { WalkOn(c, blobs, roots, d, x); }
        CollectAllExplained(c, blobs, roots, children, out + {d});
    }
  }

  lemma {:induction false} CollectAllExplained(c: Codec, blobs: Blobs, roots: set<Digest>, ds: seq<Digest>, out: set<Digest>)
    requires (forall x :: x in ds ==> Walked(c, blobs, roots, x)) && CollectAll(c, blobs, ds, out).Some?
    ensures Explains(c, blobs, roots, out, ExpandedAll(c, blobs, ds, out), CollectAll(c, blobs, ds, out).value)
    decreases |blobs.Keys - out|, 1 + |ds|
  {
    if ds != [] {
      CollectExplained(c, blobs, roots, ds[0], out);
      var more := Collect(c, blobs, ds[0], out).value;
      NoMore(blobs.Keys - more, blobs.Keys - out);
      CollectAllExplained(c, blobs, roots, ds[1..], more);
    }
  }

  /**
  A walked manifest that the walk met first as a config or layer, and therefore
  skipped, refers to nothing that was not collected otherwise.
  */
  ghost predicate NothingShadowed(c: Codec, blobs: Blobs, roots: seq<Digest>)
    requires CollectAll(c, blobs, roots, {}).Some?
  {
    var all := CollectAll(c, blobs, roots, {}).value;
    forall x :: x in all - ExpandedAll(c, blobs, roots, {}) && Walked(c, blobs, AsSet(roots), x) ==>
      ClosedAt(c, blobs, x, all)
  }

  /** No manifest that is walked is at the same time the config or a layer of a walked image. */
  ghost predicate NoManifestIsPart(c: Codec, blobs: Blobs, roots: set<Digest>) {
    forall m, d :: IsPartOf(c, blobs, m, d) && Walked(c, blobs, roots, m) && Walked(c, blobs, roots, d) && d in blobs ==>
      c.parse(blobs[d]).Leaf?
  }

  lemma RootsExplained(c: Codec, blobs: Blobs, roots: seq<Digest>)
    requires CollectAll(c, blobs, roots, {}).Some?
    ensures Explains(c, blobs, AsSet(roots), {}, ExpandedAll(c, blobs, roots, {}), CollectAll(c, blobs, roots, {}).value)
    ensures forall x :: x in CollectAll(c, blobs, roots, {}).value ==> Reached(c, blobs, AsSet(roots), x)
  {
    forall x | x in roots ensures Walked(c, blobs, AsSet(roots), x) { WalkRoot(c, blobs, AsSet(roots), x); }
    CollectAllExplained(c, blobs, AsSet(roots), roots, {});
    CollectAllIsSound(c, blobs, AsSet(roots), roots, {});
  }

  /** A store in which no layer is a walked manifest shadows nothing. */
  lemma SeparateShadowsNothing(c: Codec, blobs: Blobs, roots: seq<Digest>)
    requires CollectAll(c, blobs, roots, {}).Some? && NoManifestIsPart(c, blobs, AsSet(roots))
    ensures NothingShadowed(c, blobs, roots)
  {
    RootsExplained(c, blobs, roots);
  }

  lemma {:induction false} ClosedHoldsWalk(c: Codec, blobs: Blobs, roots: set<Digest>, out: set<Digest>, w: seq<Digest>)
    requires roots <= out && IsWalk(c, blobs, roots, w)
    requires forall x :: x in out && Walked(c, blobs, roots, x) ==> ClosedAt(c, blobs, x, out)
    ensures w[|w| - 1] in out
  {
    if |w| > 1 {
      var v := w[..|w| - 1];
      forall j | 0 <= j < |v| - 1
        ensures v[j] in blobs && c.parse(blobs[v[j]]).Index? && v[j + 1] in References(c.parse(blobs[v[j]]))
      {
        assert v[j] == w[j] && v[j + 1] == w[j + 1];
      }
      ClosedHoldsWalk(c, blobs, roots, out, v);
      var m := w[|w| - 2];
      assert v[|v| - 1] == m && w[|w| - 2 + 1] in References(c.parse(blobs[m]));
      assert Walked(c, blobs, roots, m) && ClosedAt(c, blobs, m, out);
    }
  }

  lemma ClosedHoldsReached(c: Codec, blobs: Blobs, roots: set<Digest>, out: set<Digest>, d: Digest)
    requires roots <= out && Reached(c, blobs, roots, d)
    requires forall x :: x in out && Walked(c, blobs, roots, x) ==> ClosedAt(c, blobs, x, out)
    ensures d in out
  {
    forall m | Walked(c, blobs, roots, m) ensures m in out {
      var w :| IsWalk(c, blobs, roots, w) && w[|w| - 1] == m;
      ClosedHoldsWalk(c, blobs, roots, out, w);
    }
    if !Walked(c, blobs, roots, d) {
      var m :| Walked(c, blobs, roots, m) && IsPartOf(c, blobs, m, d);
      assert ClosedAt(c, blobs, m, out);
    }
  }

  lemma ReachedClosed(c: Codec, blobs: Blobs, roots: set<Digest>, all: set<Digest>, x: Digest)
    requires (forall d :: d in all <==> Reached(c, blobs, roots, d)) && Walked(c, blobs, roots, x)
    ensures ClosedAt(c, blobs, x, all)
  {
    if x in blobs {
      forall d | d in References(c.parse(blobs[x])) ensures d in all {
        if c.parse(blobs[x]).Index? { WalkOn(c, blobs, roots, x, d); } else { assert IsPartOf(c, blobs, x, d); }
        assert Reached(c, blobs, roots, d);
      }
    }
  }

  /** The collection is exactly the closure if and only if nothing was shadowed. */
  lemma CollectionIsClosureIff(c: Codec, blobs: Blobs, roots: seq<Digest>)
    requires CollectAll(c, blobs, roots, {}).Some?
    ensures (forall d :: d in CollectAll(c, blobs, roots, {}).value <==> Reached(c, blobs, AsSet(roots), d)) <==>
            NothingShadowed(c, blobs, roots)
  {
    var all := CollectAll(c, blobs, roots, {}).value;
    RootsExplained(c, blobs, roots);
    if NothingShadowed(c, blobs, roots) {
      forall d | Reached(c, blobs, AsSet(roots), d) ensures d in all {
        ClosedHoldsReached(c, blobs, AsSet(roots), all, d);
      }
    }
    if forall d :: d in all <==> Reached(c, blobs, AsSet(roots), d) {
      forall x | Walked(c, blobs, AsSet(roots), x) ensures ClosedAt(c, blobs, x, all) {
        ReachedClosed(c, blobs, AsSet(roots), all, x);
      }
    }
  }

  /** So it is whenever no walked manifest is a part as well. */
  lemma CollectionIsClosure(c: Codec, blobs: Blobs, roots: seq<Digest>, d: Digest)
    requires NoManifestIsPart(c, blobs, AsSet(roots)) && CollectAll(c, blobs, roots, {}).Some?
    ensures d in CollectAll(c, blobs, roots, {}).value <==> Reached(c, blobs, AsSet(roots), d)
  {
    SeparateShadowsNothing(c, blobs, roots);
    CollectionIsClosureIff(c, blobs, roots);
  }

  /**
  The collection can fall short: an image `two` that an
  earlier image `one` lists as a layer counts as seen and is not walked.
  */
  lemma ManifestAsLayerIsNotWalked(c: Codec, blobs: Blobs, one: Digest, two: Digest, k: Digest, cfg: Digest)
    requires one in blobs && c.sha(blobs[one]) == one && c.parse(blobs[one]) == Image(k, [two])
    requires two in blobs && c.parse(blobs[two]) == Image(cfg, []) && cfg !in {one, two, k}
    ensures CollectAll(c, blobs, [one, two], {}) == Some({one, k, two})
    ensures Reached(c, blobs, {one, two}, cfg) && cfg !in {one, k, two}
  {
    var all := {one, k, two};
    assert AsSet([two]) == {two} && {} + {one} + {k} + {two} == all;
    assert Collect(c, blobs, one, {}) == Some({} + {one} + {k} + AsSet([two])) == Some(all);
    assert Collect(c, blobs, two, all) == Some(all) && CollectAll(c, blobs, [], all) == Some(all);
    assert [two][1..] == [] && CollectAll(c, blobs, [two], all) == Some(all);
    assert [one, two][1..] == [two];
    WalkRoot(c, blobs, {one, two}, two);
    assert IsPartOf(c, blobs, two, cfg);
  }

  // ----------------------------------------------------------------- the layout

  datatype ArchiveError =
    | RefNotFound(name: string)
    | RefCollision(name: string)
    | NotAnOciArchive
    | CorruptManifest
    | BlobMissing(digest: Digest)
    | DigestMismatch(digest: Digest)
    | EntryTooLarge

  /** Every stored blob hashes to its digest. */
  ghost predicate ContentAddressed(c: Codec, blobs: Blobs) {
    forall d :: d in blobs ==> c.sha(blobs[d]) == d
  }

  predicate Tagged(e: IndexEntry, name: string) {
    RefName(e) == Some(name)
  }

  function Untagged(index: seq<IndexEntry>, name: string): seq<IndexEntry> {
    if index == [] then []
    else (if Tagged(index[0], name) then [] else [index[0]]) + Untagged(index[1..], name)
  }

  function WithName(e: IndexEntry, name: string): IndexEntry {
    var annotations := if e.annotations.Some? then e.annotations.value else map[];
    e.(annotations := Some(annotations[REF_NAME := name]))
  }

  class ImageLayout {
    var index: seq<IndexEntry>
    var blobs: Blobs

    /** Replace whatever is tagged `name` by `entry`, tagged so. */
    method UpsertRef(name: string, entry: IndexEntry)
      modifies this`index
      ensures index == Untagged(old(index), name) + [WithName(entry, name)]
    {
      var kept := [];
      for i := 0 to |index|
        invariant index == old(index) && kept + Untagged(index[i..], name) == Untagged(index, name)
      {
        assert index[i..][1..] == index[i + 1..];
        if !Tagged(index[i], name) { kept := kept + [index[i]]; }
      }
      assert index[|index|..] == [];
      index := kept + [WithName(entry, name)];
    }

    /** Store a blob under the digest it must have; a digest already stored is left alone. */
    method WriteBlobWithDigest(c: Codec, data: Bytes, digest: Digest) returns (ok: bool)
      modifies this`blobs
      ensures ok == (c.sha(data) == digest)
      ensures blobs == if ok && digest !in old(blobs) then old(blobs)[digest := data] else old(blobs)
    {
      if c.sha(data) != digest { return false; }
      if digest !in blobs { blobs := blobs[digest := data]; }
      ok := true;
    }
  }

  lemma {:induction false} LookupUntagged(index: seq<IndexEntry>, name: string, other: string)
    ensures Lookup(Untagged(index, name), other) == if other == name then None else Lookup(index, other)
  {
    if index != [] {
      LookupUntagged(index[1..], name, other);
      var kept := if Tagged(index[0], name) then [] else [index[0]];
      LookupConcat(kept, Untagged(index[1..], name), other);
    }
  }

  lemma {:induction false} LookupConcat(a: seq<IndexEntry>, b: seq<IndexEntry>, name: string)
    ensures Lookup(a + b, name) == if Lookup(a, name).Some? then Lookup(a, name) else Lookup(b, name)
  {
    if a == [] {
      assert a + b == b;
    } else {
      assert (a + b)[1..] == a[1..] + b;
      LookupConcat(a[1..], b, name);
    }
  }

  /** Upserting decides one name and leaves the lookup of every other alone. */
  lemma LookupAfterUpsert(index: seq<IndexEntry>, name: string, entry: IndexEntry, other: string)
    ensures Lookup(Untagged(index, name) + [WithName(entry, name)], other) ==
              if other == name then Some(WithName(entry, name)) else Lookup(index, other)
  {
    LookupUntagged(index, name, other);
    LookupConcat(Untagged(index, name), [WithName(entry, name)], other);
    assert [WithName(entry, name)][1..] == [];
  }

  // ----------------------------------------------------------------------- save

  datatype TarEntry = Marker | IndexJson(manifests: seq<IndexEntry>) | Blob(digest: Digest, data: Bytes) | Other(data: Bytes)

  /** The selected entries, one per ref, in the order asked for. */
  ghost predicate Selected(index: seq<IndexEntry>, refs: seq<string>, picked: seq<IndexEntry>) {
    |picked| == |refs| && forall i :: 0 <= i < |refs| ==> Lookup(index, refs[i]) == Some(picked[i])
  }

  function Digests(entries: seq<IndexEntry>): (ds: seq<Digest>)
    ensures |ds| == |entries|
  {
    seq(|entries|, i requires 0 <= i < |entries| => entries[i].digest)
  }

  /** The archive holds the bytes of exactly the blobs in `ds`. */
  ghost predicate Packs(tar: seq<TarEntry>, blobs: Blobs, ds: set<Digest>) {
    && ds <= blobs.Keys
    && (forall d :: d in ds ==> Blob(d, blobs[d]) in tar)
    && (forall d, data :: Blob(d, data) in tar ==> d in ds && data == blobs[d])
  }

  /** The entries picked for `refs`; the first ref that is not there is the error. */
  method PickRefs(index: seq<IndexEntry>, refs: seq<string>) returns (r: Result<seq<IndexEntry>, ArchiveError>)
    ensures r.Ok? ==> Selected(index, refs, r.value)
    ensures r.Err? ==> exists i :: 0 <= i < |refs| && Lookup(index, refs[i]).None? && r.error == RefNotFound(refs[i])
  {
    var picked := [];
    for i := 0 to |refs|
      invariant Selected(index, refs[..i], picked)
    {
      var entry := Lookup(index, refs[i]);
      if entry.None? { return Err(RefNotFound(refs[i])); }
      picked := picked + [entry.value];
    }
    assert refs[..|refs|] == refs;
    r := Ok(picked);
  }

  ghost predicate Resolves(index: seq<IndexEntry>, refs: seq<string>) {
    forall i :: 0 <= i < |refs| ==> Lookup(index, refs[i]).Some?
  }

  /** The manifests that `refs` resolve to, in order. */
  ghost function RootsOf(index: seq<IndexEntry>, refs: seq<string>): seq<Digest>
    requires Resolves(index, refs)
  {
    seq(|refs|, i requires 0 <= i < |refs| => Lookup(index, refs[i]).value.digest)
  }

  /** Every ref is there, no manifest on the way is corrupt, and every blob collected is stored. */
  ghost predicate Savable(c: Codec, index: seq<IndexEntry>, blobs: Blobs, refs: seq<string>) {
    && Resolves(index, refs)
    && CollectAll(c, blobs, RootsOf(index, refs), {}).Some?
    && CollectAll(c, blobs, RootsOf(index, refs), {}).value <= blobs.Keys
  }

  lemma PickedAreRoots(index: seq<IndexEntry>, refs: seq<string>, picked: seq<IndexEntry>)
    requires Selected(index, refs, picked)
    ensures Resolves(index, refs) && Digests(picked) == RootsOf(index, refs)
  {
  }

  lemma {:induction false} SoundStoreCollects(c: Codec, blobs: Blobs, d: Digest, out: set<Digest>)
    requires ContentAddressed(c, blobs)
    ensures Collect(c, blobs, d, out).Some?
    decreases |blobs.Keys - out|, 0
  {
    if d !in out && d in blobs && c.parse(blobs[d]).Index? {
      Fewer(blobs.Keys - (out + {d}), blobs.Keys - out, d);
      SoundStoreCollectsAll(c, blobs, c.parse(blobs[d]).children, out + {d});
    }
  }

  /** In a content-addressed store the walk meets no corrupt manifest. */
  lemma {:induction false} SoundStoreCollectsAll(c: Codec, blobs: Blobs, ds: seq<Digest>, out: set<Digest>)
    requires ContentAddressed(c, blobs)
    ensures CollectAll(c, blobs, ds, out).Some?
    decreases |blobs.Keys - out|, 1 + |ds|
  {
    if ds != [] {
      SoundStoreCollects(c, blobs, ds[0], out);
      var more := Collect(c, blobs, ds[0], out).value;
      NoMore(blobs.Keys - more, blobs.Keys - out);
      SoundStoreCollectsAll(c, blobs, ds[1..], more);
    }
  }

  /** Refs whose whole closure is stored can be saved; and, where nothing is shadowed, only those. */
  lemma StoredClosureIsSavable(c: Codec, index: seq<IndexEntry>, blobs: Blobs, refs: seq<string>)
    requires ContentAddressed(c, blobs) && Resolves(index, refs)
    ensures CollectAll(c, blobs, RootsOf(index, refs), {}).Some?
    ensures ClosureStored(c, blobs, AsSet(RootsOf(index, refs))) ==> Savable(c, index, blobs, refs)
    ensures NothingShadowed(c, blobs, RootsOf(index, refs)) ==>
      (Savable(c, index, blobs, refs) <==> ClosureStored(c, blobs, AsSet(RootsOf(index, refs))))
  {
    SoundStoreCollectsAll(c, blobs, RootsOf(index, refs), {});
    RootsExplained(c, blobs, RootsOf(index, refs));
    CollectionIsClosureIff(c, blobs, RootsOf(index, refs));
  }

  ghost predicate ClosureStored(c: Codec, blobs: Blobs, roots: set<Digest>) {
    forall d :: Reached(c, blobs, roots, d) ==> d in blobs
  }

  /** What a successful save produced. */
  ghost predicate Saved(c: Codec, index: seq<IndexEntry>, blobs: Blobs, refs: seq<string>,
                        picked: seq<IndexEntry>, tar: seq<TarEntry>) {
    && Selected(index, refs, picked)
    && |tar| >= 2 && tar[0] == Marker && tar[1] == IndexJson(picked)
    && (forall i :: 2 <= i < |tar| ==> tar[i].Blob?)
    && CollectAll(c, blobs, Digests(picked), {}).Some?
    && Packs(tar, blobs, CollectAll(c, blobs, Digests(picked), {}).value)
  }

  /** Why a save failed: a ref that is not there, a manifest that is corrupt, a collected blob that is not stored. */
  ghost predicate SaveRefused(c: Codec, index: seq<IndexEntry>, blobs: Blobs, refs: seq<string>, e: ArchiveError) {
    match e
    case RefNotFound(name) => name in refs && Lookup(index, name).None?
    case CorruptManifest => Resolves(index, refs) && CollectAll(c, blobs, RootsOf(index, refs), {}).None?
    case BlobMissing(d) =>
      && Resolves(index, refs) && CollectAll(c, blobs, RootsOf(index, refs), {}).Some?
      && d in CollectAll(c, blobs, RootsOf(index, refs), {}).value && d !in blobs
    case _ => false
  }

  /** Pack the selected refs and every blob collected from them. */
  method SaveToWriter(c: Codec, layout: ImageLayout, refs: seq<string>)
    returns (r: Result<seq<TarEntry>, ArchiveError>, ghost picked: seq<IndexEntry>)
    ensures r.Ok? <==> Savable(c, layout.index, layout.blobs, refs)
    ensures r.Ok? ==> Saved(c, layout.index, layout.blobs, refs, picked, r.value)
    ensures r.Err? ==> SaveRefused(c, layout.index, layout.blobs, refs, r.error)
  {
    var chosen := PickRefs(layout.index, refs);
    picked := [];
    if chosen.Err? { return Err(chosen.error), picked; }
    picked := chosen.value;
    PickedAreRoots(layout.index, refs, picked);
    var walk := Digests(chosen.value);
    var reachable: set<Digest> := {};
    for i := 0 to |walk|
      invariant CollectAll(c, layout.blobs, walk, {}) == CollectAll(c, layout.blobs, walk[i..], reachable)
    {
      assert walk[i..][1..] == walk[i + 1..];
      var more := Collect(c, layout.blobs, walk[i], reachable);
      if more.None? { return Err(CorruptManifest), picked; }
      reachable := more.value;
    }
    assert walk[|walk|..] == [];
    r := PackBlobs(layout, [Marker, IndexJson(chosen.value)], reachable);
  }

  /** Append the blobs `ds`, each once; the archive lists them in digest order, which nothing here needs. */
  method PackBlobs(layout: ImageLayout, head: seq<TarEntry>, ds: set<Digest>) returns (r: Result<seq<TarEntry>, ArchiveError>)
    requires forall d, data :: Blob(d, data) !in head
    ensures r.Ok? ==> |head| <= |r.value| && r.value[..|head|] == head && Packs(r.value, layout.blobs, ds)
    ensures r.Ok? ==> forall i :: |head| <= i < |r.value| ==> r.value[i].Blob?
    ensures r.Ok? <==> ds <= layout.blobs.Keys
    ensures r.Err? ==> r.error.BlobMissing? && r.error.digest in ds && r.error.digest !in layout.blobs
  {
    var tar, todo := head, ds;
    while todo != {}
      invariant todo <= ds && |head| <= |tar| && tar[..|head|] == head
      invariant forall i :: |head| <= i < |tar| ==> tar[i].Blob?
      invariant Packs(tar, layout.blobs, ds - todo)
      decreases |todo|
    {
      var d :| d in todo;
      if d !in layout.blobs { return Err(BlobMissing(d)); }
      todo := todo - {d};
      tar := tar + [Blob(d, layout.blobs[d])];
    }
    assert ds - todo == ds;
    r := Ok(tar);
  }

  // ----------------------------------------------------------------------- load

  /** The index of the archive; of several the last counts. */
  function ArchiveIndex(tar: seq<TarEntry>): Option<seq<IndexEntry>> {
    if tar == [] then None
    else if tar[|tar| - 1].IndexJson? then Some(tar[|tar| - 1].manifests)
    else ArchiveIndex(tar[..|tar| - 1])
  }

  lemma {:induction false} ArchiveIndexIsLast(tar: seq<TarEntry>, i: nat)
    requires i < |tar| && tar[i].IndexJson? && forall j :: i < j < |tar| ==> !tar[j].IndexJson?
    ensures ArchiveIndex(tar) == Some(tar[i].manifests)
  {
    if i < |tar| - 1 { ArchiveIndexIsLast(tar[..|tar| - 1], i); }
  }

  /** The last of the entries tagged `name`. */
  function LastTagged(entries: seq<IndexEntry>, name: string): Option<IndexEntry> {
    if entries == [] then None
    else if Tagged(entries[|entries| - 1], name) then Some(entries[|entries| - 1])
    else LastTagged(entries[..|entries| - 1], name)
  }

  predicate TooLarge(e: TarEntry) {
    (e.Blob? || e.Other?) && |e.data| > MAX_ENTRY_BYTES
  }

  /** Why a load is refused. */
  ghost predicate Refused(c: Codec, index: seq<IndexEntry>, tar: seq<TarEntry>, overwrite: bool, e: ArchiveError) {
    match e
    case EntryTooLarge => exists i :: 0 <= i < |tar| && TooLarge(tar[i])
    case NotAnOciArchive => Marker !in tar || ArchiveIndex(tar).None?
    case RefCollision(name) =>
      && !overwrite
      && ArchiveIndex(tar).Some?
      && LastTagged(ArchiveIndex(tar).value, name).Some?
      && Lookup(index, name).Some?
    case DigestMismatch(d) => exists data :: Blob(d, data) in tar && c.sha(data) != d
    case _ => false
  }

  /** Read the archive: whether the marker was there, the index, and the blobs in order. */
  method ReadArchive(tar: seq<TarEntry>)
    returns (ok: bool, marker: bool, index: Option<seq<IndexEntry>>, blobs: seq<(Digest, Bytes)>)
    ensures ok <==> forall i :: 0 <= i < |tar| && (tar[i].Blob? || tar[i].Other?) ==> |tar[i].data| <= 8589934592
    ensures ok <==> forall i :: 0 <= i < |tar| ==> !TooLarge(tar[i])
    ensures ok ==> (marker <==> Marker in tar) && index == ArchiveIndex(tar)
    ensures ok ==> forall d, data :: (d, data) in blobs <==> Blob(d, data) in tar
  {
    ok, marker, index, blobs := true, false, None, [];
    for i := 0 to |tar|
      invariant ok && forall j :: 0 <= j < i ==> !TooLarge(tar[j])
      invariant marker <==> Marker in tar[..i]
      invariant index == ArchiveIndex(tar[..i])
      invariant forall d, data :: (d, data) in blobs <==> Blob(d, data) in tar[..i]
    {
      assert tar[..i + 1] == tar[..i] + [tar[i]] && tar[..i + 1][..i] == tar[..i];
      if TooLarge(tar[i]) {
        ok := false;
        return;
      }
      match tar[i] {
        case Marker => marker := true;
        case IndexJson(manifests) => index := Some(manifests);
        case Blob(d, data) => blobs := blobs + [(d, data)];
        case Other(_) =>
      }
    }
    assert tar[..|tar|] == tar;
  }

  /** The first name of the archive that the layout already has. */
  method FindCollision(index: seq<IndexEntry>, incoming: seq<IndexEntry>) returns (name: Option<string>)
    ensures name.None? ==> forall n :: LastTagged(incoming, n).Some? ==> Lookup(index, n).None?
    ensures name.Some? ==> LastTagged(incoming, name.value).Some? && Lookup(index, name.value).Some?
  {
    for i := 0 to |incoming|
      invariant forall n :: LastTagged(incoming[..i], n).Some? ==> Lookup(index, n).None?
    {
      assert incoming[..i + 1][..i] == incoming[..i];
      var n := RefName(incoming[i]);
      if n.Some? && Lookup(index, n.value).Some? {
        TaggedSomewhere(incoming, i, n.value);
        return n;
      }
    }
    assert incoming[..|incoming|] == incoming;
    name := None;
  }

  /** Of several entries with a name the last one counts. */
  lemma {:induction false} LastTaggedIsLast(entries: seq<IndexEntry>, name: string, i: nat)
    requires i < |entries| && Tagged(entries[i], name)
    requires forall j :: i < j < |entries| ==> !Tagged(entries[j], name)
    ensures LastTagged(entries, name) == Some(entries[i])
  {
    if i < |entries| - 1 { LastTaggedIsLast(entries[..|entries| - 1], name, i); }
  }

  /** The tagged names in order, as often as they occur. */
  function TaggedNames(entries: seq<IndexEntry>): seq<string> {
    if entries == [] then []
    else
      var last := RefName(entries[|entries| - 1]);
      TaggedNames(entries[..|entries| - 1]) + if last.Some? then [last.value] else []
  }

  lemma {:induction false} TaggedNamesInOrder(a: seq<IndexEntry>, b: seq<IndexEntry>)
    ensures TaggedNames(a + b) == TaggedNames(a) + TaggedNames(b)
  {
    if b == [] {
      assert a + b == a;
    } else {
      assert (a + b)[..|a + b| - 1] == a + b[..|b| - 1];
      TaggedNamesInOrder(a, b[..|b| - 1]);
    }
  }

  lemma {:induction false} TaggedSomewhere(entries: seq<IndexEntry>, i: nat, name: string)
    requires i < |entries| && Tagged(entries[i], name)
    ensures LastTagged(entries, name).Some?
  {
    if !Tagged(entries[|entries| - 1], name) { TaggedSomewhere(entries[..|entries| - 1], i, name); }
  }

  /** Every old blob is as it was, and each pair is stored under its digest. */
  ghost predicate Stored(c: Codec, was: Blobs, pairs: seq<(Digest, Bytes)>, now: Blobs) {
    && (forall d :: d in was ==> d in now && now[d] == was[d])
    && (forall d, data :: (d, data) in pairs ==> d in now && c.sha(data) == d)
    && (forall d :: d in now && d !in was ==> (d, now[d]) in pairs)
    && (ContentAddressed(c, was) ==> ContentAddressed(c, now))
  }

  /** Pair `i` has the wrong digest, and the pairs before it, which have the right one, are stored. */
  ghost predicate StoppedAtPair(c: Codec, was: Blobs, pairs: seq<(Digest, Bytes)>, i: nat, bad: Digest, now: Blobs) {
    && i < |pairs| && pairs[i].0 == bad && c.sha(pairs[i].1) != bad
    && Stored(c, was, pairs[..i], now)
  }

  method WriteBlobs(c: Codec, layout: ImageLayout, pairs: seq<(Digest, Bytes)>) returns (bad: Option<Digest>)
    modifies layout`blobs
    ensures bad.None? ==> Stored(c, old(layout.blobs), pairs, layout.blobs)
    ensures bad.Some? ==> exists i :: StoppedAtPair(c, old(layout.blobs), pairs, i, bad.value, layout.blobs)
  {
    for i := 0 to |pairs|
      invariant Stored(c, old(layout.blobs), pairs[..i], layout.blobs)
    {
      var (d, data) := pairs[i];
      assert pairs[..i + 1] == pairs[..i] + [pairs[i]];
      var ok := layout.WriteBlobWithDigest(c, data, d);
      if !ok {
        assert StoppedAtPair(c, old(layout.blobs), pairs, i, d, layout.blobs);
        return Some(d);
      }
    }
    assert pairs[..|pairs|] == pairs;
    bad := None;
  }

  /** Upsert the tagged entries in order; untagged ones are dropped. */
  method UpsertAll(layout: ImageLayout, entries: seq<IndexEntry>) returns (names: seq<string>)
    modifies layout`index
    ensures forall n :: Lookup(layout.index, n) ==
              if LastTagged(entries, n).Some? then LastTagged(entries, n) else Lookup(old(layout.index), n)
    ensures forall n :: n in names <==> LastTagged(entries, n).Some?
    ensures names == TaggedNames(entries)
  {
    names := [];
    ghost var was := layout.index;
    for i := 0 to |entries|
      invariant forall n :: Lookup(layout.index, n) ==
                  if LastTagged(entries[..i], n).Some? then LastTagged(entries[..i], n) else Lookup(was, n)
      invariant forall n :: n in names <==> LastTagged(entries[..i], n).Some?
      invariant names == TaggedNames(entries[..i])
    {
      assert entries[..i + 1][..i] == entries[..i];
      var name := RefName(entries[i]);
      if name.Some? {
        ghost var before := layout.index;
        layout.UpsertRef(name.value, entries[i]);
        assert WithName(entries[i], name.value) == entries[i] by {
          assert entries[i].annotations.value[REF_NAME := name.value] == entries[i].annotations.value;
        }
        forall n ensures Lookup(layout.index, n) == if n == name.value then Some(entries[i]) else Lookup(before, n) {
          LookupAfterUpsert(before, name.value, entries[i], n);
        }
        names := names + [name.value];
      }
    }
    assert entries[..|entries|] == entries;
  }

  /** Merge an archive into a layout: the outcome of every lookup and of every blob. */
  method LoadFromReader(c: Codec, layout: ImageLayout, tar: seq<TarEntry>, overwrite: bool)
    returns (r: Result<seq<string>, ArchiveError>)
    modifies layout
    ensures r.Err? ==> layout.index == old(layout.index) && Refused(c, old(layout.index), tar, overwrite, r.error)
    ensures r.Err? && !r.error.DigestMismatch? ==> layout.blobs == old(layout.blobs)
    ensures r.Ok? ==> forall e :: !Refused(c, old(layout.index), tar, overwrite, e)
    ensures r.Ok? ==> ArchiveIndex(tar).Some?
    ensures r.Ok? ==> r.value == TaggedNames(ArchiveIndex(tar).value)
    ensures r.Ok? ==> forall n :: n in r.value <==> LastTagged(ArchiveIndex(tar).value, n).Some?
    ensures r.Ok? ==> forall n ::
      var loaded := LastTagged(ArchiveIndex(tar).value, n);
      Lookup(layout.index, n) == if loaded.Some? then loaded else Lookup(old(layout.index), n)
    ensures r.Ok? ==> forall d, data :: Blob(d, data) in tar ==> d in layout.blobs
    ensures forall d :: d in layout.blobs && d !in old(layout.blobs) ==> Blob(d, layout.blobs[d]) in tar
    ensures forall d :: d in old(layout.blobs) ==> d in layout.blobs && layout.blobs[d] == old(layout.blobs)[d]
    ensures ContentAddressed(c, old(layout.blobs)) ==> ContentAddressed(c, layout.blobs)
  {
    var ok, marker, index, pairs := ReadArchive(tar);
    if !ok { return Err(EntryTooLarge); }
    if !marker || index.None? { return Err(NotAnOciArchive); }
    if !overwrite {
      var taken := FindCollision(layout.index, index.value);
      if taken.Some? { return Err(RefCollision(taken.value)); }
    }
    var bad := WriteBlobs(c, layout, pairs);
    if bad.Some? { return Err(DigestMismatch(bad.value)); }
    var names := UpsertAll(layout, index.value);
    r := Ok(names);
  }

  // ----------------------------------------------------------------- round trip

  lemma {:induction false} LastOfSelected(index: seq<IndexEntry>, refs: seq<string>, picked: seq<IndexEntry>, name: string)
    requires Selected(index, refs, picked)
    ensures LastTagged(picked, name) == if name in refs then Lookup(index, name) else None
    decreases |refs|
  {
    if refs != [] {
      var k := |refs| - 1;
      LookupIsTagged(index, refs[k]);
      LastOfSelected(index, refs[..k], picked[..k], name);
      assert refs == refs[..k] + [refs[k]];
    }
  }

  lemma {:induction false} LookupIsTagged(index: seq<IndexEntry>, name: string)
    ensures Lookup(index, name).Some? ==> Tagged(Lookup(index, name).value, name)
  {
    if index != [] { LookupIsTagged(index[1..], name); }
  }

  lemma {:induction false} SavedIndex(tar: seq<TarEntry>, picked: seq<IndexEntry>)
    requires |tar| >= 2 && tar[1] == IndexJson(picked) && forall i :: 2 <= i < |tar| ==> tar[i].Blob?
    ensures ArchiveIndex(tar) == Some(picked)
  {
    if |tar| > 2 { SavedIndex(tar[..|tar| - 1], picked); }
  }

  lemma ReachedFromMore(c: Codec, blobs: Blobs, root: Digest, roots: set<Digest>, d: Digest)
    requires Reached(c, blobs, {root}, d) && root in roots
    ensures Reached(c, blobs, roots, d)
  {
    forall m | Walked(c, blobs, {root}, m) ensures Walked(c, blobs, roots, m) {
      var w :| IsWalk(c, blobs, {root}, w) && w[|w| - 1] == m;
      assert IsWalk(c, blobs, roots, w);
    }
  }

  /** The blobs behind a saved ref are in the archive. */
  lemma SavedBlobs(c: Codec, index: seq<IndexEntry>, blobs: Blobs, refs: seq<string>, picked: seq<IndexEntry>,
                   tar: seq<TarEntry>, i: nat, d: Digest)
    requires Saved(c, index, blobs, refs, picked, tar) && i < |refs|
    requires NothingShadowed(c, blobs, Digests(picked))
    requires Reached(c, blobs, {picked[i].digest}, d)
    ensures d in blobs && Blob(d, blobs[d]) in tar
  {
    assert Digests(picked)[i] == picked[i].digest;
    ReachedFromMore(c, blobs, picked[i].digest, AsSet(Digests(picked)), d);
    CollectionIsClosureIff(c, blobs, Digests(picked));
  }

  /** Nothing stands in the way of loading a saved archive: no name is taken and no blob is over the cap. */
  ghost predicate Loadable(index: seq<IndexEntry>, blobs: Blobs, refs: seq<string>, packed: set<Digest>, overwrite: bool) {
    && (overwrite || forall n :: n in refs ==> Lookup(index, n).None?)
    && (forall d :: d in packed && d in blobs ==> |blobs[d]| <= MAX_ENTRY_BYTES)
  }

  /** A saved archive is refused for a taken name or an oversized blob, and for nothing else. */
  lemma SavedIsRefusedIff(c: Codec, source: seq<IndexEntry>, blobs: Blobs, refs: seq<string>, picked: seq<IndexEntry>,
                          tar: seq<TarEntry>, target: seq<IndexEntry>, overwrite: bool)
    requires Saved(c, source, blobs, refs, picked, tar) && ContentAddressed(c, blobs)
    ensures (exists e :: Refused(c, target, tar, overwrite, e)) <==>
            !Loadable(target, blobs, refs, CollectAll(c, blobs, Digests(picked), {}).value, overwrite)
    ensures forall e :: Refused(c, target, tar, overwrite, e) ==> e.EntryTooLarge? || e.RefCollision?
  {
    var packed := CollectAll(c, blobs, Digests(picked), {}).value;
    SavedIndex(tar, picked);
    assert Marker in tar by { assert tar[0] == Marker; }
    forall n ensures LastTagged(picked, n).Some? <==> n in refs { LastOfSelectedSome(source, refs, picked, n); }
    forall e | Refused(c, target, tar, overwrite, e)
      ensures (e.EntryTooLarge? || e.RefCollision?) && !Loadable(target, blobs, refs, packed, overwrite)
    {
      if e.EntryTooLarge? {
        var i :| 0 <= i < |tar| && TooLarge(tar[i]);
        assert Blob(tar[i].digest, tar[i].data) in tar;
      }
    }
    if !Loadable(target, blobs, refs, packed, overwrite) {
      if n :| !overwrite && n in refs && Lookup(target, n).Some? {
        assert Refused(c, target, tar, overwrite, RefCollision(n));
      } else {
        var d :| d in packed && d in blobs && |blobs[d]| > MAX_ENTRY_BYTES;
        var i :| 0 <= i < |tar| && tar[i] == Blob(d, blobs[d]);
        assert TooLarge(tar[i]);
        assert Refused(c, target, tar, overwrite, EntryTooLarge);
      }
    }
  }

  lemma LastOfSelectedSome(index: seq<IndexEntry>, refs: seq<string>, picked: seq<IndexEntry>, n: string)
    requires Selected(index, refs, picked)
    ensures LastTagged(picked, n).Some? <==> n in refs
  {
    LastOfSelected(index, refs, picked, n);
    if n in refs { var i :| 0 <= i < |refs| && refs[i] == n; }
  }

  /**
  The whole closure of ref `n` is in the store `now`, with its bytes; where the
  store `was` already held a digest, its own bytes for that digest are kept.
  */
  ghost predicate ClosureCopied(c: Codec, index: seq<IndexEntry>, blobs: Blobs, n: string, was: Blobs, now: Blobs) {
    Lookup(index, n).Some? &&
    forall d :: Reached(c, blobs, {Lookup(index, n).value.digest}, d) ==>
      d in blobs && d in now && now[d] == if d in was then was[d] else blobs[d]
  }

  /**
  Save from one layout, load into another.  The save succeeds exactly when the refs
  are there and what is collected from them is stored, so always when their whole
  closure is; the load then succeeds exactly when no name is taken and no blob is
  over the cap.  Every saved ref then resolves to the same entry, every other ref is
  untouched, and every blob of the closure is there.
  */
  method SaveThenLoad(c: Codec, source: ImageLayout, target: ImageLayout, refs: seq<string>, overwrite: bool)
    returns (saved: bool, failed: Option<ArchiveError>)
    requires source != target && ContentAddressed(c, source.blobs) && ContentAddressed(c, target.blobs)
    modifies target
    ensures saved <==> Savable(c, source.index, source.blobs, refs)
    ensures Resolves(source.index, refs) && ClosureStored(c, source.blobs, AsSet(RootsOf(source.index, refs))) ==> saved
    ensures saved ==>
      var packed := CollectAll(c, source.blobs, RootsOf(source.index, refs), {}).value;
      failed.None? <==> Loadable(old(target.index), source.blobs, refs, packed, overwrite)
    ensures saved && failed.None? ==> forall n ::
      Lookup(target.index, n) == if n in refs then Lookup(source.index, n) else Lookup(old(target.index), n)
    ensures saved && failed.None? && NothingShadowed(c, source.blobs, RootsOf(source.index, refs)) ==>
      forall n :: n in refs ==>
        ClosureCopied(c, source.index, source.blobs, n, old(target.blobs), target.blobs)
    ensures ContentAddressed(c, target.blobs)
    ensures saved && failed.Some? ==> failed.value.EntryTooLarge? || failed.value.RefCollision?
    ensures !saved || failed.Some? ==> target.index == old(target.index) && target.blobs == old(target.blobs)
  {
    if Resolves(source.index, refs) { StoredClosureIsSavable(c, source.index, source.blobs, refs); }
    var tar, picked := SaveToWriter(c, source, refs);
    if tar.Err? { return false, None; }
    PickedAreRoots(source.index, refs, picked);
    SavedIsRefusedIff(c, source.index, source.blobs, refs, picked, tar.value, target.index, overwrite);
    SavedIndex(tar.value, picked);
    var r := LoadFromReader(c, target, tar.value, overwrite);
    if r.Err? { return true, Some(r.error); }
    forall n ensures LastTagged(picked, n) == if n in refs then Lookup(source.index, n) else None {
      LastOfSelected(source.index, refs, picked, n);
    }
    if NothingShadowed(c, source.blobs, RootsOf(source.index, refs)) {
      forall n | n in refs
        ensures ClosureCopied(c, source.index, source.blobs, n, old(target.blobs), target.blobs)
      {
        var i :| 0 <= i < |refs| && refs[i] == n;
        forall d | Reached(c, source.blobs, {picked[i].digest}, d)
          ensures d in source.blobs && d in target.blobs
          ensures target.blobs[d] == if d in old(target.blobs) then old(target.blobs)[d] else source.blobs[d]
        {
          SavedBlobs(c, source.index, source.blobs, refs, picked, tar.value, i, d);
        }
      }
    }
    saved, failed := true, None;
  }
}
