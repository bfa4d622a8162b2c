/**
 * Backup retention: which artifacts and manifests a prune deletes, on a destination where
 * some deletes may be refused.
 */
module Prune {
  import opened Collections
  import opened Wrappers
  import opened TextOrder

  datatype Artifact = Artifact(store: string, key: Option<string>)

  /** When a run started; an unreadable time counts as now. */
  datatype Manifest = Manifest(runId: string, created: Option<int>, artifacts: seq<Artifact>)

  datatype Retention = Retention(keep: Option<nat>, age: Option<nat>)

  datatype Config = Config(retention: map<string, Retention>, protect: Option<string>, now: int)

  datatype Object = Blob | ManifestFile(manifest: Manifest) | Unreadable

  type Objects = map<string, Object>

  type Manifests = map<string, Manifest>

  const MANIFEST_PREFIX := "manifest/"

  /** The manifests a prune can read. */
  function Readable(objects: Objects): Manifests
  {
    map k | k in objects && MANIFEST_PREFIX <= k && objects[k].ManifestFile? :: objects[k].manifest
  }

  // ---------------------------------------------------------------------
  // What is doomed
  // ---------------------------------------------------------------------

  /** The key of the first artifact of a store; none when there is no entry or it has no key. */
  function KeyOf(artifacts: seq<Artifact>, store: string): Option<string>
  {
    if artifacts == [] then None
    else if artifacts[0].store == store then
      if artifacts[0].key == Some("") then None else artifacts[0].key
    else KeyOf(artifacts[1..], store)
  }

  function Holding(ms: Manifests, store: string): set<string>
  {
    set k | k in ms && KeyOf(ms[k].artifacts, store).Some?
  }

  predicate Newer(a: Manifest, b: Manifest)
  {
    a.runId != b.runId && AtMost(b.runId, a.runId)
  }

  /** How many runs with an artifact of the store are newer. */
  function Rank(ms: Manifests, store: string, k: string): nat
    requires k in ms
  {
    |set n | n in Holding(ms, store) && Newer(ms[n], ms[k])|
  }

  predicate Expired(cfg: Config, store: string, m: Manifest)
    requires store in cfg.retention
  {
    var r := cfg.retention[store];
    r.age.Some? && (if m.created.Some? then m.created.value else cfg.now) < cfg.now - r.age.value
  }

  predicate Protected(cfg: Config, m: Manifest)
  {
    cfg.protect == Some(m.runId)
  }

  /** The artifact of a store is to go: too many newer ones, or too old, and not protected. */
  predicate Doomed(cfg: Config, ms: Manifests, store: string, k: string)
  {
    && store in cfg.retention && k in Holding(ms, store)
    && !Protected(cfg, ms[k])
    && var r := cfg.retention[store];
       (r.keep.Some? && Rank(ms, store, k) >= r.keep.value) || Expired(cfg, store, ms[k])
  }

  /** The artifact keys of one manifest that are to go. */
  function DoomedKeys(cfg: Config, ms: Manifests, k: string): set<string>
  {
    set store | store in cfg.retention && Doomed(cfg, ms, store, k) :: KeyOf(ms[k].artifacts, store).value
  }

  function ArtifactKeys(m: Manifest): set<string>
  {
    set a | a in m.artifacts && a.key.Some? && a.key.value != "" :: a.key.value
  }

  // ---------------------------------------------------------------------
  // What a prune leaves
  // ---------------------------------------------------------------------

  /** Artifacts of the manifest that are still there after its doomed ones went. */
  function Surviving(cfg: Config, objects: Objects, locked: set<string>, k: string): set<string>
  {
    var ms := Readable(objects);
    if k in ms then
      set a | a in ArtifactKeys(ms[k]) && a in objects && !(a in DoomedKeys(cfg, ms, k) && a !in locked)
    else {}
  }

  /** A manifest goes when it lost something to this prune and nothing of it survives. */
  predicate ManifestGoes(cfg: Config, objects: Objects, locked: set<string>, k: string)
  {
    && k in Readable(objects) && k !in locked
    && DoomedKeys(cfg, Readable(objects), k) != {}
    && Surviving(cfg, objects, locked, k) == {}
  }

  /** Everything one manifest's turn deletes. */
  function Removed(cfg: Config, objects: Objects, locked: set<string>, k: string): set<string>
  {
    DoomedKeys(cfg, Readable(objects), k) - locked + if ManifestGoes(cfg, objects, locked, k) then {k} else {}
  }

  function AllRemoved(cfg: Config, objects: Objects, locked: set<string>): set<string>
  {
    set k, x | k in Readable(objects) && x in Removed(cfg, objects, locked, k) :: x
  }

  function Pruned(cfg: Config, objects: Objects, locked: set<string>): Objects
  {
    objects - AllRemoved(cfg, objects, locked)
  }

  /** Runs have their own artifacts, and run ids tell runs apart. */
  ghost predicate OwnArtifacts(ms: Manifests)
  {
    && (forall k, l | k in ms && l in ms && k != l :: ArtifactKeys(ms[k]) !! ArtifactKeys(ms[l]))
    && (forall k, l | k in ms && l in ms :: l !in ArtifactKeys(ms[k]))
    && (forall k, l | k in ms && l in ms && k != l :: ms[k].runId != ms[l].runId)
    && (forall k, a, b | k in ms && a in ms[k].artifacts && b in ms[k].artifacts
      && a.key == b.key && a.key.Some? :: a == b)
  }

  lemma {:induction false} KeyOfIsArtifact(artifacts: seq<Artifact>, store: string)
    ensures KeyOf(artifacts, store).Some? ==>
      KeyOf(artifacts, store).value != "" && Artifact(store, KeyOf(artifacts, store)) in artifacts
  {
    if artifacts != [] && artifacts[0].store != store {
      KeyOfIsArtifact(artifacts[1..], store);
    }
  }

  lemma DoomedAreArtifacts(cfg: Config, ms: Manifests, k: string)
    requires k in ms
    ensures DoomedKeys(cfg, ms, k) <= ArtifactKeys(ms[k])
  {
    forall x | x in DoomedKeys(cfg, ms, k) ensures x in ArtifactKeys(ms[k]) {
      var store :| store in cfg.retention && Doomed(cfg, ms, store, k) && KeyOf(ms[k].artifacts, store).value == x;
      KeyOfIsArtifact(ms[k].artifacts, store);
    }
  }

  /** An artifact key is removed only for its own run; a manifest key only as a manifest. */
  lemma WhoRemoves(cfg: Config, objects: Objects, locked: set<string>, k: string)
    requires OwnArtifacts(Readable(objects)) && k in Readable(objects)
    ensures forall x | x in ArtifactKeys(Readable(objects)[k]) ::
      x in AllRemoved(cfg, objects, locked) <==> x in DoomedKeys(cfg, Readable(objects), k) && x !in locked
    ensures k in AllRemoved(cfg, objects, locked) <==> ManifestGoes(cfg, objects, locked, k)
  {
    var ms := Readable(objects);
    forall l | l in ms ensures DoomedKeys(cfg, ms, l) <= ArtifactKeys(ms[l]) {
      DoomedAreArtifacts(cfg, ms, l);
    }
    forall x | x in ArtifactKeys(ms[k])
      ensures x in AllRemoved(cfg, objects, locked) <==> x in DoomedKeys(cfg, ms, k) && x !in locked
    {
      if x in AllRemoved(cfg, objects, locked) {
        var l :| l in ms && x in Removed(cfg, objects, locked, l);
        assert x in DoomedKeys(cfg, ms, l);
        assert l == k;
      } else {
        assert x !in Removed(cfg, objects, locked, k);
      }
    }
    if k in AllRemoved(cfg, objects, locked) {
      var l :| l in ms && k in Removed(cfg, objects, locked, l);
      assert k !in DoomedKeys(cfg, ms, l);
    } else {
      assert k !in Removed(cfg, objects, locked, k);
    }
  }

  lemma DoomedKeyListed(cfg: Config, ms: Manifests, store: string, k: string)
    requires k in ms && Doomed(cfg, ms, store, k)
    ensures KeyOf(ms[k].artifacts, store).value in DoomedKeys(cfg, ms, k)
  {
  }

  // ---------------------------------------------------------------------
  // What a prune guarantees
  // ---------------------------------------------------------------------

  /** The protected run keeps its manifest and every artifact. */
  lemma ProtectedUntouched(cfg: Config, objects: Objects, locked: set<string>, k: string)
    requires OwnArtifacts(Readable(objects)) && k in Readable(objects)
    requires cfg.protect == Some(Readable(objects)[k].runId)
    ensures k in Pruned(cfg, objects, locked)
    ensures forall x | x in ArtifactKeys(Readable(objects)[k]) && x in objects :: x in Pruned(cfg, objects, locked)
  {
    WhoRemoves(cfg, objects, locked, k);
    assert DoomedKeys(cfg, Readable(objects), k) == {};
  }

  /** A manifest that is gone has no artifact left, however many deletes were refused. */
  lemma GoneManifestLeavesNothing(cfg: Config, objects: Objects, locked: set<string>, k: string)
    requires OwnArtifacts(Readable(objects)) && k in Readable(objects)
    requires k !in Pruned(cfg, objects, locked)
    ensures ArtifactKeys(Readable(objects)[k]) !! Pruned(cfg, objects, locked).Keys
  {
    WhoRemoves(cfg, objects, locked, k);
    forall x | x in ArtifactKeys(Readable(objects)[k]) ensures x !in Pruned(cfg, objects, locked) {
      assert x !in Surviving(cfg, objects, locked, k);
    }
  }

  /** A manifest goes as soon as it lost something and nothing of it is left, unless its delete is refused. */
  lemma EmptiedManifestGoes(cfg: Config, objects: Objects, locked: set<string>, store: string, k: string)
    requires OwnArtifacts(Readable(objects)) && k in Readable(objects)
    requires store in cfg.retention && Doomed(cfg, Readable(objects), store, k)
    requires ArtifactKeys(Readable(objects)[k]) !! Pruned(cfg, objects, locked).Keys
    ensures k in locked || k !in Pruned(cfg, objects, locked)
  {
    WhoRemoves(cfg, objects, locked, k);
    DoomedKeyListed(cfg, Readable(objects), store, k);
    forall x ensures x !in Surviving(cfg, objects, locked, k) {
      assert x in ArtifactKeys(Readable(objects)[k]) && x in objects ==> x !in Pruned(cfg, objects, locked);
    }
  }

  /** Only artifacts that a readable manifest lists, and readable manifests, ever go. */
  lemma OnlyListedGo(cfg: Config, objects: Objects, locked: set<string>, x: string)
    requires x in objects && x !in Readable(objects)
    requires forall k | k in Readable(objects) :: x !in ArtifactKeys(Readable(objects)[k])
    ensures x in Pruned(cfg, objects, locked) && Pruned(cfg, objects, locked)[x] == objects[x]
  {
    forall k | k in Readable(objects) ensures x !in Removed(cfg, objects, locked, k) {
      DoomedAreArtifacts(cfg, Readable(objects), k);
    }
  }

  /** A manifest from which nothing is to go stays, and so does one of which something survives. */
  lemma ManifestWithRestStays(cfg: Config, objects: Objects, locked: set<string>, k: string)
    requires OwnArtifacts(Readable(objects)) && k in Readable(objects)
    requires
      || (forall store | store in cfg.retention :: !Doomed(cfg, Readable(objects), store, k))
      || !(ArtifactKeys(Readable(objects)[k]) !! Pruned(cfg, objects, locked).Keys)
    ensures k in Pruned(cfg, objects, locked)
  {
    WhoRemoves(cfg, objects, locked, k);
    if x :| x in ArtifactKeys(Readable(objects)[k]) && x in Pruned(cfg, objects, locked) {
      assert x in Surviving(cfg, objects, locked, k);
    } else {
      assert DoomedKeys(cfg, Readable(objects), k) == {};
    }
  }

  /**
   * The newest `keep` artifacts of a store stay, unless they started longer ago than the age
   * bound; an unreadable time is never too long ago.
   */
  lemma NewestAreKept(cfg: Config, objects: Objects, locked: set<string>, store: string, k: string)
    requires OwnArtifacts(Readable(objects)) && store in cfg.retention && k in Holding(Readable(objects), store)
    requires cfg.retention[store].keep.None? || Rank(Readable(objects), store, k) < cfg.retention[store].keep.value
    requires
      var created, age := Readable(objects)[k].created, cfg.retention[store].age;
      created.None? || age.None? || created.value + age.value >= cfg.now
    ensures
      var x := KeyOf(Readable(objects)[k].artifacts, store).value;
      x in objects ==> x in Pruned(cfg, objects, locked)
  {
    var ms := Readable(objects);
    var x := KeyOf(ms[k].artifacts, store).value;
    WhoRemoves(cfg, objects, locked, k);
    KeyOfIsArtifact(ms[k].artifacts, store);
    if x in DoomedKeys(cfg, ms, k) {
      var other :| other in cfg.retention && Doomed(cfg, ms, other, k) && KeyOf(ms[k].artifacts, other).value == x;
      KeyOfIsArtifact(ms[k].artifacts, other);
      assert false;
    }
  }

  /** An unprotected artifact that started longer ago than the age bound goes, unless its delete is refused. */
  lemma TooOldGoes(cfg: Config, objects: Objects, locked: set<string>, store: string, k: string, created: int,
          age: nat)
    requires OwnArtifacts(Readable(objects)) && store in cfg.retention && k in Holding(Readable(objects), store)
    requires cfg.protect != Some(Readable(objects)[k].runId)
    requires Readable(objects)[k].created == Some(created) && cfg.retention[store].age == Some(age)
    requires created + age < cfg.now
    ensures
      var x := KeyOf(Readable(objects)[k].artifacts, store).value;
      x in locked || x !in Pruned(cfg, objects, locked)
  {
    var ms := Readable(objects);
    WhoRemoves(cfg, objects, locked, k);
    KeyOfIsArtifact(ms[k].artifacts, store);
    DoomedKeyListed(cfg, ms, store, k);
  }

  /** An unprotected artifact with `keep` or more newer ones goes, unless its delete is refused. */
  lemma OutrankedGoes(cfg: Config, objects: Objects, locked: set<string>, store: string, k: string)
    requires OwnArtifacts(Readable(objects)) && store in cfg.retention && k in Holding(Readable(objects), store)
    requires cfg.protect != Some(Readable(objects)[k].runId) && cfg.retention[store].keep.Some?
    requires Rank(Readable(objects), store, k) >= cfg.retention[store].keep.value
    ensures
      var x := KeyOf(Readable(objects)[k].artifacts, store).value;
      x in locked || x !in Pruned(cfg, objects, locked)
  {
    var ms := Readable(objects);
    WhoRemoves(cfg, objects, locked, k);
    KeyOfIsArtifact(ms[k].artifacts, store);
    DoomedKeyListed(cfg, ms, store, k);
  }

  /** The later a run's id in text order, the fewer runs rank before it. */
  lemma LaterRanksLower(ms: Manifests, store: string, earlier: string, later: string)
    requires OwnArtifacts(ms) && earlier in Holding(ms, store) && later in Holding(ms, store)
    requires ms[earlier].runId != ms[later].runId && AtMost(ms[earlier].runId, ms[later].runId)
    ensures Rank(ms, store, later) < Rank(ms, store, earlier)
  {
    var above := set n | n in Holding(ms, store) && Newer(ms[n], ms[later]);
    var all := set n | n in Holding(ms, store) && Newer(ms[n], ms[earlier]);
    forall n | n in above ensures n in all {
      AtMostTransitive(ms[earlier].runId, ms[later].runId, ms[n].runId);
      if ms[n].runId == ms[earlier].runId {
        AtMostAntisymmetric(ms[earlier].runId, ms[later].runId);
      }
    }
    assert later in all && later !in above;
    CardinalityMonotone(above + {later}, all);
  }

  /** The runs that still have their artifact of the store. */
  function Remaining(cfg: Config, objects: Objects, locked: set<string>, store: string): set<string>
  {
    var ms := Readable(objects);
    set k | k in Holding(ms, store) && KeyOf(ms[k].artifacts, store).value in Pruned(cfg, objects, locked)
  }

  function Among(ms: Manifests, store: string, keep: nat): set<string>
  {
    set k | k in Holding(ms, store) && Rank(ms, store, k) < keep
  }

  /** At most `keep` runs rank below `keep`. */
  lemma {:induction false} FewRankLow(ms: Manifests, store: string, keep: nat)
    requires OwnArtifacts(ms)
    ensures |Among(ms, store, keep)| <= keep
  {
    var all := Among(ms, store, keep);
    if all != {} {
      var oldest := OldestOf(ms, all);
      forall k | k in all && k != oldest ensures k in Holding(ms, store) && Newer(ms[k], ms[oldest]) {
      }
      var newer := set n | n in Holding(ms, store) && Newer(ms[n], ms[oldest]);
      assert all - {oldest} <= newer;
      CardinalityMonotone(all - {oldest}, newer);
    }
  }

  lemma CardinalityMonotone(a: set<string>, b: set<string>)
    requires a <= b
    ensures |a| <= |b|
  {
    assert b == a + (b - a);
  }

  lemma {:induction false} OldestOf(ms: Manifests, ks: set<string>) returns (oldest: string)
    requires ks != {} && ks <= ms.Keys && OwnArtifacts(ms)
    ensures oldest in ks && forall k | k in ks && k != oldest :: Newer(ms[k], ms[oldest])
    decreases ks
  {
    var x :| x in ks;
    if ks == {x} {
      oldest := x;
    } else {
      var y := OldestOf(ms, ks - {x});
      AtMostTotal(ms[x].runId, ms[y].runId);
      if AtMost(ms[y].runId, ms[x].runId) {
        oldest := y;
      } else {
        oldest := x;
        forall k | k in ks && k != x ensures Newer(ms[k], ms[x]) {
          if k != y {
            AtMostTransitive(ms[x].runId, ms[y].runId, ms[k].runId);
          }
        }
      }
    }
  }

  /** When nothing is refused a store is left with at most `keep` artifacts, and the protected one. */
  lemma AtMostOneOver(cfg: Config, objects: Objects, store: string)
    requires OwnArtifacts(Readable(objects)) && store in cfg.retention && cfg.retention[store].keep.Some?
    ensures |Remaining(cfg, objects, {}, store)| <= cfg.retention[store].keep.value + 1
  {
    var ms := Readable(objects);
    var keep := cfg.retention[store].keep.value;
    var left := Remaining(cfg, objects, {}, store);
    var safe := set k | k in ms && Protected(cfg, ms[k]);
    FewRankLow(ms, store, keep);
    forall k | k in left ensures k in Among(ms, store, keep) || k in safe {
      WhoRemoves(cfg, objects, {}, k);
      KeyOfIsArtifact(ms[k].artifacts, store);
      if Doomed(cfg, ms, store, k) {
        DoomedKeyListed(cfg, ms, store, k);
        assert false;
      }
    }
    assert |safe| <= 1 by {
      if k :| k in safe {
        assert safe == {k};
      }
    }
    CardinalityMonotone(left, Among(ms, store, keep) + safe);
  }

  // ---------------------------------------------------------------------
  // Pruning twice
  // ---------------------------------------------------------------------

  lemma ReadableAfter(cfg: Config, objects: Objects, locked: set<string>)
    ensures
      var later := Readable(Pruned(cfg, objects, locked));
      later.Keys <= Readable(objects).Keys && forall k | k in later :: later[k] == Readable(objects)[k]
  {
  }

  /** With fewer manifests no artifact gets a worse rank. */
  lemma FewerDoomed(cfg: Config, ms: Manifests, later: Manifests, store: string, k: string)
    requires later.Keys <= ms.Keys && forall n | n in later :: later[n] == ms[n]
    requires Doomed(cfg, later, store, k)
    ensures Doomed(cfg, ms, store, k)
  {
    CardinalityMonotone(
      set n | n in Holding(later, store) && Newer(later[n], later[k]),
      set n | n in Holding(ms, store) && Newer(ms[n], ms[k]));
  }

  /** A second prune by the same clock finds nothing more to delete. */
  lemma PruneIdempotent(cfg: Config, objects: Objects, locked: set<string>)
    requires OwnArtifacts(Readable(objects))
    ensures
      var once := Pruned(cfg, objects, locked);
      Pruned(cfg, once, locked) == once
  {
    var ms, once := Readable(objects), Pruned(cfg, objects, locked);
    var later := Readable(once);
    ReadableAfter(cfg, objects, locked);
    forall k, x | k in later && x in Removed(cfg, once, locked, k)
      ensures x !in once
    {
      DoomedStayDoomed(cfg, ms, later, k);
      WhoRemoves(cfg, objects, locked, k);
      DoomedAreArtifacts(cfg, ms, k);
      if ManifestGoes(cfg, once, locked, k) {
        SurvivorsSurvive(cfg, objects, locked, k);
      }
    }
  }

  lemma DoomedStayDoomed(cfg: Config, ms: Manifests, later: Manifests, k: string)
    requires later.Keys <= ms.Keys && forall n | n in later :: later[n] == ms[n]
    requires k in later
    ensures DoomedKeys(cfg, later, k) <= DoomedKeys(cfg, ms, k)
  {
    forall x | x in DoomedKeys(cfg, later, k) ensures x in DoomedKeys(cfg, ms, k) {
      var store :| store in cfg.retention && Doomed(cfg, later, store, k)
        && KeyOf(later[k].artifacts, store).value == x;
      FewerDoomed(cfg, ms, later, store, k);
    }
  }

  lemma SurvivorsSurvive(cfg: Config, objects: Objects, locked: set<string>, k: string)
    requires OwnArtifacts(Readable(objects))
    requires k in Readable(Pruned(cfg, objects, locked))
    ensures Surviving(cfg, objects, locked, k) <= Surviving(cfg, Pruned(cfg, objects, locked), locked, k)
  {
    var ms, once := Readable(objects), Pruned(cfg, objects, locked);
    ReadableAfter(cfg, objects, locked);
    DoomedStayDoomed(cfg, ms, Readable(once), k);
    WhoRemoves(cfg, objects, locked, k);
  }

  // ---------------------------------------------------------------------
  // The prune itself
  // ---------------------------------------------------------------------

  class Destination {
    var objects: Objects
    const locked: set<string>

    constructor (objects: Objects, locked: set<string>)
      ensures this.objects == objects && this.locked == locked
    {
      this.objects, this.locked := objects, locked;
    }

    /** Deletes an object, there or not, unless the destination refuses. */
    method Delete(key: string) returns (denied: bool)
      modifies this
      ensures denied <==> key in locked
      ensures objects == if denied then old(objects) else old(objects) - {key}
    {
      denied := key in locked;
      if !denied {
        objects := objects - {key};
      }
    }

    predicate Exists(key: string)
      reads this
    {
      key in objects
    }
  }

  method NewestOf(ms: Manifests, ks: set<string>) returns (newest: string)
    requires ks != {} && ks <= ms.Keys && OwnArtifacts(ms)
    ensures newest in ks && forall k | k in ks && k != newest :: Newer(ms[newest], ms[k])
  {
    newest :| newest in ks;
    var rest := ks - {newest};
    while rest != {}
      invariant rest <= ks && newest in ks - rest
      invariant forall k | k in ks - rest && k != newest :: Newer(ms[newest], ms[k])
    {
      var k :| k in rest;
      rest := rest - {k};
      AtMostTotal(ms[k].runId, ms[newest].runId);
      if !AtMost(ms[k].runId, ms[newest].runId) {
        forall l | l in ks - rest && l != k ensures Newer(ms[k], ms[l]) {
          if l != newest {
            AtMostTransitive(ms[l].runId, ms[newest].runId, ms[k].runId);
          }
        }
        newest := k;
      }
    }
  }

  function Listed(doomed: map<string, seq<string>>, k: string): set<string>
  {
    if k in doomed then set x | x in doomed[k] else {}
  }

  /** The artifact of one store that one run loses, if it does. */
  function Loses(cfg: Config, ms: Manifests, store: string, k: string): set<string>
  {
    if Doomed(cfg, ms, store, k) then {KeyOf(ms[k].artifacts, store).value} else {}
  }

  function AddKey(doomed: map<string, seq<string>>, k: string, key: string): map<string, seq<string>>
  {
    doomed[k := (if k in doomed then doomed[k] else []) + [key]]
  }

  /** Each listed run has artifact keys to lose, each once. */
  ghost predicate EachOnce(doomed: map<string, seq<string>>)
  {
    forall k | k in doomed :: doomed[k] != [] && Distinct(doomed[k])
  }

  lemma AddKeyOnce(doomed: map<string, seq<string>>, k: string, key: string)
    requires EachOnce(doomed) && key !in Listed(doomed, k)
    ensures EachOnce(AddKey(doomed, k, key))
  {
  }

  /** Different stores have different artifact keys in one run. */
  lemma StoresDiffer(ms: Manifests, k: string, s: string, t: string)
    requires OwnArtifacts(ms) && k in Holding(ms, s) && k in Holding(ms, t) && s != t
    ensures KeyOf(ms[k].artifacts, s) != KeyOf(ms[k].artifacts, t)
  {
    KeyOfIsArtifact(ms[k].artifacts, s);
    KeyOfIsArtifact(ms[k].artifacts, t);
  }

  lemma AddKeyLists(doomed: map<string, seq<string>>, k: string, key: string)
    ensures forall l :: Listed(AddKey(doomed, k, key), l) == Listed(doomed, l) + if l == k then {key} else {}
  {
    var listed := if k in doomed then doomed[k] else [];
    assert forall x :: x in listed + [key] <==> x in listed || x == key;
  }

  ghost predicate NewToList(cfg: Config, ms: Manifests, store: string, doomed: map<string, seq<string>>)
  {
    forall k :: Listed(doomed, k) !! Loses(cfg, ms, store, k)
  }

  /** Runs visited so far have been dealt with, and are newer than those to come. */
  ghost predicate Visited(cfg: Config, ms: Manifests, store: string, rest: set<string>,
          doomed0: map<string, seq<string>>, doomed: map<string, seq<string>>)
  {
    && rest <= Holding(ms, store)
    && (forall n, k | n in Holding(ms, store) - rest && k in rest :: Newer(ms[n], ms[k]))
    && EachOnce(doomed) && NewToList(cfg, ms, store, doomed0)
    && (forall k :: Listed(doomed, k) == Listed(doomed0, k) + if k in rest then {} else Loses(cfg, ms, store, k))
  }

  lemma VisitNext(cfg: Config, ms: Manifests, store: string, rest: set<string>, k: string,
          doomed0: map<string, seq<string>>, doomed: map<string, seq<string>>)
    requires Visited(cfg, ms, store, rest, doomed0, doomed) && k in rest && store in cfg.retention
    requires forall l | l in rest && l != k :: Newer(ms[k], ms[l])
    ensures
      var next := if Doomed(cfg, ms, store, k) then AddKey(doomed, k, KeyOf(ms[k].artifacts, store).value) else doomed;
      Visited(cfg, ms, store, rest - {k}, doomed0, next)
  {
    if Doomed(cfg, ms, store, k) {
      var key := KeyOf(ms[k].artifacts, store).value;
      assert key in Loses(cfg, ms, store, k);
      AddKeyLists(doomed, k, key);
      AddKeyOnce(doomed, k, key);
    }
  }

  lemma OneMoreVisited(all: set<string>, rest: set<string>, k: string)
    requires rest <= all && k in rest
    ensures |all - (rest - {k})| == |all - rest| + 1
  {
    assert all - (rest - {k}) == all - rest + {k};
  }

  /** One run in its turn, its rank known. */
  method VisitRun(cfg: Config, ms: Manifests, store: string, k: string, rank: nat, doomed0: map<string, seq<string>>)
    returns (doomed: map<string, seq<string>>)
    requires store in cfg.retention && k in Holding(ms, store) && rank == Rank(ms, store, k)
    ensures doomed ==
      if Doomed(cfg, ms, store, k) then AddKey(doomed0, k, KeyOf(ms[k].artifacts, store).value) else doomed0
  {
    doomed := doomed0;
    var r, m := cfg.retention[store], ms[k];
    if Protected(cfg, m) {
      return;
    }
    var tooMany := r.keep.Some? && rank >= r.keep.value;
    if tooMany || Expired(cfg, store, m) {
      doomed := AddKey(doomed0, k, KeyOf(m.artifacts, store).value);
    }
  }

  lemma NoneVisited(cfg: Config, ms: Manifests, store: string, doomed: map<string, seq<string>>)
    requires EachOnce(doomed) && NewToList(cfg, ms, store, doomed)
    ensures Visited(cfg, ms, store, Holding(ms, store), doomed, doomed)
  {
    assert forall k | k !in Holding(ms, store) :: Loses(cfg, ms, store, k) == {};
  }

  /** The newest run yet to come, dealt with. */
  method VisitNewest(cfg: Config, ms: Manifests, store: string, rest: set<string>, rank: nat,
          ghost doomed0: map<string, seq<string>>, doomed: map<string, seq<string>>)
    returns (k: string, next: map<string, seq<string>>)
    requires OwnArtifacts(ms) && store in cfg.retention && rest != {}
    requires Visited(cfg, ms, store, rest, doomed0, doomed) && rank == |Holding(ms, store) - rest|
    ensures k in rest && Visited(cfg, ms, store, rest - {k}, doomed0, next)
  {
    k := NewestOf(ms, rest);
    RankIsPosition(ms, store, rest, k);
    VisitNext(cfg, ms, store, rest, k, doomed0, doomed);
    next := VisitRun(cfg, ms, store, k, rank, doomed);
  }

  /** One store's runs, newest first, each with its rank. */
  method DoomStore(cfg: Config, ms: Manifests, store: string, doomed0: map<string, seq<string>>)
    returns (doomed: map<string, seq<string>>)
    requires OwnArtifacts(ms) && store in cfg.retention
    requires EachOnce(doomed0) && NewToList(cfg, ms, store, doomed0)
    ensures forall k :: Listed(doomed, k) == Listed(doomed0, k) + Loses(cfg, ms, store, k)
    ensures EachOnce(doomed)
  {
    doomed := doomed0;
    var all, rank := Holding(ms, store), 0;
    var rest := all;
    assert all - rest == {};
    NoneVisited(cfg, ms, store, doomed);
    while rest != {}
      invariant Visited(cfg, ms, store, rest, doomed0, doomed)
      invariant rank == |all - rest|
    {
      var k;
      k, doomed := VisitNewest(cfg, ms, store, rest, rank, doomed0, doomed);
      OneMoreVisited(all, rest, k);
      rest := rest - {k};
      rank := rank + 1;
    }
  }

  lemma RankIsPosition(ms: Manifests, store: string, rest: set<string>, k: string)
    requires OwnArtifacts(ms) && rest <= Holding(ms, store) && k in rest
    requires forall n, l | n in Holding(ms, store) - rest && l in rest :: Newer(ms[n], ms[l])
    requires forall l | l in rest && l != k :: Newer(ms[k], ms[l])
    ensures Rank(ms, store, k) == |Holding(ms, store) - rest|
  {
    forall l | l in rest ensures !Newer(ms[l], ms[k]) {
      if l != k && Newer(ms[l], ms[k]) {
        AtMostAntisymmetric(ms[l].runId, ms[k].runId);
        assert false;
      }
    }
    assert (set n | n in Holding(ms, store) && Newer(ms[n], ms[k])) == Holding(ms, store) - rest;
  }

  method CollectDoomed(cfg: Config, ms: Manifests) returns (doomed: map<string, seq<string>>)
    requires OwnArtifacts(ms)
    ensures forall k :: Listed(doomed, k) == if k in ms then DoomedKeys(cfg, ms, k) else {}
    ensures EachOnce(doomed) && doomed.Keys <= ms.Keys
  {
    doomed := map[];
    var rest := cfg.retention.Keys;
    while rest != {}
      invariant rest <= cfg.retention.Keys
      invariant EachOnce(doomed) && ListedFrom(cfg, ms, cfg.retention.Keys - rest, doomed)
    {
      var store :| store in rest;
      OtherStoresListNone(cfg, ms, cfg.retention.Keys - rest, store, doomed);
      ghost var before := doomed;
      doomed := DoomStore(cfg, ms, store, doomed);
      ListedMore(cfg, ms, cfg.retention.Keys - rest, store, before, doomed);
      assert cfg.retention.Keys - (rest - {store}) == cfg.retention.Keys - rest + {store};
      rest := rest - {store};
    }
    assert cfg.retention.Keys - rest == cfg.retention.Keys;
    ListedAll(cfg, ms, doomed);
  }

  function LosesAny(cfg: Config, ms: Manifests, stores: set<string>, k: string): set<string>
  {
    set s, x | s in stores && s in cfg.retention && x in Loses(cfg, ms, s, k) :: x
  }

  /** Listed is what the runs lose in some stores. */
  ghost predicate ListedFrom(cfg: Config, ms: Manifests, stores: set<string>, doomed: map<string, seq<string>>)
  {
    forall k :: Listed(doomed, k) == LosesAny(cfg, ms, stores, k)
  }

  lemma OtherStoresListNone(cfg: Config, ms: Manifests, stores: set<string>, store: string,
          doomed: map<string, seq<string>>)
    requires OwnArtifacts(ms) && ListedFrom(cfg, ms, stores, doomed) && store !in stores
    ensures NewToList(cfg, ms, store, doomed)
  {
    forall k, x | x in Listed(doomed, k) ensures x !in Loses(cfg, ms, store, k) {
      assert x in LosesAny(cfg, ms, stores, k);
      var s :| s in stores && s in cfg.retention && x in Loses(cfg, ms, s, k);
      if x in Loses(cfg, ms, store, k) {
        StoresDiffer(ms, k, s, store);
      }
    }
  }

  lemma ListedMore(cfg: Config, ms: Manifests, stores: set<string>, store: string, before: map<string, seq<string>>,
          after: map<string, seq<string>>)
    requires ListedFrom(cfg, ms, stores, before) && store in cfg.retention
    requires forall k :: Listed(after, k) == Listed(before, k) + Loses(cfg, ms, store, k)
    ensures ListedFrom(cfg, ms, stores + {store}, after)
  {
    forall k ensures Listed(after, k) == LosesAny(cfg, ms, stores + {store}, k) {
      assert LosesAny(cfg, ms, stores + {store}, k) == LosesAny(cfg, ms, stores, k) + Loses(cfg, ms, store, k);
    }
  }

  lemma ListedAll(cfg: Config, ms: Manifests, doomed: map<string, seq<string>>)
    requires EachOnce(doomed) && ListedFrom(cfg, ms, cfg.retention.Keys, doomed)
    ensures forall k :: Listed(doomed, k) == if k in ms then DoomedKeys(cfg, ms, k) else {}
    ensures doomed.Keys <= ms.Keys
  {
    forall k ensures LosesAny(cfg, ms, cfg.retention.Keys, k) == if k in ms then DoomedKeys(cfg, ms, k) else {} {
      if k in ms {
        forall x | x in DoomedKeys(cfg, ms, k) ensures x in LosesAny(cfg, ms, cfg.retention.Keys, k) {
          var s :| s in cfg.retention && Doomed(cfg, ms, s, k) && KeyOf(ms[k].artifacts, s).value == x;
          assert x in Loses(cfg, ms, s, k);
        }
      }
    }
    forall k | k in doomed ensures k in ms {
      assert doomed[k][0] in Listed(doomed, k);
    }
  }

  lemma ElementsJoin(s: seq<string>, t: seq<string>)
    ensures Elements(s + t) == Elements(s) + Elements(t)
    ensures |t| == 1 ==> Elements(t) == {t[0]}
  {
  }

  lemma TakenAwayTwice(objects: Objects, a: set<string>, b: set<string>)
    ensures objects - a - b == objects - (a + b)
  {
  }

  /** After some deletes. */
  ghost predicate DeletedSoFar(before: Objects, now: Objects, locked: set<string>, keys: set<string>,
          deleted: seq<string>, suppressed: nat)
  {
    && Elements(deleted) == keys - locked
    && now == before - Elements(deleted)
    && suppressed == |keys * locked|
  }

  lemma DeletedNext(before: Objects, now: Objects, locked: set<string>, keys: set<string>, deleted: seq<string>,
          suppressed: nat, key: string)
    requires DeletedSoFar(before, now, locked, keys, deleted, suppressed) && key !in keys
    ensures key in locked ==> DeletedSoFar(before, now, locked, keys + {key}, deleted, suppressed + 1)
    ensures key !in locked ==> DeletedSoFar(before, now - {key}, locked, keys + {key}, deleted + [key], suppressed)
  {
    if key in locked {
      assert (keys + {key}) * locked == keys * locked + {key};
      assert keys + {key} - locked == keys - locked;
    } else {
      ElementsJoin(deleted, [key]);
      TakenAwayTwice(before, Elements(deleted), {key});
      assert (keys + {key}) * locked == keys * locked;
      assert keys + {key} - locked == keys - locked + {key};
    }
  }

  /** Deletes the listed keys; those refused are counted. */
  method DeleteAll(dest: Destination, keys: seq<string>) returns (deleted: seq<string>, suppressed: nat)
    requires Distinct(keys)
    modifies dest
    ensures Elements(deleted) == Elements(keys) - dest.locked
    ensures dest.objects == old(dest.objects) - Elements(deleted)
    ensures suppressed == |Elements(keys) * dest.locked|
  {
    deleted, suppressed := [], 0;
    ghost var before := dest.objects;
    for i := 0 to |keys|
      invariant DeletedSoFar(before, dest.objects, dest.locked, Elements(keys[..i]), deleted, suppressed)
    {
      NextIsNew(keys, i);
      ElementsJoin(keys[..i], [keys[i]]);
      DeletedNext(before, dest.objects, dest.locked, Elements(keys[..i]), deleted, suppressed, keys[i]);
      var denied := dest.Delete(keys[i]);
      if denied {
        suppressed := suppressed + 1;
      } else {
        deleted := deleted + [keys[i]];
      }
    }
    assert keys[..|keys|] == keys;
  }

  /** The artifacts of a manifest that are there and not among those gone. */
  function Left(m: Manifest, objects: Objects, gone: set<string>): set<string>
  {
    set x | x in ArtifactKeys(m) && x in objects && x !in gone
  }

  /** Some artifact of the manifest was not deleted here and is still there. */
  method AnyRemaining(dest: Destination, m: Manifest, deletedHere: set<string>) returns (any: bool)
    ensures any <==> Left(m, dest.objects, deletedHere) != {}
  {
    any := false;
    for i := 0 to |m.artifacts|
      invariant !any
      invariant forall j | 0 <= j < i :: Absent(m.artifacts[j], dest.objects, deletedHere)
    {
      var a := m.artifacts[i];
      if a.key.Some? && a.key.value != "" && a.key.value !in deletedHere && dest.Exists(a.key.value) {
        assert a.key.value in Left(m, dest.objects, deletedHere);
        return true;
      }
    }
    forall x | x in ArtifactKeys(m) ensures x !in Left(m, dest.objects, deletedHere) {
      var a :| a in m.artifacts && a.key == Some(x);
      var j :| 0 <= j < |m.artifacts| && m.artifacts[j] == a;
      assert Absent(m.artifacts[j], dest.objects, deletedHere);
    }
  }

  predicate Absent(a: Artifact, objects: Objects, gone: set<string>)
  {
    a.key.Some? && a.key.value != "" ==> a.key.value in gone || a.key.value !in objects
  }

  /** One manifest's turn, on a destination where its own artifacts are as they were at the start. */
  method PruneOne(dest: Destination, m: Manifest, k: string, keys: seq<string>)
    returns (deleted: seq<string>, suppressed: nat)
    requires Distinct(keys)
    modifies dest
    ensures
      var gone := Elements(keys) - dest.locked;
      var left := Left(m, old(dest.objects), gone);
      && Elements(deleted) == gone + (if left == {} && k !in dest.locked then {k} else {})
      && dest.objects == old(dest.objects) - Elements(deleted)
      && suppressed == |Elements(keys) * dest.locked| + if left == {} && k in dest.locked then 1 else 0
  {
    deleted, suppressed := DeleteAll(dest, keys);
    ghost var before := old(dest.objects);
    var any := AnyRemaining(dest, m, Elements(deleted));
    assert Left(m, dest.objects, Elements(deleted)) == Left(m, before, Elements(keys) - dest.locked);
    if !any {
      var denied := dest.Delete(k);
      if denied {
        suppressed := suppressed + 1;
      } else {
        ElementsJoin(deleted, [k]);
        deleted := deleted + [k];
      }
    }
  }

  function RemovedBy(cfg: Config, objects: Objects, locked: set<string>, ks: set<string>): set<string>
  {
    set k, x | k in ks && x in Removed(cfg, objects, locked, k) :: x
  }

  /** Nothing another manifest's turn deletes belongs to this one. */
  lemma TurnsIndependent(cfg: Config, objects: Objects, locked: set<string>, done: set<string>, k: string)
    requires OwnArtifacts(Readable(objects)) && done <= Readable(objects).Keys && k in Readable(objects) && k !in done
    ensures ArtifactKeys(Readable(objects)[k]) !! RemovedBy(cfg, objects, locked, done)
  {
    var ms := Readable(objects);
    forall x | x in ArtifactKeys(ms[k]) ensures x !in RemovedBy(cfg, objects, locked, done) {
      if l :| l in done && x in Removed(cfg, objects, locked, l) {
        DoomedAreArtifacts(cfg, ms, l);
        assert l != k;
      }
    }
  }

  /** The deletes that the destination refuses in one manifest's turn. */
  function Refused(cfg: Config, objects: Objects, locked: set<string>, k: string): set<string>
  {
    var doomed := DoomedKeys(cfg, Readable(objects), k);
    doomed * locked + if k in locked && doomed != {} && Surviving(cfg, objects, locked, k) == {} then {k} else {}
  }

  function RefusedBy(cfg: Config, objects: Objects, locked: set<string>, ks: set<string>): set<string>
  {
    set k, x | k in ks && x in Refused(cfg, objects, locked, k) :: x
  }

  function AllRefused(cfg: Config, objects: Objects, locked: set<string>): set<string>
  {
    RefusedBy(cfg, objects, locked, Readable(objects).Keys)
  }

  /** Refusals of different turns are about different objects. */
  lemma RefusalsIndependent(cfg: Config, objects: Objects, locked: set<string>, done: set<string>, k: string)
    requires OwnArtifacts(Readable(objects)) && done <= Readable(objects).Keys && k in Readable(objects) && k !in done
    ensures Refused(cfg, objects, locked, k) !! RefusedBy(cfg, objects, locked, done)
  {
    DoomedAreArtifacts(cfg, Readable(objects), k);
    forall l, x | l in done && x in Refused(cfg, objects, locked, l)
      ensures x !in Refused(cfg, objects, locked, k)
    {
      DoomedAreArtifacts(cfg, Readable(objects), l);
    }
  }

  lemma RefusalsAdd(cfg: Config, objects: Objects, locked: set<string>, done: set<string>, k: string)
    requires OwnArtifacts(Readable(objects)) && done <= Readable(objects).Keys && k in Readable(objects) && k !in done
    ensures |RefusedBy(cfg, objects, locked, done + {k})| ==
      |RefusedBy(cfg, objects, locked, done)| + |Refused(cfg, objects, locked, k)|
  {
    RefusalsIndependent(cfg, objects, locked, done, k);
    assert RefusedBy(cfg, objects, locked, done + {k}) ==
      RefusedBy(cfg, objects, locked, done) + Refused(cfg, objects, locked, k);
  }

  /**
   * A whole prune leaves exactly what is specified above, reports exactly what it deleted,
   * and counts exactly the deletes that were refused.
   */
  method PruneBundles(cfg: Config, dest: Destination) returns (deleted: seq<string>, suppressed: nat)
    requires OwnArtifacts(Readable(dest.objects))
    modifies dest
    ensures dest.objects == Pruned(cfg, old(dest.objects), dest.locked)
    ensures Elements(deleted) == AllRemoved(cfg, old(dest.objects), dest.locked)
    ensures suppressed == |AllRefused(cfg, old(dest.objects), dest.locked)|
  {
    ghost var objects := dest.objects;
    var ms := Readable(dest.objects);
    var doomed := CollectDoomed(cfg, ms);
    deleted, suppressed := [], 0;
    var rest := doomed.Keys;
    ghost var done: set<string> := {};
    while rest != {}
      invariant forall k :: k in doomed <==> k in rest || k in done
      invariant forall k | k in done :: k !in rest
      invariant PrunedSoFar(cfg, objects, dest.locked, done, dest.objects, deleted, suppressed)
    {
      var k :| k in rest;
      TurnsIndependent(cfg, objects, dest.locked, done, k);
      ghost var before := dest.objects;
      var more, denied := PruneOne(dest, ms[k], k, doomed[k]);
      assert Listed(doomed, k) == DoomedKeys(cfg, ms, k);
      TurnIsRemoved(cfg, objects, dest.locked, before, k, doomed[k]);
      TurnDone(cfg, objects, dest.locked, done, before, deleted, suppressed, k, dest.objects, more, denied);
      deleted, suppressed := deleted + more, suppressed + denied;
      rest, done := rest - {k}, done + {k};
    }
    assert done == doomed.Keys;
    OthersRemoveNothing(cfg, objects, dest.locked, doomed);
  }

  /** After the turns of some manifests. */
  ghost predicate PrunedSoFar(cfg: Config, objects: Objects, locked: set<string>, done: set<string>, now: Objects,
          deleted: seq<string>, suppressed: nat)
  {
    && done <= Readable(objects).Keys
    && Elements(deleted) == RemovedBy(cfg, objects, locked, done)
    && now == objects - RemovedBy(cfg, objects, locked, done)
    && suppressed == |RefusedBy(cfg, objects, locked, done)|
  }

  lemma RemovalsAdd(cfg: Config, objects: Objects, locked: set<string>, done: set<string>, k: string)
    ensures RemovedBy(cfg, objects, locked, done + {k}) ==
      RemovedBy(cfg, objects, locked, done) + Removed(cfg, objects, locked, k)
  {
  }

  lemma TurnDone(cfg: Config, objects: Objects, locked: set<string>, done: set<string>, before: Objects,
          deleted: seq<string>, suppressed: nat, k: string, now: Objects, more: seq<string>, denied: nat)
    requires PrunedSoFar(cfg, objects, locked, done, before, deleted, suppressed)
    requires OwnArtifacts(Readable(objects)) && k in Readable(objects) && k !in done
    requires Elements(more) == Removed(cfg, objects, locked, k)
    requires now == before - Elements(more)
    requires denied == |Refused(cfg, objects, locked, k)|
    ensures PrunedSoFar(cfg, objects, locked, done + {k}, now, deleted + more, suppressed + denied)
  {
    ElementsJoin(deleted, more);
    RemovalsAdd(cfg, objects, locked, done, k);
    TakenAwayTwice(objects, Elements(deleted), Elements(more));
    RefusalsAdd(cfg, objects, locked, done, k);
  }

  lemma TurnIsRemoved(cfg: Config, objects: Objects, locked: set<string>, before: Objects, k: string, keys: seq<string>)
    requires OwnArtifacts(Readable(objects)) && k in Readable(objects) && keys != []
    requires Elements(keys) == DoomedKeys(cfg, Readable(objects), k)
    requires forall x | x in ArtifactKeys(Readable(objects)[k]) :: x in before <==> x in objects
    ensures
      var gone := Elements(keys) - locked;
      var left := Left(Readable(objects)[k], before, gone);
      && gone + (if left == {} && k !in locked then {k} else {}) == Removed(cfg, objects, locked, k)
      && |Elements(keys) * locked| + (if left == {} && k in locked then 1 else 0) == |Refused(cfg, objects, locked, k)|
  {
    DoomedAreArtifacts(cfg, Readable(objects), k);
    var gone := Elements(keys) - locked;
    assert Left(Readable(objects)[k], before, gone) == Surviving(cfg, objects, locked, k);
    assert keys[0] in Elements(keys);
  }

  lemma OthersRemoveNothing(cfg: Config, objects: Objects, locked: set<string>, doomed: map<string, seq<string>>)
    requires forall k ::
      Listed(doomed, k) == if k in Readable(objects) then DoomedKeys(cfg, Readable(objects), k) else {}
    requires EachOnce(doomed) && doomed.Keys <= Readable(objects).Keys
    ensures RemovedBy(cfg, objects, locked, doomed.Keys) == AllRemoved(cfg, objects, locked)
    ensures RefusedBy(cfg, objects, locked, doomed.Keys) == AllRefused(cfg, objects, locked)
  {
    forall k | k in Readable(objects) && k !in doomed
      ensures Removed(cfg, objects, locked, k) == {} && Refused(cfg, objects, locked, k) == {}
    {
      assert Listed(doomed, k) == {};
    }
  }

  /** With no refusal the outcome is that of a destination that refuses nothing. */
  lemma UnrefusedIsUnlocked(cfg: Config, objects: Objects, locked: set<string>)
    requires AllRefused(cfg, objects, locked) == {}
    ensures Pruned(cfg, objects, locked) == Pruned(cfg, objects, {})
  {
    var ms := Readable(objects);
    forall k | k in ms ensures Removed(cfg, objects, locked, k) == Removed(cfg, objects, {}, k) {
      forall x ensures x !in Refused(cfg, objects, locked, k) {
        assert x !in AllRefused(cfg, objects, locked);
      }
      assert forall x | x in DoomedKeys(cfg, ms, k) :: x in locked ==> x in Refused(cfg, objects, locked, k);
      assert Surviving(cfg, objects, locked, k) == Surviving(cfg, objects, {}, k);
    }
  }
}
