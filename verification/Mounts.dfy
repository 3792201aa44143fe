/** The mount table: Table mounts must stay leaves. */
module Mounts {
  import opened Syntax
  import opened Paths

  datatype Backend = Memory | Filesystem | Database | ReadOnly | MountedNamespace

  datatype Resource = Table | Directory

  datatype Mount = Mount(path: Path, resource: Resource, backend: Backend, epoch: nat)

  datatype StoreError =
    | RootMount
    | DuplicateMount(at: Path)
    | TableMountIsLeaf(at: Path)
    | TableWouldParent(at: Path)
    | MissingMount(at: Path)

  /** One Table mount lies strictly above the other. */
  predicate Clash(a: Mount, b: Mount) {
    a.path != b.path && ((a.resource.Table? && a.path <= b.path) || (b.resource.Table? && b.path <= a.path))
  }

  /** What an accepted table looks like. */
  ghost predicate Sound(mounts: map<Path, Mount>) {
    && (forall p :: p in mounts ==> p != [] && mounts[p].path == p)
    && (forall p, q :: p in mounts && q in mounts ==> !Clash(mounts[p], mounts[q]))
  }

  /** Which single mount a table accepts. */
  predicate Accepts(mounts: map<Path, Mount>, d: Mount) {
    d.path != [] && d.path !in mounts && forall p | p in mounts :: !Clash(mounts[p], d)
  }

  /** A table takes a mount that is not at the root, not there yet, not strictly below
      a Table mount and, when it is one itself, not strictly above any mount. */
  ghost predicate FreeFor(mounts: map<Path, Mount>, d: Mount) {
    && d.path != [] && d.path !in mounts
    && (forall p :: p in mounts && mounts[p].resource.Table? ==> !(p < d.path))
    && (d.resource.Table? ==> forall p :: p in mounts ==> !(d.path < p))
  }

  /** No mount is strictly below a Table mount. */
  ghost predicate TablesAreLeaves(mounts: map<Path, Mount>) {
    forall p, q :: p in mounts && q in mounts && mounts[p].resource.Table? ==> !(p < q)
  }

  lemma SoundMeans(mounts: map<Path, Mount>, d: Mount)
    requires forall p :: p in mounts ==> mounts[p].path == p
    ensures Sound(mounts) <==> TablesAreLeaves(mounts) && [] !in mounts
    ensures Accepts(mounts, d) <==> FreeFor(mounts, d)
  {
    if TablesAreLeaves(mounts) {
      forall p, q | p in mounts && q in mounts ensures !Clash(mounts[p], mounts[q]) {
      }
    }
    if Sound(mounts) {
      forall p, q | p in mounts && q in mounts && mounts[p].resource.Table? ensures !(p < q) {
        assert !Clash(mounts[p], mounts[q]);
      }
    }
  }

  class Stores {
    var mounts: map<Path, Mount>
    var mountEpochs: map<Path, nat>

    constructor ()
      ensures mounts == map[] && mountEpochs == map[]
      ensures Sound(mounts)
    {
      mounts, mountEpochs := map[], map[];
    }

    /** ExprTreeStores::mount; the existing mounts are visited in some order. */
    method Mount(d: Mount) returns (r: Result<(), StoreError>)
      requires Sound(mounts)
      modifies this`mounts
      ensures Sound(mounts)
      ensures r.Ok? <==> Accepts(old(mounts), d)
      ensures r.Ok? <==> FreeFor(old(mounts), d)
      ensures TablesAreLeaves(mounts)
      ensures mounts == if r.Ok? then old(mounts)[d.path := d] else old(mounts)
      ensures r.Err? ==>
                match r.error
                case RootMount => d.path == []
                case DuplicateMount(at) => at == d.path && at in old(mounts)
                case TableMountIsLeaf(at) => at in old(mounts) && old(mounts)[at].resource.Table? && at <= d.path && at != d.path
                case TableWouldParent(at) => at in old(mounts) && d.resource.Table? && d.path <= at && at != d.path
                case MissingMount(_) => false
    {
      SoundMeans(mounts, d);
      hide TablesAreLeaves, FreeFor;
      if d.path == [] {
        return Err(RootMount);
      }
      if d.path in mounts {
        return Err(DuplicateMount(d.path));
      }
      var rest := mounts.Keys;
      while rest != {}
        invariant rest <= mounts.Keys
        invariant forall p :: p in mounts && p !in rest ==> !Clash(mounts[p], d)
        decreases rest
      {
        var p :| p in rest;
        if p <= d.path && mounts[p].resource.Table? && p != d.path {
          return Err(TableMountIsLeaf(p));
        }
        if d.path <= p && d.resource.Table? {
          return Err(TableWouldParent(p));
        }
        rest := rest - {p};
      }
      mounts := mounts[d.path := d];
      SoundMeans(mounts, d);
      return Ok(());
    }

    method Unmount(path: Path) returns (r: Result<Mount, StoreError>)
      requires Sound(mounts)
      modifies this
      ensures Sound(mounts)
      ensures r == if path in old(mounts) then Ok(old(mounts)[path]) else Err(MissingMount(path))
      ensures mounts == old(mounts) - {path}
      ensures mountEpochs == if path in old(mounts) then old(mountEpochs) - {path} else old(mountEpochs)
    {
      if path !in mounts {
        return Err(MissingMount(path));
      }
      var d := mounts[path];
      mounts := mounts - {path};
      mountEpochs := mountEpochs - {path};
      return Ok(d);
    }

    method ObserveEpoch(path: Path, epoch: nat) returns (r: Result<(), StoreError>)
      requires Sound(mounts)
      modifies this
      ensures Sound(mounts)
      ensures r.Ok? <==> path in old(mounts)
      ensures mounts == if r.Ok? then old(mounts)[path := old(mounts)[path].(epoch := epoch)] else old(mounts)
      ensures mountEpochs == if r.Ok? then old(mountEpochs)[path := epoch] else old(mountEpochs)
    {
      if path !in mounts {
        return Err(MissingMount(path));
      }
      mounts := mounts[path := mounts[path].(epoch := epoch)];
      mountEpochs := mountEpochs[path := epoch];
      return Ok(());
    }
  }

  /** ExprTreeStores::reopen over a persisted list of descriptors. */
  method Reopen(descriptors: seq<Mount>) returns (r: Result<Stores, StoreError>)
    ensures r.Ok? <==> Acceptable(descriptors)
    ensures r.Ok? ==> fresh(r.value) && Sound(r.value.mounts) && r.value.mounts == TableOf(descriptors)
  {
    var stores := new Stores();
    for i := 0 to |descriptors|
      invariant fresh(stores) && Sound(stores.mounts)
      invariant stores.mounts == TableOf(descriptors[..i]) && Acceptable(descriptors[..i])
    {
      var d := descriptors[i];
      assert descriptors[..i + 1] == descriptors[..i] + [d];
      assert descriptors[..i + 1][..i] == descriptors[..i];
      ExtendAcceptable(descriptors[..i], d);
      var mounted := stores.Mount(d);
      if mounted.Err? {
        if Acceptable(descriptors) {
          PrefixAcceptable(descriptors, i + 1);
        }
        return Err(mounted.error);
      }
    }
    assert descriptors[..|descriptors|] == descriptors;
    return Ok(stores);
  }

  function TableOf(ds: seq<Mount>): map<Path, Mount> {
    if ds == [] then map[] else TableOf(ds[..|ds| - 1])[ds[|ds| - 1].path := ds[|ds| - 1]]
  }

  /** No descriptor is at the root, no two share a path, none clash. */
  ghost predicate Acceptable(ds: seq<Mount>) {
    && (forall i :: 0 <= i < |ds| ==> ds[i].path != [])
    && (forall i, j :: 0 <= i < j < |ds| ==> ds[i].path != ds[j].path && !Clash(ds[i], ds[j]))
  }

  /** The descriptors are acceptable exactly if none is at the root, no two share a path
      and none lies strictly below a Table. */
  lemma AcceptableMeans(ds: seq<Mount>)
    ensures Acceptable(ds) <==>
            && (forall i :: 0 <= i < |ds| ==> ds[i].path != [])
            && (forall i, j :: 0 <= i < |ds| && 0 <= j < |ds| && i != j ==>
                  ds[i].path != ds[j].path && (ds[i].resource.Table? ==> !(ds[i].path < ds[j].path)))
  {
    if Acceptable(ds) {
      forall i, j | 0 <= i < |ds| && 0 <= j < |ds| && i != j
        ensures ds[i].path != ds[j].path && (ds[i].resource.Table? ==> !(ds[i].path < ds[j].path))
      {
        assert if i < j then !Clash(ds[i], ds[j]) else !Clash(ds[j], ds[i]);
      }
    }
  }

  lemma {:induction false} TableHas(ds: seq<Mount>)
    requires forall i, j :: 0 <= i < j < |ds| ==> ds[i].path != ds[j].path
    ensures forall i :: 0 <= i < |ds| ==> ds[i].path in TableOf(ds) && TableOf(ds)[ds[i].path] == ds[i]
    ensures forall p :: p in TableOf(ds) ==> TableOf(ds)[p] in ds && TableOf(ds)[p].path == p
  {
    if ds != [] {
      TableHas(ds[..|ds| - 1]);
      assert forall x :: x in ds[..|ds| - 1] ==> x in ds;
    }
  }

  lemma PrefixAcceptable(ds: seq<Mount>, n: nat)
    requires n <= |ds| && Acceptable(ds)
    ensures Acceptable(ds[..n])
  {
  }

  lemma ExtendAcceptable(ds: seq<Mount>, d: Mount)
    requires Acceptable(ds)
    ensures Acceptable(ds + [d]) <==> Accepts(TableOf(ds), d)
  {
    TableHas(ds);
    var all := ds + [d];
    if Accepts(TableOf(ds), d) {
      forall i, j | 0 <= i < j < |all| ensures all[i].path != all[j].path && !Clash(all[i], all[j]) {
        if j == |ds| {
          assert ds[i].path in TableOf(ds);
        }
      }
    }
    if Acceptable(all) {
      assert all[|ds|] == d;
      forall p | p in TableOf(ds) ensures p != d.path && !Clash(TableOf(ds)[p], d) {
        var i :| 0 <= i < |ds| && ds[i] == TableOf(ds)[p];
        assert all[i] == ds[i] && all[|ds|] == d;
      }
    }
  }

  // ---- The order of the descriptors does not matter ----

  /** Acceptance said of the descriptors as a multiset. */
  ghost predicate AcceptableBag(ds: multiset<Mount>) {
    && (forall d :: d in ds ==> d.path != [] && ds[d] == 1)
    && (forall d, e :: d in ds && e in ds && d != e ==> d.path != e.path && !Clash(d, e))
  }

  lemma BagOfAcceptable(ds: seq<Mount>)
    requires Acceptable(ds)
    ensures AcceptableBag(multiset(ds))
  {
    var bag := multiset(ds);
    forall d | d in bag ensures d.path != [] && bag[d] == 1 {
      var i :| 0 <= i < |ds| && ds[i] == d;
      OccursOnce(ds, i);
    }
    forall d, e | d in bag && e in bag && d != e ensures d.path != e.path && !Clash(d, e) {
      var i :| 0 <= i < |ds| && ds[i] == d;
      var j :| 0 <= j < |ds| && ds[j] == e;
    }
  }

  lemma AcceptableFromBag(ds: seq<Mount>)
    requires AcceptableBag(multiset(ds))
    ensures Acceptable(ds)
  {
    forall i | 0 <= i < |ds| ensures ds[i].path != [] {
      assert ds[i] in multiset(ds);
    }
    forall i, j | 0 <= i < j < |ds| ensures ds[i].path != ds[j].path && !Clash(ds[i], ds[j]) {
      assert ds[i] in multiset(ds) && ds[j] in multiset(ds);
      if ds[i] == ds[j] {
        OccursTwice(ds, i, j);
      }
    }
  }

  lemma OccursOnce(ds: seq<Mount>, i: nat)
    requires i < |ds| && forall j :: 0 <= j < |ds| && j != i ==> ds[j] != ds[i]
    ensures multiset(ds)[ds[i]] == 1
  {
    assert ds == ds[..i] + [ds[i]] + ds[i + 1..];
    assert ds[i] !in ds[..i] && ds[i] !in ds[i + 1..];
  }

  lemma OccursTwice(ds: seq<Mount>, i: nat, j: nat)
    requires i < j < |ds| && ds[i] == ds[j]
    ensures multiset(ds)[ds[i]] >= 2
  {
    assert ds == ds[..i] + [ds[i]] + ds[i + 1..j] + [ds[j]] + ds[j + 1..];
  }

  /** Any permutation of the descriptors is accepted or refused alike, and gives
      the same table. */
  lemma OrderIndependent(ds: seq<Mount>, es: seq<Mount>)
    requires multiset(ds) == multiset(es)
    ensures Acceptable(ds) <==> Acceptable(es)
    ensures Acceptable(ds) ==> TableOf(ds) == TableOf(es)
  {
    if Acceptable(ds) {
      BagOfAcceptable(ds);
      AcceptableFromBag(es);
      TableHas(ds);
      TableHas(es);
      SameTable(ds, es);
      SameTable(es, ds);
    } else if Acceptable(es) {
      BagOfAcceptable(es);
      AcceptableFromBag(ds);
    }
  }

  lemma SameTable(ds: seq<Mount>, es: seq<Mount>)
    requires multiset(ds) == multiset(es) && Acceptable(ds) && Acceptable(es)
    ensures forall p :: p in TableOf(ds) ==> p in TableOf(es) && TableOf(es)[p] == TableOf(ds)[p]
  {
    TableHas(ds);
    TableHas(es);
    forall p | p in TableOf(ds) ensures p in TableOf(es) && TableOf(es)[p] == TableOf(ds)[p] {
      var d := TableOf(ds)[p];
      assert d in multiset(ds);
      assert d in es;
      var i :| 0 <= i < |es| && es[i] == d;
    }
  }
}
