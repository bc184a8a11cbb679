/** The generation-owning layer around the image store. */
module Catalogs {
  import opened Prelude
  import opened Images
  import opened ImageRuns

  datatype Snapshot = Snapshot(generation: U64, artifacts: seq<ArtifactRecord>)

  datatype CatalogError = StaleGeneration(expected: U64, actual: U64) | GenerationExhausted | StoreFailed(error: StoreError)

  datatype View = View(generation: U64, observed: Option<seq<ArtifactRecord>>)

  type Listing = Result<seq<ArtifactRecord>, StoreError>

  /** One reconciliation: generations advance on change, and an exhausted counter is an error that changes nothing. */
  function Refreshed(v: View, listed: Listing): (View, Result<Snapshot, CatalogError>) {
    match listed
    case Err(error) => (v, Err(StoreFailed(error)))
    case Ok(artifacts) =>
      if v.observed == Some(artifacts) then (v, Ok(Snapshot(v.generation, artifacts)))
      else if v.generation == U64_MAX then (v, Err(GenerationExhausted))
      else (View(v.generation + 1, Some(artifacts)), Ok(Snapshot(v.generation + 1, artifacts)))
  }

  /** What the store may list: fails unless consistent, and then exactly the catalog. */
  ghost predicate Lists(hash: Hash, s: Store, listed: Listing) {
    && (listed.Ok? <==> Consistent(hash, s))
    && (listed.Ok? ==> Catalog(s, listed.value))
  }

  /** A guarded import on values: the listings before and after it are given. */
  function Guarded(hash: Hash, limit: U64, v: View, s: Store, expected: U64, i: Import, before: Listing, after: Listing):
    (View, Store, Result<(ArtifactRecord, Snapshot), CatalogError>)
  {
    var (seen, first) := Refreshed(v, before);
    if first.Err? then (seen, s, Err(first.error))
    else if first.value.generation != expected then (seen, s, Err(StaleGeneration(expected, first.value.generation)))
    else
      var (t, imported) := Imported(hash, limit, s, i);
      if imported.Err? then (seen, t, Err(StoreFailed(imported.error)))
      else
        var (updated, second) := Refreshed(seen, after);
        (updated, t, if second.Err? then Err(second.error) else Ok((imported.value, second.value)))
  }

  /** The import gets through: the catalog lists at the expected generation, and the store accepts it. */
  predicate Imports(hash: Hash, limit: U64, v: View, s: Store, expected: U64, i: Import, before: Listing) {
    var first := Refreshed(v, before).1;
    first.Ok? && first.value.generation == expected && Imported(hash, limit, s, i).1.Ok?
  }

  class ImageCatalog {
    const store: ImageStore
    var generation: U64
    var observed: Option<seq<ArtifactRecord>>

    function State(): View
      reads this
    {
      View(generation, observed)
    }

    constructor (store: ImageStore)
      ensures this.store == store && State() == View(0, None)
    {
      this.store, generation, observed := store, 0, None;
    }

    /** Reconciles with what the store lists, in whatever order its directories are enumerated. */
    method Refresh() returns (r: Result<Snapshot, CatalogError>, ghost listed: Listing)
      modifies this
      ensures (State(), r) == Refreshed(old(State()), listed)
      ensures Lists(store.hash, store.State(), listed)
    {
      var artifacts := store.List();
      listed := artifacts;
      if artifacts.Err? { r := Err(StoreFailed(artifacts.error)); return; }
      if observed != Some(artifacts.value) {
        if generation == U64_MAX { r := Err(GenerationExhausted); return; }
        generation := generation + 1;
        observed := Some(artifacts.value);
      }
      r := Ok(Snapshot(generation, artifacts.value));
    }

    /** Imports at the generation that the caller saw. */
    method Import(expected: U64, i: Import)
      returns (r: Result<(ArtifactRecord, Snapshot), CatalogError>, ghost before: Listing, ghost after: Listing)
      modifies this, store
      ensures Lists(store.hash, old(store.State()), before)
      ensures Imports(store.hash, store.limit, old(State()), old(store.State()), expected, i, before) ==>
        Lists(store.hash, store.State(), after)
      ensures r.Ok? ==> Lists(store.hash, store.State(), after)
      ensures (State(), store.State(), r) ==
        Guarded(store.hash, store.limit, old(State()), old(store.State()), expected, i, before, after)
    {
      var first, second;
      first, before := Refresh();
      after := before;
      if first.Err? { r := Err(first.error); return; }
      if first.value.generation != expected { r := Err(StaleGeneration(expected, first.value.generation)); return; }
      var imported := store.Import(i);
      if imported.Err? { r := Err(StoreFailed(imported.error)); return; }
      second, after := Refresh();
      r := if second.Err? then Err(second.error) else Ok((imported.value, second.value));
    }
  }

  // ------------------------------------------------------------------- all runs

  type Trace = seq<Listing>

  function ViewAfter(trace: Trace): View {
    if trace == [] then View(0, None) else Refreshed(ViewAfter(trace[..|trace| - 1]), trace[|trace| - 1]).0
  }

  function Returned(trace: Trace, i: nat): Result<Snapshot, CatalogError>
    requires i < |trace|
  {
    Refreshed(ViewAfter(trace[..i]), trace[i]).1
  }

  lemma ViewStep(trace: Trace, i: nat)
    requires i < |trace|
    ensures var v, w := ViewAfter(trace[..i]), ViewAfter(trace[..i + 1]);
      && (w == v || w.generation == v.generation + 1)
      && (Returned(trace, i).Ok? ==> w == View(Returned(trace, i).value.generation, Some(Returned(trace, i).value.artifacts)))
  {
    assert trace[..i + 1][..i] == trace[..i];
  }

  lemma {:induction false} ViewsAgree(trace: Trace, i: nat, j: nat)
    requires i <= j <= |trace|
    ensures ViewAfter(trace[..i]).generation <= ViewAfter(trace[..j]).generation
    ensures ViewAfter(trace[..i]).generation == ViewAfter(trace[..j]).generation ==>
      ViewAfter(trace[..i]) == ViewAfter(trace[..j])
    decreases j - i
  {
    if i < j {
      ViewStep(trace, i);
      ViewsAgree(trace, i + 1, j);
    }
  }

  /** Equal generations mean equal catalogs, on every run: here the counter refuses to advance instead of sticking. */
  lemma GenerationIsFaithful(trace: Trace, i: nat, j: nat)
    requires i < |trace| && j < |trace| && Returned(trace, i).Ok? && Returned(trace, j).Ok?
    requires Returned(trace, i).value.generation == Returned(trace, j).value.generation
    ensures Returned(trace, i) == Returned(trace, j)
  {
    ViewStep(trace, i);
    ViewStep(trace, j);
    if i <= j { ViewsAgree(trace, i + 1, j + 1); } else { ViewsAgree(trace, j + 1, i + 1); }
  }

  /** Nothing is touched unless the catalog lists and the caller saw its current generation. */
  lemma GuardedImportIsSafe(hash: Hash, limit: U64, v: View, s: Store, expected: U64, i: Import, before: Listing, after: Listing)
    requires Lists(hash, s, before)
    ensures var (w, t, r) := Guarded(hash, limit, v, s, expected, i, before, after);
      && (!Consistent(hash, s) || Refreshed(v, before).0.generation != expected ==> r.Err? && t == s)
      && (r.Err? && r.error.StaleGeneration? ==> t == s)
      && (t == s || t == Imported(hash, limit, s, i).0)
      && (r.Ok? ==> Imported(hash, limit, s, i) == (t, Ok(r.value.0)) && after == Ok(r.value.1.artifacts)
                    && w == View(r.value.1.generation, Some(r.value.1.artifacts)))
  {
  }

  /** Re-importing known bytes and kind is idempotent: same record, same generation, whatever the enumeration order. */
  lemma ReimportKeepsGeneration(hash: Hash, limit: U64, s: Store, v: View, i: Import,
                                first: seq<ArtifactRecord>, second: seq<ArtifactRecord>)
    requires Consistent(hash, s) && Imported(hash, limit, s, i).1.Ok? && !Publishes(hash, limit, s, i)
    requires v.observed == Some(first) && Catalog(s, first) && Catalog(Imported(hash, limit, s, i).0, second)
    ensures Refreshed(v, Ok(second)) == (v, Ok(Snapshot(v.generation, first)))
  {
    ImportGrows(hash, limit, s, i);
    assert Catalog(s, second);
    CatalogUnique(hash, s, first, second);
  }

  /** A guarded import moves to the next generation exactly when it published a record, and otherwise stays. */
  lemma GuardedImportAdvancesIff(hash: Hash, limit: U64, v: View, s: Store, expected: U64, i: Import,
                                 before: Listing, after: Listing)
    requires Lists(hash, s, before) && Lists(hash, Imported(hash, limit, s, i).0, after)
    requires Guarded(hash, limit, v, s, expected, i, before, after).2.Ok?
    ensures Guarded(hash, limit, v, s, expected, i, before, after).0.generation ==
      expected + (if Publishes(hash, limit, s, i) then 1 else 0)
  {
    var seen := Refreshed(v, before).0;
    ImportGrows(hash, limit, s, i);
    if Publishes(hash, limit, s, i) {
      assert |after.value| == |before.value| + 1;
    } else {
      ReimportKeepsGeneration(hash, limit, s, seen, i, before.value, after.value);
    }
  }

  /** What a reconciliation returns: the listing, under a generation that moves exactly with a change, or why it fails. */
  lemma RefreshedIff(v: View, listed: Listing)
    ensures var (w, r) := Refreshed(v, listed);
      && (forall e :: r == Err(StoreFailed(e)) <==> listed == Err(e))
      && (r == Err(GenerationExhausted) <==> listed.Ok? && v.observed != Some(listed.value) && v.generation == U64_MAX)
      && (r.Err? ==> w == v && !r.error.StaleGeneration?)
      && (r.Ok? ==> listed == Ok(r.value.artifacts) && w == View(r.value.generation, Some(r.value.artifacts)))
      && (r.Ok? ==> r.value.generation == if v.observed == Some(r.value.artifacts) then v.generation else v.generation + 1)
  {
  }

  /** The generation that a caller has to name. */
  function Due(v: View, listed: Listing): nat {
    if v.observed.Some? && listed == Ok(v.observed.value) then v.generation else v.generation + 1
  }

  /**
   A guarded import succeeds exactly when the catalog lists, the caller names its generation, the store accepts the
   import without being poisoned by it, and the generation can still advance for a new record.
   */
  lemma GuardedAcceptedIff(hash: Hash, limit: U64, v: View, s: Store, expected: U64, i: Import, before: Listing, after: Listing)
    requires Lists(hash, s, before) && Lists(hash, Imported(hash, limit, s, i).0, after) && GeometryOk(i.source.geometry)
    ensures var r := Guarded(hash, limit, v, s, expected, i, before, after).2;
      && (r.Ok? <==>
            && Consistent(hash, s) && Due(v, before) == expected
            && Imported(hash, limit, s, i).1.Ok? && !Poisons(hash, limit, s, i)
            && !(Publishes(hash, limit, s, i) && expected == U64_MAX))
      && (r.Err? && r.error.StaleGeneration? <==>
            Consistent(hash, s) && Due(v, before) <= U64_MAX && Due(v, before) != expected)
      && (r.Err? && r.error.StaleGeneration? ==> r.error.expected == expected && r.error.actual == Due(v, before))
  {
    RefreshedIff(v, before);
    var (seen, first) := Refreshed(v, before);
    if Consistent(hash, s) {
      ImportConsistentIff(hash, limit, s, i);
      if first.Ok? && first.value.generation == expected && Imported(hash, limit, s, i).1.Ok? && after.Ok? {
        RefreshedIff(seen, after);
        ImportGrows(hash, limit, s, i);
        if Publishes(hash, limit, s, i) {
          assert |after.value| == |before.value| + 1;
        } else {
          ReimportKeepsGeneration(hash, limit, s, seen, i, before.value, after.value);
        }
      }
    }
  }
}
