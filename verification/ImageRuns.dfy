/** Crash consistency of the image store over every sequence of imports, each interrupted anywhere. */
module ImageRuns {
  import opened Prelude
  import opened Sorting
  import opened Images
  import opened Rules

  type Hash = seq<Byte> -> Digest

  // ----------------------------------------------------------- what is accepted

  /** The rules for an import, before anything of it is published. */
  function ImportRules(hash: Hash, limit: U64, i: Import): seq<Rule<StoreError>> {
    match i
    case ImportPath(_, source, expected, _) =>
      [Rule(source.regular, SourceNotRegular)] + ContentRules(hash, limit, source, expected)
    case ImportOsImage(source, imageLabel, architecture, expected, _) =>
      [Rule(ValidLabel(imageLabel), InvalidMetadata)]
      + ([Rule(architecture.Some? ==> ValidArchitecture(architecture.value), InvalidMetadata)]
         + ([Rule(source.regular, SourceNotRegular)]
            + ([Rule(source.content != [], EmptyArtifact)]
               + ([Rule(source.geometry.Some?, InvalidDiskImage)] + ContentRules(hash, limit, source, expected)))))
  }

  function ContentRules(hash: Hash, limit: U64, source: Source, expected: Option<Digest>): seq<Rule<StoreError>> {
    [Rule(|source.content| <= limit, TooLarge)]
    + ([Rule(source.content != [], EmptyArtifact)] + [Rule(expected.Some? ==> expected.value == hash(source.content), DigestMismatch)])
  }

  lemma ContentDecides(hash: Hash, limit: U64, source: Source, expected: Option<Digest>)
    ensures FirstViolated(ContentRules(hash, limit, source, expected)) ==
            if |source.content| > limit then Some(TooLarge)
            else if source.content == [] then Some(EmptyArtifact)
            else if expected.Some? && expected.value != hash(source.content) then Some(DigestMismatch)
            else None
  {
    var some := Rule(source.content != [], EmptyArtifact);
    var match' := Rule(expected.Some? ==> expected.value == hash(source.content), DigestMismatch);
    FirstOne(match');
    FirstCons(some, [match']);
    FirstCons(Rule(|source.content| <= limit, TooLarge), [some] + [match']);
  }

  /** An import is refused with the first rule it violates. */
  lemma PreparedDecides(hash: Hash, limit: U64, i: Import)
    ensures FirstViolated(ImportRules(hash, limit, i)) ==
            match Prepared(hash, limit, i) case Ok(_) => None case Err(e) => Some(e)
  {
    var content := ContentRules(hash, limit, i.source, i.expected);
    var regular := Rule(i.source.regular, SourceNotRegular);
    ContentDecides(hash, limit, i.source, i.expected);
    if i.ImportPath? {
      FirstCons(regular, content);
    } else {
      var geometry := Rule(i.source.geometry.Some?, InvalidDiskImage);
      var some := Rule(i.source.content != [], EmptyArtifact);
      var architecture := Rule(i.architecture.Some? ==> ValidArchitecture(i.architecture.value), InvalidMetadata);
      FirstCons(geometry, content);
      FirstCons(some, [geometry] + content);
      FirstCons(regular, [some] + ([geometry] + content));
      FirstCons(architecture, [regular] + ([some] + ([geometry] + content)));
      FirstCons(Rule(ValidLabel(i.imageLabel), InvalidMetadata),
                [architecture] + ([regular] + ([some] + ([geometry] + content))));
    }
  }

  /** What the source and its description have to be like. */
  predicate Presentable(limit: U64, i: Import) {
    && i.source.regular && 0 < |i.source.content| <= limit
    && (i.ImportOsImage? ==>
          && ValidLabel(i.imageLabel) && (i.architecture.Some? ==> ValidArchitecture(i.architecture.value))
          && i.source.geometry.Some?)
  }

  /** And with the digest that was asked for, if any was. */
  predicate Admissible(hash: Hash, limit: U64, i: Import) {
    Presentable(limit, i) && (i.expected.Some? ==> i.expected.value == hash(i.source.content))
  }

  /** The record tells what was imported, field by field. */
  predicate Describes(hash: Hash, i: Import, r: ArtifactRecord) {
    && r.schemaVersion == 1 && r.id == hash(i.source.content) && r.bytes == |i.source.content|
    && match i
       case ImportPath(kind, _, _, _) => r.kind == kind && r.osImage.None?
       case ImportOsImage(source, imageLabel, architecture, _, _) =>
         && r.kind == OsImage && r.osImage.Some?
         && r.osImage.value.imageLabel == imageLabel && r.osImage.value.architecture == architecture
         && source.geometry == Some((r.osImage.value.format, r.osImage.value.virtualBytes))
  }

  lemma PreparedIff(hash: Hash, limit: U64, i: Import)
    ensures Prepared(hash, limit, i).Ok? <==> Admissible(hash, limit, i)
    ensures Prepared(hash, limit, i).Ok? ==> Describes(hash, i, Prepared(hash, limit, i).value)
    ensures Prepared(hash, limit, i) == Err(DigestMismatch) <==>
      Presentable(limit, i) && i.expected.Some? && i.expected.value != hash(i.source.content)
  {
  }

  function KeyFor(hash: Hash, i: Import): Key {
    Key(if i.ImportPath? then i.kind else OsImage, hash(i.source.content))
  }

  /** A blob that is there already is the content that its name stands for, of the same length. */
  predicate BlobFits(hash: Hash, s: Store, i: Import) {
    var id := hash(i.source.content);
    id in s.blobs ==> |s.blobs[id]| == |i.source.content| && hash(s.blobs[id]) == id
  }

  /** A record that is there already reads back and tells the same. */
  predicate RecordFits(hash: Hash, s: Store, i: Import) {
    var key := KeyFor(hash, i);
    key in s.records ==> Readable(key, s.records[key]) && Describes(hash, i, s.records[key])
  }

  lemma DescribesOne(hash: Hash, i: Import, a: ArtifactRecord, b: ArtifactRecord)
    requires Describes(hash, i, a) && Describes(hash, i, b)
    ensures a == b
  {
  }

  /**
   An import succeeds exactly when the request is admissible, what is stored already fits it, and nothing interrupted
   it: a record that is there already leaves nothing to link, so a late interruption does not matter then.
   */
  lemma ImportAcceptedIff(hash: Hash, limit: U64, s: Store, i: Import)
    ensures Imported(hash, limit, s, i).1.Ok? <==>
      && Admissible(hash, limit, i) && BlobFits(hash, s, i) && RecordFits(hash, s, i)
      && (i.stop == Never || (i.stop == AfterRecord && KeyFor(hash, i) in s.records))
    ensures Imported(hash, limit, s, i).1 == Err(DigestMismatch) <==>
      Presentable(limit, i) && i.expected.Some? && i.expected.value != hash(i.source.content)
    ensures !Admissible(hash, limit, i) ==> Imported(hash, limit, s, i).0 == s
  {
    PreparedIff(hash, limit, i);
    if Admissible(hash, limit, i) && KeyFor(hash, i) in s.records && Describes(hash, i, s.records[KeyFor(hash, i)]) {
      DescribesOne(hash, i, Prepared(hash, limit, i).value, s.records[KeyFor(hash, i)]);
    }
  }

  /** And then the record tells what was imported, under its kind and digest, and the blob holds it. */
  lemma ImportStores(hash: Hash, limit: U64, s: Store, i: Import)
    requires Imported(hash, limit, s, i).1.Ok?
    ensures var (t, r) := Imported(hash, limit, s, i);
      && Describes(hash, i, r.value)
      && t.records == s.records[KeyFor(hash, i) := r.value]
      && t.blobs == (if r.value.id in s.blobs then s.blobs else s.blobs[r.value.id := i.source.content])
  {
    PreparedIff(hash, limit, i);
    var (t, r) := Imported(hash, limit, s, i);
    if KeyFor(hash, i) in s.records { assert s.records[KeyFor(hash, i) := r.value] == s.records; }
  }

  /** The import gets as far as linking a record that was not there before. */
  predicate Publishes(hash: Hash, limit: U64, s: Store, i: Import) {
    && Admissible(hash, limit, i) && BlobFits(hash, s, i)
    && i.stop in {Never, AfterRecord} && KeyFor(hash, i) !in s.records
  }

  /** Importing a file as an OS image without its metadata: the store accepts it and can never read it back. */
  predicate Poisons(hash: Hash, limit: U64, s: Store, i: Import) {
    i.ImportPath? && i.kind == OsImage && Publishes(hash, limit, s, i)
  }

  lemma ImportGrows(hash: Hash, limit: U64, s: Store, i: Import)
    ensures var t := Imported(hash, limit, s, i).0;
      && (forall d :: d in s.blobs ==> d in t.blobs && t.blobs[d] == s.blobs[d])
      && (forall k :: k in s.records ==> k in t.records && t.records[k] == s.records[k])
      && (Publishes(hash, limit, s, i) ==>
            Prepared(hash, limit, i).Ok? && t.records == s.records[KeyFor(hash, i) := Prepared(hash, limit, i).value])
      && (!Publishes(hash, limit, s, i) ==> t.records == s.records)
  {
    PreparedIff(hash, limit, i);
    if Prepared(hash, limit, i).Ok? { PublishingGrows(hash, s, i, Prepared(hash, limit, i).value); }
  }

  /** The two publish steps, for a prepared record. */
  lemma PublishingGrows(hash: Hash, s: Store, i: Import, r: ArtifactRecord)
    requires Describes(hash, i, r)
    ensures var (t, blob) := BlobPublished(hash, s, i, r);
      && t.records == s.records && (forall d :: d in s.blobs ==> d in t.blobs && t.blobs[d] == s.blobs[d])
      && (i.stop == BeforeBlob ==> blob.Err?) && (i.stop in {Never, AfterRecord} ==> (blob.Ok? <==> BlobFits(hash, s, i)))
    ensures var (t, record) := RecordPublished(s, i, r);
      && t.blobs == s.blobs
      && t.records == if i.stop != AfterBlob && KeyFor(hash, i) !in s.records then s.records[KeyFor(hash, i) := r] else s.records
  {
  }

  /** A failed import leaves the catalog alone exactly when it was not the last directory sync that failed. */
  lemma FailedImportKeepsRecordsIff(hash: Hash, limit: U64, s: Store, i: Import)
    requires Imported(hash, limit, s, i).1.Err?
    ensures Imported(hash, limit, s, i).0.records == s.records <==>
      !(i.stop == AfterRecord && Publishes(hash, limit, s, i))
  {
    ImportGrows(hash, limit, s, i);
    if Publishes(hash, limit, s, i) {
      var key := KeyFor(hash, i);
      assert key in Imported(hash, limit, s, i).0.records && key !in s.records;
    }
  }

  /** A case of it: the first import into an empty store fails after its record was linked. */
  lemma LateFailureExample(hash: Hash)
    ensures var i := ImportPath(Kernel, Source(true, [0], None), None, AfterRecord);
      && Imported(hash, 1, Store(map[], map[]), i).1.Err?
      && Imported(hash, 1, Store(map[], map[]), i).0.records != map[]
  {
    var i := ImportPath(Kernel, Source(true, [0], None), None, AfterRecord);
    assert Publishes(hash, 1, Store(map[], map[]), i);
    FailedImportKeepsRecordsIff(hash, 1, Store(map[], map[]), i);
  }

  /** A successful import is in the catalog afterwards, with a blob that matches it. */
  lemma SuccessfulImportIsListed(hash: Hash, limit: U64, s: Store, i: Import)
    requires Imported(hash, limit, s, i).1.Ok?
    ensures var (t, r) := Imported(hash, limit, s, i);
      && KeyOf(r.value) in t.records && t.records[KeyOf(r.value)] == r.value
      && Verified(hash, t, r.value)
      && r.value.id == hash(i.source.content) && r.value.bytes == |i.source.content|
  {
  }

  /** The import that would publish a record about some content. */
  function ImportOf(r: ArtifactRecord, content: seq<Byte>): Import {
    match r.osImage
    case None => ImportPath(r.kind, Source(true, content, None), None, Never)
    case Some(image) =>
      ImportOsImage(Source(true, content, Some((image.format, image.virtualBytes))), image.imageLabel, image.architecture, None, Never)
  }

  /** An import with the content of a record that the store could read back. */
  predicate CouldPublish(hash: Hash, i: Import, content: seq<Byte>, r: ArtifactRecord) {
    && i.source.content == content && GeometryOk(i.source.geometry) && Admissible(hash, U64_MAX, i) && Describes(hash, i, r)
    && !(i.ImportPath? && i.kind == OsImage)
  }

  /** A record of some content reads back exactly when an import of that content would publish it, under its own name. */
  lemma ReadableIff(hash: Hash, key: Key, r: ArtifactRecord, content: seq<Byte>)
    requires hash(content) == r.id && |content| == r.bytes
    ensures Readable(key, r) <==> key == KeyOf(r) && exists i :: CouldPublish(hash, i, content, r)
  {
    if Readable(key, r) {
      assert CouldPublish(hash, ImportOf(r, content), content, r);
    }
  }

  lemma NewRecord(hash: Hash, limit: U64, s: Store, i: Import)
    requires Publishes(hash, limit, s, i) && GeometryOk(i.source.geometry)
    ensures Prepared(hash, limit, i).Ok?
    ensures var r := Prepared(hash, limit, i).value;
      && KeyOf(r) == KeyFor(hash, i) && Verified(hash, Imported(hash, limit, s, i).0, r)
      && (Readable(KeyOf(r), r) <==> !(i.ImportPath? && i.kind == OsImage))
  {
    PreparedIff(hash, limit, i);
  }

  /** One import, interrupted anywhere, keeps the store consistent exactly when it does not poison it. */
  lemma ImportConsistentIff(hash: Hash, limit: U64, s: Store, i: Import)
    requires Consistent(hash, s) && GeometryOk(i.source.geometry)
    ensures Consistent(hash, Imported(hash, limit, s, i).0) <==> !Poisons(hash, limit, s, i)
  {
    var t := Imported(hash, limit, s, i).0;
    ImportGrows(hash, limit, s, i);
    if Publishes(hash, limit, s, i) { NewRecord(hash, limit, s, i); }
    if Poisons(hash, limit, s, i) {
      assert !Entry(hash, t, KeyFor(hash, i));
    } else {
      forall key: Key ensures Entry(hash, t, key) {
        assert Entry(hash, s, key);
      }
    }
  }

  // ------------------------------------------------------------------- all runs

  function StoreAfter(hash: Hash, limit: U64, imports: seq<Import>): Store {
    if imports == [] then Store(map[], map[])
    else Imported(hash, limit, StoreAfter(hash, limit, imports[..|imports| - 1]), imports[|imports| - 1]).0
  }

  predicate PoisonedAt(hash: Hash, limit: U64, imports: seq<Import>, k: nat)
    requires k < |imports|
  {
    Poisons(hash, limit, StoreAfter(hash, limit, imports[..k]), imports[k])
  }

  predicate Unreadable(s: Store, key: Key) {
    key in s.records && !Readable(key, s.records[key])
  }

  ghost predicate Broken(s: Store) {
    exists key :: Unreadable(s, key)
  }

  /** Records are never removed, so a poisoned store stays poisoned. */
  lemma ImportState(hash: Hash, limit: U64, s: Store, i: Import)
    requires GeometryOk(i.source.geometry)
    ensures var t := Imported(hash, limit, s, i).0;
      && (Broken(s) || (Consistent(hash, s) && Poisons(hash, limit, s, i)) ==> Broken(t))
      && (Consistent(hash, s) && !Poisons(hash, limit, s, i) ==> Consistent(hash, t))
  {
    var t := Imported(hash, limit, s, i).0;
    ImportGrows(hash, limit, s, i);
    if key :| Unreadable(s, key) { assert Unreadable(t, key); }
    if Consistent(hash, s) {
      ImportConsistentIff(hash, limit, s, i);
      if Poisons(hash, limit, s, i) {
        NewRecord(hash, limit, s, i);
        assert Unreadable(t, KeyFor(hash, i));
      }
    }
  }

  ghost predicate NeverPoisoned(hash: Hash, limit: U64, imports: seq<Import>) {
    forall k :: 0 <= k < |imports| ==> !PoisonedAt(hash, limit, imports, k)
  }

  lemma NeverPoisonedSnoc(hash: Hash, limit: U64, imports: seq<Import>)
    requires imports != []
    ensures var n := |imports| - 1;
      NeverPoisoned(hash, limit, imports) <==>
        NeverPoisoned(hash, limit, imports[..n]) && !Poisons(hash, limit, StoreAfter(hash, limit, imports[..n]), imports[n])
  {
    var n := |imports| - 1;
    forall k | 0 <= k < n
      ensures PoisonedAt(hash, limit, imports, k) <==> PoisonedAt(hash, limit, imports[..n], k)
    {
      assert imports[..n][..k] == imports[..k];
    }
    assert PoisonedAt(hash, limit, imports, n) <==>
      Poisons(hash, limit, StoreAfter(hash, limit, imports[..n]), imports[n]);
  }

  lemma {:induction false} RunState(hash: Hash, limit: U64, imports: seq<Import>)
    requires forall i :: i in imports ==> GeometryOk(i.source.geometry)
    ensures if NeverPoisoned(hash, limit, imports) then Consistent(hash, StoreAfter(hash, limit, imports))
            else Broken(StoreAfter(hash, limit, imports))
  {
    if imports == [] {
      forall key: Key ensures Entry(hash, StoreAfter(hash, limit, imports), key) {}
    } else {
      var n := |imports| - 1;
      RunState(hash, limit, imports[..n]);
      NeverPoisonedSnoc(hash, limit, imports);
      assert imports[n] in imports;
      ImportState(hash, limit, StoreAfter(hash, limit, imports[..n]), imports[n]);
    }
  }

  /** After any imports, interrupted anywhere, the catalog lists exactly when no import poisoned it. */
  lemma RunsConsistentIff(hash: Hash, limit: U64, imports: seq<Import>)
    requires forall i :: i in imports ==> GeometryOk(i.source.geometry)
    ensures Consistent(hash, StoreAfter(hash, limit, imports)) <==> NeverPoisoned(hash, limit, imports)
  {
    RunState(hash, limit, imports);
    var s := StoreAfter(hash, limit, imports);
    if key :| Unreadable(s, key) { assert !Entry(hash, s, key); }
  }

  /** Import `k` is where a record comes from: it was admissible, and the record tells what it brought. */
  predicate RecordFrom(hash: Hash, limit: U64, imports: seq<Import>, k: nat, key: Key, r: ArtifactRecord) {
    k < |imports| && Admissible(hash, limit, imports[k]) && KeyFor(hash, imports[k]) == key && Describes(hash, imports[k], r)
  }

  predicate BlobFrom(hash: Hash, limit: U64, imports: seq<Import>, k: nat, id: Digest, content: seq<Byte>) {
    k < |imports| && Admissible(hash, limit, imports[k]) && hash(content) == id && imports[k].source.content == content
  }

  ghost predicate RecordAccounted(hash: Hash, limit: U64, imports: seq<Import>, s: Store, key: Key) {
    key in s.records ==> exists k :: RecordFrom(hash, limit, imports, k, key, s.records[key])
  }

  ghost predicate BlobAccounted(hash: Hash, limit: U64, imports: seq<Import>, s: Store, id: Digest) {
    id in s.blobs ==> exists k :: BlobFrom(hash, limit, imports, k, id, s.blobs[id])
  }

  lemma NewBlob(hash: Hash, limit: U64, s: Store, i: Import)
    ensures var t := Imported(hash, limit, s, i).0;
      || t.blobs == s.blobs
      || (Admissible(hash, limit, i) && t.blobs == s.blobs[hash(i.source.content) := i.source.content])
  {
    PreparedIff(hash, limit, i);
  }

  /**
   Nothing else gets in: after any imports, interrupted anywhere, each record and each blob comes from an import that
   was admissible, its expected digest included, and holds what that import brought, under the digest of its content.
   */
  lemma {:induction false} StoredWasImported(hash: Hash, limit: U64, imports: seq<Import>, key: Key, id: Digest)
    ensures RecordAccounted(hash, limit, imports, StoreAfter(hash, limit, imports), key)
    ensures BlobAccounted(hash, limit, imports, StoreAfter(hash, limit, imports), id)
  {
    if imports != [] {
      var n := |imports| - 1;
      var s, t := StoreAfter(hash, limit, imports[..n]), StoreAfter(hash, limit, imports);
      StoredWasImported(hash, limit, imports[..n], key, id);
      ImportGrows(hash, limit, s, imports[n]);
      NewBlob(hash, limit, s, imports[n]);
      PreparedIff(hash, limit, imports[n]);
      if key in s.records {
        var k :| RecordFrom(hash, limit, imports[..n], k, key, s.records[key]);
        assert RecordFrom(hash, limit, imports, k, key, t.records[key]);
      } else if key in t.records {
        assert RecordFrom(hash, limit, imports, n, key, t.records[key]);
      }
      if id in s.blobs {
        var k :| BlobFrom(hash, limit, imports[..n], k, id, s.blobs[id]);
        assert BlobFrom(hash, limit, imports, k, id, t.blobs[id]);
      } else if id in t.blobs {
        assert BlobFrom(hash, limit, imports, n, id, t.blobs[id]);
      }
    }
  }

  /** The management API imports files as kernels and initrds only, and then the catalog always lists. */
  lemma ApiRunsStayConsistent(hash: Hash, limit: U64, imports: seq<Import>)
    requires forall i :: i in imports ==> GeometryOk(i.source.geometry) && (i.ImportPath? ==> i.kind != OsImage)
    ensures Consistent(hash, StoreAfter(hash, limit, imports))
  {
    forall k | 0 <= k < |imports| ensures !PoisonedAt(hash, limit, imports, k) {
      assert imports[k] in imports;
    }
    RunsConsistentIff(hash, limit, imports);
  }

  /** A concrete poisoning: one regular file imported under the OS-image kind. */
  lemma PoisoningExample(hash: Hash)
    ensures var i := ImportPath(OsImage, Source(true, [0], None), None, Never);
      && Imported(hash, 1, Store(map[], map[]), i).1.Ok?
      && !Consistent(hash, Imported(hash, 1, Store(map[], map[]), i).0)
  {
    var i := ImportPath(OsImage, Source(true, [0], None), None, Never);
    var s := Store(map[], map[]);
    assert Publishes(hash, 1, s, i);
    forall key: Key ensures Entry(hash, s, key) {}
    ImportConsistentIff(hash, 1, s, i);
  }

  lemma {:induction false} PlainLength(n: nat)
    ensures Utf8Length(seq(n, _ => 'a')) == n
  {
    if n > 0 {
      PlainLength(n - 1);
      assert seq(n, _ => 'a')[1..] == seq(n - 1, _ => 'a');
    }
  }

  /** How long a label and an architecture may be. */
  lemma MetadataLimits(n: nat)
    ensures ValidLabel(seq(n, _ => 'a')) <==> 1 <= n <= 128
    ensures ValidArchitecture(seq(n, _ => 'a')) <==> 1 <= n <= 64
  {
    PlainLength(n);
  }

  // -------------------------------------------------- the catalog has one order

  /** Kernels first, then initrds, then OS images; by digest within a kind. */
  lemma CatalogOrder(s: Store, list: seq<ArtifactRecord>, i: nat, j: nat)
    requires Catalog(s, list) && i < j < |list|
    ensures list[j].kind == Kernel ==> list[i].kind == Kernel
    ensures list[j].kind == Initrd ==> list[i].kind != OsImage
    ensures list[i].kind == list[j].kind ==> Before(list[i].id, list[j].id)
  {
    assert Ascending(list[i], list[j]);
  }

  function Keys(list: seq<ArtifactRecord>): seq<Key> {
    seq(|list|, i requires 0 <= i < |list| => KeyOf(list[i]))
  }

  lemma {:induction false} AscendingUnique(a: seq<Key>, b: seq<Key>)
    requires StrictlyAscending(a) && StrictlyAscending(b) && Elements(a) == Elements(b)
    ensures a == b
  {
    if a == [] {
      ElementsEmpty(a);
      ElementsEmpty(b);
    } else {
      ElementsEmpty(a);
      ElementsEmpty(b);
      assert a[0] in Elements(a) && a[0] in Elements(b);
      var i :| 0 <= i < |b| && b[i] == a[0];
      assert b[0] in Elements(b) && b[0] in Elements(a);
      var j :| 0 <= j < |a| && a[j] == b[0];
      assert i > 0 ==> KeyBefore(b[0], b[i]);
      assert j > 0 ==> KeyBefore(a[0], a[j]);
      BeforeIsStrictOrder(a[0].id, b[0].id, a[0].id);
      assert a[0] == b[0];
      TailElements(a);
      TailElements(b);
      TailAscending(a);
      TailAscending(b);
      AscendingUnique(a[1..], b[1..]);
      assert a == [a[0]] + a[1..] && b == [b[0]] + b[1..];
    }
  }

  lemma TailAscending(a: seq<Key>)
    requires StrictlyAscending(a) && a != []
    ensures StrictlyAscending(a[1..])
  {
    forall i, j | 0 <= i < j < |a| - 1 ensures KeyBefore(a[1..][i], a[1..][j]) {
      assert KeyBefore(a[i + 1], a[j + 1]);
    }
  }

  lemma TailElements(a: seq<Key>)
    requires StrictlyAscending(a) && a != []
    ensures Elements(a[1..]) == Elements(a) - {a[0]}
  {
    assert a == [a[0]] + a[1..];
    forall k | 0 <= k < |a| - 1 ensures a[1..][k] != a[0] {
      assert KeyBefore(a[0], a[k + 1]);
      BeforeIsStrictOrder(a[0].id, a[0].id, a[0].id);
    }
  }

  lemma CatalogKeys(hash: Hash, s: Store, list: seq<ArtifactRecord>)
    requires Consistent(hash, s) && Catalog(s, list)
    ensures StrictlyAscending(Keys(list)) && Elements(Keys(list)) == s.records.Keys
    ensures forall i :: 0 <= i < |list| ==> Keys(list)[i] in s.records && s.records[Keys(list)[i]] == list[i]
  {
    var keys := Keys(list);
    forall i, j | 0 <= i < j < |keys| ensures KeyBefore(keys[i], keys[j]) {
      assert Ascending(list[i], list[j]);
    }
    forall i | 0 <= i < |list| ensures keys[i] in s.records && s.records[keys[i]] == list[i] {
      assert list[i] in s.records.Values;
      var k :| k in s.records && s.records[k] == list[i];
      assert Entry(hash, s, k);
    }
    forall k | k in s.records ensures k in Elements(keys) {
      assert s.records[k] in list && Entry(hash, s, k);
      var i :| 0 <= i < |list| && list[i] == s.records[k];
      assert keys[i] == k;
    }
  }

  /** Whatever order the directories enumerate in, the listing is the same. */
  lemma CatalogUnique(hash: Hash, s: Store, a: seq<ArtifactRecord>, b: seq<ArtifactRecord>)
    requires Consistent(hash, s) && Catalog(s, a) && Catalog(s, b)
    ensures a == b
  {
    CatalogKeys(hash, s, a);
    CatalogKeys(hash, s, b);
    AscendingUnique(Keys(a), Keys(b));
    forall i | 0 <= i < |a| ensures a[i] == b[i] {
      assert Keys(a)[i] == Keys(b)[i];
    }
  }
}
