/** The immutable content-addressed image store, for an arbitrary digest function. */
module Images {
  import opened Prelude
  import opened Sorting

  datatype ArtifactKind = Kernel | Initrd | OsImage

  predicate Canonical(d: string) {
    |d| == 64 && forall c :: c in d ==> '0' <= c <= '9' || 'a' <= c <= 'f'
  }

  /** A digest as it names files: 64 lowercase hexadecimal digits. */
  type Digest = d: string | Canonical(d) witness seq(64, _ => '0')

  datatype OsImageFormat = Raw | Qcow2 | UnknownFormat

  datatype OsImageRecord = OsImageRecord(
    imageLabel: string, format: OsImageFormat, virtualBytes: U64, architecture: Option<string>)

  datatype ArtifactRecord = ArtifactRecord(
    schemaVersion: U32, kind: ArtifactKind, id: Digest, bytes: U64, osImage: Option<OsImageRecord>)

  datatype Key = Key(kind: ArtifactKind, id: Digest)

  /** The two directories that matter: blobs by digest, records by kind and digest. */
  datatype Store = Store(blobs: map<Digest, seq<Byte>>, records: map<Key, ArtifactRecord>)

  datatype StoreError =
    | InvalidSizeLimit | SourceNotRegular | EmptyArtifact | TooLarge | DigestMismatch | InvalidMetadata | InvalidDiskImage | Corrupt | IoFailed

  // ------------------------------------------------------------- record validity

  predicate Whitespace(c: char) {
    var n := c as int;
    9 <= n <= 13 || n in {0x20, 0x85, 0xA0, 0x1680, 0x2028, 0x2029, 0x202F, 0x205F, 0x3000} || 0x2000 <= n <= 0x200A
  }

  predicate Control(c: char) {
    var n := c as int;
    n < 0x20 || 0x7F <= n <= 0x9F
  }

  /** Length in UTF-8. */
  function Utf8Length(s: string): nat {
    if s == [] then 0
    else
      var n := s[0] as int;
      (if n < 0x80 then 1 else if n < 0x800 then 2 else if n < 0x10000 then 3 else 4) + Utf8Length(s[1..])
  }

  predicate ValidLabel(s: string) {
    && s != [] && Utf8Length(s) <= 128
    && !Whitespace(s[0]) && !Whitespace(s[|s| - 1])
    && forall c :: c in s ==> !Control(c)
  }

  predicate ValidArchitecture(s: string) {
    && s != [] && |s| <= 64
    && forall c :: c in s ==>
         '0' <= c <= '9' || 'a' <= c <= 'z' || 'A' <= c <= 'Z' || c in {'-', '_', '.'}
  }

  /** The consistency test `read_record` applies to a record file. */
  predicate Readable(key: Key, r: ArtifactRecord) {
    && r.schemaVersion == 1 && r.kind == key.kind && r.id == key.id && r.bytes != 0
    && match r.kind
       case OsImage =>
         && r.osImage.Some?
         && r.osImage.value.virtualBytes != 0 && r.osImage.value.format != UnknownFormat
         && ValidLabel(r.osImage.value.imageLabel)
         && (r.osImage.value.architecture.Some? ==> ValidArchitecture(r.osImage.value.architecture.value))
       case _ => r.osImage.None?
  }

  /** `verify_blob`: the blob exists with the recorded size and digest. */
  predicate Verified(hash: seq<Byte> -> Digest, s: Store, r: ArtifactRecord) {
    r.id in s.blobs && |s.blobs[r.id]| == r.bytes && hash(s.blobs[r.id]) == r.id
  }

  predicate Entry(hash: seq<Byte> -> Digest, s: Store, key: Key) {
    key in s.records ==> Readable(key, s.records[key]) && Verified(hash, s, s.records[key])
  }

  /** Every record is readable and describes its blob. */
  ghost predicate Consistent(hash: seq<Byte> -> Digest, s: Store) {
    forall key: Key {:trigger Entry(hash, s, key)} :: Entry(hash, s, key)
  }

  // --------------------------------------------------------------------- imports

  /** What the source file holds, and the disk geometry read from its header for an OS image. */
  datatype Source = Source(regular: bool, content: seq<Byte>, geometry: Option<(OsImageFormat, U64)>)

  /** Where an import is interrupted, by an I/O error or by a crash. */
  datatype Interruption = Never | BeforeBlob | AfterBlob | AfterRecord

  datatype Import =
    | ImportPath(kind: ArtifactKind, source: Source, expected: Option<Digest>, stop: Interruption)
    | ImportOsImage(source: Source, imageLabel: string, architecture: Option<string>, expected: Option<Digest>, stop: Interruption)
  {
    function Kind(): ArtifactKind {
      if ImportPath? then kind else OsImage
    }
  }

  /** `inspect_disk_image` never yields an unknown format or an empty disk. */
  predicate GeometryOk(g: Option<(OsImageFormat, U64)>) {
    g.Some? ==> g.value.0 != UnknownFormat && g.value.1 != 0
  }

  /** The record an import would publish, or why it is rejected before anything is published. */
  function Prepared(hash: seq<Byte> -> Digest, limit: U64, i: Import): Result<ArtifactRecord, StoreError> {
    if i.ImportOsImage? && (!ValidLabel(i.imageLabel) || (i.architecture.Some? && !ValidArchitecture(i.architecture.value)))
    then Err(InvalidMetadata)
    else if !i.source.regular then Err(SourceNotRegular)
    else if i.ImportOsImage? && i.source.content == [] then Err(EmptyArtifact)
    else if i.ImportOsImage? && i.source.geometry.None? then Err(InvalidDiskImage)
    else if |i.source.content| > limit then Err(TooLarge)
    else if i.source.content == [] then Err(EmptyArtifact)
    else if i.expected.Some? && i.expected.value != hash(i.source.content) then Err(DigestMismatch)
    else
      Ok(ArtifactRecord(1, i.Kind(), hash(i.source.content), |i.source.content|,
                        if i.ImportPath? then None
                        else Some(OsImageRecord(i.imageLabel, i.source.geometry.value.0, i.source.geometry.value.1,
                                                i.architecture))))
  }

  /** Publishes the blob under its digest, or checks the one already there. */
  function BlobPublished(hash: seq<Byte> -> Digest, s: Store, i: Import, r: ArtifactRecord):
    (Store, Result<(), StoreError>)
  {
    if i.stop == BeforeBlob then (s, Err(IoFailed))
    else if r.id in s.blobs then (s, if Verified(hash, s, r) then Ok(()) else Err(Corrupt))
    else
      (s.(blobs := s.blobs[r.id := i.source.content]), if i.stop == AfterBlob then Err(IoFailed) else Ok(()))
  }

  /** Publishes the record, or checks that the one already there is the same. */
  function RecordPublished(s: Store, i: Import, r: ArtifactRecord): (Store, Result<(), StoreError>) {
    var key := Key(r.kind, r.id);
    if i.stop == AfterBlob then (s, Err(IoFailed))
    else if key in s.records then (s, if Readable(key, s.records[key]) && s.records[key] == r then Ok(()) else Err(Corrupt))
    else (s.(records := s.records[key := r]), if i.stop == AfterRecord then Err(IoFailed) else Ok(()))
  }

  function Imported(hash: seq<Byte> -> Digest, limit: U64, s: Store, i: Import): (Store, Result<ArtifactRecord, StoreError>) {
    match Prepared(hash, limit, i)
    case Err(error) => (s, Err(error))
    case Ok(r) =>
      var (t, blob) := BlobPublished(hash, s, i, r);
      if blob.Err? then (t, Err(blob.error))
      else
        var (u, record) := RecordPublished(t, i, r);
        (u, if record.Err? then Err(record.error) else Ok(r))
  }

  /** `copy_and_hash`: any nonempty reads give the same bytes, and the limit applies to their total. */
  method CopyAndHash(limit: U64, pieces: seq<seq<Byte>>) returns (copy: Result<seq<Byte>, StoreError>)
    requires forall p :: p in pieces ==> p != []
    ensures copy ==
      if |Flatten(pieces)| > limit then Err(TooLarge)
      else if Flatten(pieces) == [] then Err(EmptyArtifact)
      else Ok(Flatten(pieces))
  {
    var bytes := 0;
    var output: seq<Byte> := [];
    for k := 0 to |pieces|
      invariant output == Flatten(pieces[..k]) && bytes == |output| <= limit
    {
      assert pieces[..k + 1] == pieces[..k] + [pieces[k]];
      FlattenSnoc(pieces[..k], pieces[k]);
      assert pieces == pieces[..k + 1] + pieces[k + 1..];
      FlattenAppend(pieces[..k + 1], pieces[k + 1..]);
      bytes := bytes + |pieces[k]|;
      if bytes > limit { return Err(TooLarge); }
      output := output + pieces[k];
    }
    assert pieces[..|pieces|] == pieces;
    if bytes == 0 { return Err(EmptyArtifact); }
    return Ok(output);
  }

  /** `read_dir`: every entry once, in an arbitrary order. */
  method Enumerate(keys: set<Key>) returns (entries: seq<Key>)
    ensures Elements(entries) == keys && NoDuplicates(entries)
  {
    entries := [];
    var rest := keys;
    while rest != {}
      invariant Elements(entries) + rest == keys && Elements(entries) !! rest && NoDuplicates(entries)
      decreases |rest|
    {
      var key :| key in rest;
      assert Elements(entries + [key]) == Elements(entries) + {key};
      assert forall i :: 0 <= i < |entries| ==> entries[i] in Elements(entries);
      entries, rest := entries + [key], rest - {key};
    }
  }

  /** The store object; its fields stand for the directories on disk. */
  class ImageStore {
    const hash: seq<Byte> -> Digest
    const limit: U64
    var blobs: map<Digest, seq<Byte>>
    var records: map<Key, ArtifactRecord>

    function State(): Store
      reads this
    {
      Store(blobs, records)
    }

    constructor (hash: seq<Byte> -> Digest, limit: U64)
      requires limit > 0
      ensures State() == Store(map[], map[]) && this.hash == hash && this.limit == limit
    {
      this.hash, this.limit, blobs, records := hash, limit, map[], map[];
    }

    /** A fresh store: the limit must be positive, and the directories must be there or be created. */
    static method New(hash: seq<Byte> -> Digest, limit: U64, layout: bool) returns (r: Result<ImageStore, StoreError>)
      ensures r == Err(InvalidSizeLimit) <==> limit == 0
      ensures r == Err(IoFailed) <==> limit > 0 && !layout
      ensures r.Ok? <==> limit > 0 && layout
      ensures r.Ok? ==> fresh(r.value) && r.value.State() == Store(map[], map[]) && r.value.limit == limit
    {
      if limit == 0 { return Err(InvalidSizeLimit); }
      if !layout { return Err(IoFailed); }
      var store := new ImageStore(hash, limit);
      return Ok(store);
    }

    method Import(i: Import) returns (r: Result<ArtifactRecord, StoreError>)
      modifies this
      ensures (State(), r) == Imported(hash, limit, old(State()), i)
    {
      r := Prepared(hash, limit, i);
      if r.Err? { return; }
      var blob := PublishBlob(i, r.value);
      if blob.Err? { return Err(blob.error); }
      var record := PublishRecord(i, r.value);
      if record.Err? { return Err(record.error); }
    }

    method PublishBlob(i: Import, r: ArtifactRecord) returns (result: Result<(), StoreError>)
      modifies this`blobs
      ensures (State(), result) == BlobPublished(hash, old(State()), i, r)
    {
      if i.stop == BeforeBlob { return Err(IoFailed); }
      if r.id in blobs { return if Verified(hash, State(), r) then Ok(()) else Err(Corrupt); }
      blobs := blobs[r.id := i.source.content];
      return if i.stop == AfterBlob then Err(IoFailed) else Ok(());
    }

    method PublishRecord(i: Import, r: ArtifactRecord) returns (result: Result<(), StoreError>)
      modifies this`records
      ensures (State(), result) == RecordPublished(old(State()), i, r)
    {
      var key := Key(r.kind, r.id);
      if i.stop == AfterBlob { return Err(IoFailed); }
      if key in records { return if Readable(key, records[key]) && records[key] == r then Ok(()) else Err(Corrupt); }
      records := records[key := r];
      return if i.stop == AfterRecord then Err(IoFailed) else Ok(());
    }

    /** Lists the catalog, in whatever order the directories are enumerated. */
    method List() returns (listed: Result<seq<ArtifactRecord>, StoreError>)
      ensures listed.Ok? <==> Consistent(hash, State())
      ensures listed.Ok? ==> Catalog(State(), listed.value)
    {
      var entries := Enumerate(records.Keys);
      var keys: seq<Key> := [];
      for k := 0 to |entries|
        invariant keys == entries[..k]
        invariant forall e :: e in entries[..k] ==> Entry(hash, State(), e)
      {
        var key := entries[k];
        assert key in Elements(entries);
        if !Readable(key, records[key]) || !Verified(hash, State(), records[key]) {
          assert !Entry(hash, State(), key);
          return Err(Corrupt);
        }
        keys := keys + [key];
      }
      assert keys == entries;
      forall key: Key ensures Entry(hash, State(), key) {
        if key in records { assert key in Elements(entries); }
      }
      var sorted := Sort(keys, KeyAtMost);
      SortedKeys(records, entries);
      ArrangedIsCatalog(hash, State(), sorted);
      listed := Ok(Arranged(records, sorted));
    }
  }

  // ------------------------------------------------------------------- catalogs

  function Rank(k: ArtifactKind): nat {
    match k
    case Kernel => 0
    case Initrd => 1
    case OsImage => 2
  }

  /** The derived record order, on records that share the schema version and differ in kind or digest. */
  predicate KeyBefore(a: Key, b: Key) {
    Rank(a.kind) < Rank(b.kind) || (a.kind == b.kind && Before(a.id, b.id))
  }

  predicate KeyAtMost(a: Key, b: Key) {
    a == b || KeyBefore(a, b)
  }

  lemma KeyOrder()
    ensures TotalOrder(KeyAtMost)
    ensures forall a, b :: KeyAtMost(a, b) && a != b ==> KeyBefore(a, b)
  {
    forall a: Key, b: Key ensures KeyAtMost(a, b) || KeyAtMost(b, a) {
      BeforeIsStrictOrder(a.id, b.id, a.id);
    }
    forall a: Key, b: Key, c: Key | KeyAtMost(a, b) && KeyAtMost(b, c) ensures KeyAtMost(a, c) {
      BeforeIsStrictOrder(a.id, b.id, c.id);
    }
    forall a: Key, b: Key | KeyAtMost(a, b) && KeyAtMost(b, a) ensures a == b {
      BeforeIsStrictOrder(a.id, b.id, a.id);
    }
  }

  function KeyOf(r: ArtifactRecord): Key {
    Key(r.kind, r.id)
  }

  predicate Ascending(a: ArtifactRecord, b: ArtifactRecord) {
    KeyBefore(KeyOf(a), KeyOf(b))
  }

  /** Exactly the published records, in strict order. */
  ghost predicate Catalog(s: Store, list: seq<ArtifactRecord>) {
    && (forall r :: r in list <==> r in s.records.Values)
    && |list| == |s.records|
    && (forall i, j :: 0 <= i < j < |list| ==> Ascending(list[i], list[j]))
  }

  function Arranged(records: map<Key, ArtifactRecord>, keys: seq<Key>): seq<ArtifactRecord>
    requires forall k :: k in keys ==> k in records
  {
    seq(|keys|, n requires 0 <= n < |keys| => records[keys[n]])
  }

  /** Sorting the enumerated keys: the same keys, once each, strictly ascending. */
  lemma SortedKeys(records: map<Key, ArtifactRecord>, entries: seq<Key>)
    requires Elements(entries) == records.Keys && NoDuplicates(entries)
    ensures var sorted := Sort(entries, KeyAtMost);
      Elements(sorted) == records.Keys && |sorted| == |records| && StrictlyAscending(sorted)
  {
    var sorted := Sort(entries, KeyAtMost);
    KeyOrder();
    SortSorts(entries, KeyAtMost);
    SameMultisetSameElements(sorted, entries);
    ElementsCount(entries);
    ElementsCount(sorted);
    forall i, j | 0 <= i < j < |sorted| ensures KeyBefore(sorted[i], sorted[j]) {
      assert KeyAtMost(sorted[i], sorted[j]) && sorted[i] != sorted[j];
    }
  }

  ghost predicate StrictlyAscending(keys: seq<Key>) {
    forall i, j {:trigger KeyBefore(keys[i], keys[j])} :: 0 <= i < j < |keys| ==> KeyBefore(keys[i], keys[j])
  }

  lemma ArrangedIsCatalog(hash: seq<Byte> -> Digest, s: Store, keys: seq<Key>)
    requires Consistent(hash, s) && Elements(keys) == s.records.Keys && |keys| == |s.records| && StrictlyAscending(keys)
    requires forall k :: k in keys ==> k in s.records
    ensures Catalog(s, Arranged(s.records, keys))
  {
    var list := Arranged(s.records, keys);
    forall n | 0 <= n < |list| ensures KeyOf(list[n]) == keys[n] {
      assert keys[n] in keys && Entry(hash, s, keys[n]);
    }
    forall i, j | 0 <= i < j < |list| ensures Ascending(list[i], list[j]) {
      assert KeyBefore(keys[i], keys[j]);
    }
    forall r ensures r in list <==> r in s.records.Values {
      if r in s.records.Values {
        var k :| k in s.records && s.records[k] == r;
        assert k in Elements(keys);
        var n :| 0 <= n < |keys| && keys[n] == k;
        assert list[n] == r;
      }
      if r in list {
        var n :| 0 <= n < |list| && list[n] == r;
        assert keys[n] in keys;
      }
    }
  }
}
