/**
 The object store as the write path uses it, the durable manifest, and recovery from it
 (rust-core/src/object_store.rs; rust-core/src/runtime.rs, load_manifest to read_verified_object).
 */
module Storage {
  import opened Wrappers
  import opened Database

  /** The objects of one project that recovery may read; Keys gives their texts (`NameOf`). */
  datatype Key =
    | ManifestKey
    | SnapshotKey(generation: nat)
    | WalKey(id: nat)
    | ChangeLogKey(entry: nat)

  /** SHA-256, taken to be injective: a digest determines the bytes. */
  datatype Digest = Digest(of: Blob)

  datatype SnapshotRef = SnapshotRef(key: Key, bytes: nat, sha: Digest)

  datatype SegmentRef = SegmentRef(id: nat, key: Key, offset: nat, len: nat, sha: Digest)

  datatype Manifest = Manifest(
    generation: nat,
    commitSeq: nat,
    snapshot: SnapshotRef,
    durableBytes: nat,
    segments: seq<SegmentRef>,
    ops: nat)

  datatype Object = Data(blob: Blob) | Doc(manifest: Manifest) | Note

  type Store = map<Key, Object>

  const UNAVAILABLE := ApiError(503)

  /** What an error of the store itself becomes when it is passed on as it is. */
  const IO_ERROR := ApiError(500)

  // ---- Reading a manifest back ----------------------------------------

  function LoadManifest(store: Store): Result<Option<Manifest>, ApiError> {
    if ManifestKey !in store then Success(None)
    else match store[ManifestKey]
      case Doc(m) => Success(Some(m))
      case _ => Failure(UNAVAILABLE)
  }

  /** `read_verified_object`: length first, then digest. */
  function ReadVerified(store: Store, key: Key, len: nat, sha: Digest): Result<Blob, ApiError> {
    if key !in store || !store[key].Data? then Failure(UNAVAILABLE)
    else
      var blob := store[key].blob;
      if |blob| != len then Failure(UNAVAILABLE)
      else if Digest(blob) != sha then Failure(UNAVAILABLE)
      else Success(blob)
  }

  /** `restore_manifest_wal` from the segment expected at `offset` with id `id` (None: any). */
  function RestoreSegments(store: Store, segs: seq<SegmentRef>, offset: nat, id: Option<nat>): Result<Blob, ApiError> {
    if |segs| == 0 then Success([])
    else
      var s := segs[0];
      if id.Some? && s.id != id.value then Failure(UNAVAILABLE)
      else if s.offset != offset then Failure(UNAVAILABLE)
      else
        match ReadVerified(store, s.key, s.len, s.sha)
        case Failure(e) => Failure(e)
        case Success(bytes) =>
          match RestoreSegments(store, segs[1..], offset + s.len, Some(s.id + 1))
          case Failure(e) => Failure(e)
          case Success(rest) => Success(bytes + rest)
  }

  function RestoreWal(store: Store, m: Manifest): Result<Blob, ApiError> {
    match RestoreSegments(store, m.segments, 0, None)
    case Failure(e) => Failure(e)
    case Success(wal) => if |wal| != m.durableBytes then Failure(UNAVAILABLE) else Success(wal)
  }

  /** The database file and the WAL file that an open lays down. */
  datatype Image = Image(base: Blob, wal: Blob) {
    function Content(): Log {
      Committed(base) + Committed(wal)
    }
  }

  function Restore(store: Store, m: Manifest): Result<Image, ApiError> {
    match ReadVerified(store, m.snapshot.key, m.snapshot.bytes, m.snapshot.sha)
    case Failure(e) => Failure(e)
    case Success(base) =>
      match RestoreWal(store, m)
      case Failure(e) => Failure(e)
      case Success(wal) => Success(Image(base, wal))
  }

  // ---- What the writer shipped ----------------------------------------

  /** The WAL bytes the writer shipped in these segments: digests are injective. */
  function Shipped(segs: seq<SegmentRef>): Blob {
    if |segs| == 0 then []
    else Shipped(segs[..|segs| - 1]) + segs[|segs| - 1].sha.of
  }

  function ShippedImage(m: Manifest): Image {
    Image(m.snapshot.sha.of, Shipped(m.segments))
  }

  lemma {:induction false} ShippedConcat(a: seq<SegmentRef>, b: seq<SegmentRef>)
    ensures Shipped(a + b) == Shipped(a) + Shipped(b)
  {
    if |b| == 0 {
      assert a + b == a;
    } else {
      ShippedConcat(a, b[..|b| - 1]);
      assert (a + b)[..|a + b| - 1] == a + b[..|b| - 1];
    }
  }

  lemma ShippedPrefix(a: seq<SegmentRef>, b: seq<SegmentRef>)
    requires a <= b
    ensures Shipped(a) <= Shipped(b)
  {
    ShippedConcat(a, b[|a|..]);
    assert a + b[|a|..] == b;
  }

  lemma ShippedOne(s: SegmentRef)
    ensures Shipped([s]) == s.sha.of
  {
    assert [s][..0] == [];
  }

  // ---- Recovery fails closed ------------------------------------------

  /** The object is there with the recorded length and digest. */
  predicate Holds(store: Store, key: Key, len: nat, sha: Digest) {
    key in store && store[key] == Data(sha.of) && len == |sha.of|
  }

  predicate SegmentsHold(store: Store, segs: seq<SegmentRef>) {
    forall i :: 0 <= i < |segs| ==> Holds(store, segs[i].key, segs[i].len, segs[i].sha)
  }

  predicate Intact(store: Store, m: Manifest) {
    Holds(store, m.snapshot.key, m.snapshot.bytes, m.snapshot.sha) && SegmentsHold(store, m.segments)
  }

  function TotalLen(segs: seq<SegmentRef>): nat {
    if |segs| == 0 then 0 else TotalLen(segs[..|segs| - 1]) + segs[|segs| - 1].len
  }

  /** Ids are consecutive, offsets are running totals, and the total is the manifest's. */
  predicate Contiguous(m: Manifest) {
    && (forall i :: 0 < i < |m.segments| ==> m.segments[i].id == m.segments[i - 1].id + 1)
    && (forall i :: 0 <= i < |m.segments| ==> m.segments[i].offset == TotalLen(m.segments[..i]))
    && TotalLen(m.segments) == m.durableBytes
  }

  /**
   For every store, however corrupted: restore succeeds exactly when the manifest is
   contiguous and every object it names is intact, and then it yields exactly the bytes
   the writer shipped, as many as the manifest says.
   */
  lemma RestoreFailsClosed(store: Store, m: Manifest)
    ensures Restore(store, m).Success? <==> Contiguous(m) && Intact(store, m)
    ensures Restore(store, m).Success? ==>
              Restore(store, m).value == ShippedImage(m) && |Restore(store, m).value.wal| == m.durableBytes
  {
    hide RestoreSegments, TailOk, Contiguous, Shipped;
    var all := m.segments;
    assert all[0..] == all && all[..0] == [] && TotalLen([]) == 0;
    RestoreTail(store, all, 0);
    AllSegmentsOk(store, m);
    if TailOk(store, all, 0) {
      TailHolds(store, all);
      ShippedLength(store, all);
    }
  }

  lemma {:induction false} ShippedLength(store: Store, segs: seq<SegmentRef>)
    requires SegmentsHold(store, segs)
    ensures |Shipped(segs)| == TotalLen(segs)
  {
    if |segs| > 0 {
      ShippedLength(store, segs[..|segs| - 1]);
    }
  }

  /** Segment `i` is intact and sits where the segments before it end. */
  ghost predicate SegmentOk(store: Store, segs: seq<SegmentRef>, i: nat)
    requires i < |segs|
  {
    && Holds(store, segs[i].key, segs[i].len, segs[i].sha)
    && (0 < i ==> segs[i].id == segs[i - 1].id + 1)
    && segs[i].offset == TotalLen(segs[..i])
  }

  ghost predicate TailOk(store: Store, segs: seq<SegmentRef>, k: nat)
    requires k <= |segs|
  {
    forall i :: k <= i < |segs| ==> SegmentOk(store, segs, i)
  }

  lemma TailHolds(store: Store, segs: seq<SegmentRef>)
    requires TailOk(store, segs, 0)
    ensures SegmentsHold(store, segs)
  {
    hide Holds, TotalLen;
    forall i | 0 <= i < |segs|
      ensures Holds(store, segs[i].key, segs[i].len, segs[i].sha)
    {
      assert SegmentOk(store, segs, i);
    }
  }

  lemma AllSegmentsOk(store: Store, m: Manifest)
    ensures TailOk(store, m.segments, 0) && TotalLen(m.segments) == m.durableBytes
            <==> SegmentsHold(store, m.segments) && Contiguous(m)
  {
    hide TotalLen, Holds;
    if SegmentsHold(store, m.segments) && Contiguous(m) {
      forall i | 0 <= i < |m.segments|
        ensures SegmentOk(store, m.segments, i)
      {
      }
    } else if TailOk(store, m.segments, 0) {
      TailHolds(store, m.segments);
      forall i | 0 <= i < |m.segments|
        ensures 0 < i ==> m.segments[i].id == m.segments[i - 1].id + 1
        ensures m.segments[i].offset == TotalLen(m.segments[..i])
      {
        assert SegmentOk(store, m.segments, i);
      }
    }
  }

  lemma RestoreStep(store: Store, segs: seq<SegmentRef>, offset: nat, id: Option<nat>)
    requires |segs| > 0
    ensures
      var s := segs[0];
      var rest := RestoreSegments(store, segs[1..], offset + s.len, Some(s.id + 1));
      var r := RestoreSegments(store, segs, offset, id);
      && (r.Success? <==> (id.Some? ==> s.id == id.value) && s.offset == offset
                          && Holds(store, s.key, s.len, s.sha) && rest.Success?)
      && (r.Success? ==> r.value == s.sha.of + rest.value)
  {
  }

  ghost predicate TailClaim(store: Store, segs: seq<SegmentRef>, k: nat)
    requires k <= |segs|
  {
    var id := if k == 0 then None else Some(segs[k - 1].id + 1);
    var r := RestoreSegments(store, segs[k..], TotalLen(segs[..k]), id);
    && (r.Success? <==> TailOk(store, segs, k))
    && (r.Success? ==> r.value == Shipped(segs[k..]))
  }

  lemma {:induction false} RestoreTail(store: Store, segs: seq<SegmentRef>, k: nat)
    requires k <= |segs|
    ensures TailClaim(store, segs, k)
    decreases |segs| - k
  {
    if k < |segs| {
      RestoreTail(store, segs, k + 1);
      TailClaimStep(store, segs, k);
    } else {
      assert segs[k..] == [];
    }
  }

  lemma TailClaimStep(store: Store, segs: seq<SegmentRef>, k: nat)
    requires k < |segs| && TailClaim(store, segs, k + 1)
    ensures TailClaim(store, segs, k)
  {
    hide RestoreSegments, Shipped, TailOk, TotalLen, Holds;
    var id := if k == 0 then None else Some(segs[k - 1].id + 1);
    RestoreStep(store, segs[k..], TotalLen(segs[..k]), id);
    TailStep(store, segs, k);
  }

  lemma TailStep(store: Store, segs: seq<SegmentRef>, k: nat)
    requires k < |segs|
    ensures segs[k..][0] == segs[k] && segs[k..][1..] == segs[k + 1..]
    ensures TotalLen(segs[..k + 1]) == TotalLen(segs[..k]) + segs[k].len
    ensures Shipped(segs[k..]) == segs[k].sha.of + Shipped(segs[k + 1..])
    ensures TailOk(store, segs, k) <==> TailOk(store, segs, k + 1) && SegmentOk(store, segs, k)
  {
    hide SegmentOk, Shipped;
    assert segs[..k + 1][..k] == segs[..k] && segs[..k + 1][k] == segs[k];
    ShippedConcat([segs[k]], segs[k + 1..]);
    ShippedOne(segs[k]);
    assert [segs[k]] + segs[k + 1..] == segs[k..];
  }

  // ---- The store itself ------------------------------------------------

  /**
   One shared object store. A PUT or delete either takes effect and reports success or
   changes nothing and reports failure; `readFaults` counts the reads that failed although
   the store could have answered.
   */
  class ObjectStore {
    var objects: Store
    /** Reads that answered with an error of their own, and PUTs and deletes that failed. */
    ghost var readFaults: nat
    ghost var writeFaults: nat

    constructor ()
      ensures objects == map[] && readFaults == 0 && writeFaults == 0
    {
      objects := map[];
      readFaults, writeFaults := 0, 0;
    }

    method Put(key: Key, data: Object) returns (ok: bool)
      modifies this
      ensures readFaults == old(readFaults)
      ensures objects == if ok then old(objects)[key := data] else old(objects)
      ensures writeFaults == old(writeFaults) + if ok then 0 else 1
    {
      ok := *;
      if ok {
        objects := objects[key := data];
      } else {
        writeFaults := writeFaults + 1;
      }
    }

    method Read(key: Key) returns (r: Result<Object, ApiError>)
      modifies this`readFaults
      ensures r.Success? ==> key in objects && r.value == objects[key]
      ensures readFaults == old(readFaults) ==> (r.Success? <==> key in objects)
      ensures readFaults >= old(readFaults)
    {
      var fault: bool := *;
      if fault {
        readFaults := readFaults + 1;
        return Failure(IO_ERROR);
      }
      if key !in objects {
        return Failure(IO_ERROR);
      }
      return Success(objects[key]);
    }

    /** `exists`: a HEAD request, which can fail too. */
    method Exists(key: Key) returns (r: Result<bool, ApiError>)
      modifies this`readFaults
      ensures r.Success? ==> r.value == (key in objects)
      ensures readFaults == old(readFaults) ==> r.Success?
      ensures readFaults >= old(readFaults)
    {
      var fault: bool := *;
      if fault {
        readFaults := readFaults + 1;
        return Failure(IO_ERROR);
      }
      return Success(key in objects);
    }

    /**
     `delete_prefix` on the WAL prefix: lists the segments, then deletes them one by one, and
     stops at the first delete that fails.
     */
    method DeleteWalPrefix() returns (ok: bool, ghost gone: set<Key>)
      modifies this`objects, this`writeFaults
      ensures writeFaults == old(writeFaults) + if ok then 0 else 1
      ensures gone <= old(objects).Keys && (forall k :: k in gone ==> k.WalKey?)
      ensures objects == old(objects) - gone
      ensures ok ==> forall k :: k in objects ==> !k.WalKey?
    {
      var listed := set k | k in objects && k.WalKey?;
      var left := listed;
      gone := {};
      ok := true;
      while left != {} && ok
        invariant left <= listed && gone == listed - left
        invariant objects == old(objects) - gone
        invariant writeFaults == old(writeFaults) + if ok then 0 else 1
        decreases |left|, ok
      {
        var key :| key in left;
        ok := *;
        if ok {
          assert objects - {key} == old(objects) - (gone + {key});
          objects := objects - {key};
          gone := gone + {key};
          left := left - {key};
        } else {
          writeFaults := writeFaults + 1;
        }
      }
    }
  }
}
