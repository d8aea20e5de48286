/** The restore that has no manifest, only a listing (rust-core/src/runtime.rs). */
module LegacyRestore {
  import opened Keys
  import opened Strings
  import opened Wrappers

  type Byte = b: nat | b < 256

  datatype Sha = Sha(of: seq<Byte>)

  /** A listed object and what reading it returns (None: an error). */
  datatype Listed = Listed(key: string, len: nat, bytes: Option<seq<Byte>>)

  datatype Segment = Segment(id: nat, key: string, offset: nat, len: nat, sha: Sha)

  predicate Readable(o: Listed) {
    SegmentId(o.key).Some? && o.bytes.Some? && |o.bytes.value| == o.len
  }

  /** What is wrong with an object, and its status: a failed read is passed on as it is. */
  predicate Unreadable(o: Listed, error: ApiError) {
    if SegmentId(o.key).None? then error == ApiError(503)
    else if o.bytes.None? then error == ApiError(500)
    else |o.bytes.value| != o.len && error == ApiError(503)
  }

  predicate AllReadable(listing: seq<Listed>) {
    forall i :: 0 <= i < |listing| ==> Readable(listing[i])
  }

  function BytesOf(o: Listed): seq<Byte> {
    if o.bytes.Some? then o.bytes.value else []
  }

  function FileOf(listing: seq<Listed>): seq<Byte> {
    if |listing| == 0 then []
    else FileOf(listing[..|listing| - 1]) + BytesOf(listing[|listing| - 1])
  }

  function ReferenceTo(o: Listed, offset: nat): Segment {
    Segment(if SegmentId(o.key).Some? then SegmentId(o.key).value else 0, o.key, offset, o.len, Sha(BytesOf(o)))
  }

  function SegmentsOf(listing: seq<Listed>): (segs: seq<Segment>)
    ensures |segs| == |listing|
  {
    if |listing| == 0 then []
    else
      var front := listing[..|listing| - 1];
      SegmentsOf(front) + [ReferenceTo(listing[|listing| - 1], |FileOf(front)|)]
  }

  /** Stable insertion by id. */
  function Insert(s: Segment, segs: seq<Segment>): (r: seq<Segment>)
    ensures |r| == |segs| + 1
  {
    if |segs| > 0 && s.id < segs[|segs| - 1].id then Insert(s, segs[..|segs| - 1]) + [segs[|segs| - 1]]
    else segs + [s]
  }

  function SortById(segs: seq<Segment>): (r: seq<Segment>)
    ensures |r| == |segs|
  {
    if |segs| == 0 then [] else Insert(segs[|segs| - 1], SortById(segs[..|segs| - 1]))
  }

  predicate ById(segs: seq<Segment>) {
    forall i, j :: 0 <= i < j < |segs| ==> segs[i].id <= segs[j].id
  }

  predicate AtMost(segs: seq<Segment>, id: nat) {
    forall i :: 0 <= i < |segs| ==> segs[i].id <= id
  }

  lemma {:induction false} InsertSorts(s: Segment, segs: seq<Segment>, bound: nat)
    requires ById(segs) && AtMost(segs, bound) && s.id <= bound
    ensures ById(Insert(s, segs)) && AtMost(Insert(s, segs), bound)
  {
    if |segs| > 0 && s.id < segs[|segs| - 1].id {
      var front, last := segs[..|segs| - 1], segs[|segs| - 1];
      InsertSorts(s, front, last.id);
      var inserted := Insert(s, front);
      forall i, j | 0 <= i < j < |inserted + [last]|
        ensures (inserted + [last])[i].id <= (inserted + [last])[j].id
      {
        assert inserted[i].id <= last.id;
      }
    }
  }

  lemma {:induction false} InsertKeeps(s: Segment, segs: seq<Segment>)
    ensures multiset(Insert(s, segs)) == multiset(segs) + multiset{s}
  {
    if |segs| > 0 && s.id < segs[|segs| - 1].id {
      InsertKeeps(s, segs[..|segs| - 1]);
      assert segs == segs[..|segs| - 1] + [segs[|segs| - 1]];
    }
  }

  lemma {:induction false} SortOrders(segs: seq<Segment>)
    ensures ById(SortById(segs))
  {
    if |segs| > 0 {
      var n := |segs| - 1;
      var front := SortById(segs[..n]);
      SortOrders(segs[..n]);
      InsertSorts(segs[n], front, if n > 0 && segs[n].id < front[n - 1].id then front[n - 1].id else segs[n].id);
    }
  }

  lemma {:induction false} SortKeeps(segs: seq<Segment>)
    ensures multiset(SortById(segs)) == multiset(segs)
  {
    if |segs| > 0 {
      var n := |segs| - 1;
      SortKeeps(segs[..n]);
      InsertKeeps(segs[n], SortById(segs[..n]));
      assert segs == segs[..n] + [segs[n]];
    }
  }

  lemma {:induction false} SortedStays(segs: seq<Segment>)
    requires ById(segs)
    ensures SortById(segs) == segs
  {
    if |segs| > 0 {
      var n := |segs| - 1;
      SortedStays(segs[..n]);
      assert segs == segs[..n] + [segs[n]];
      if n > 0 {
        assert segs[n - 1].id <= segs[n].id;
      }
    }
  }

  /** `sort_by_key`: in order, with the same segments, and nothing moved when already in order. */
  lemma SortSorts(segs: seq<Segment>)
    ensures ById(SortById(segs)) && multiset(SortById(segs)) == multiset(segs)
    ensures ById(segs) ==> SortById(segs) == segs
  {
    hide ById, SortById;
    SortOrders(segs);
    SortKeeps(segs);
    if ById(segs) {
      SortedStays(segs);
    }
  }

  function TotalLen(segs: seq<Segment>): nat {
    if |segs| == 0 then 0 else TotalLen(segs[..|segs| - 1]) + segs[|segs| - 1].len
  }

  function Renumber(segs: seq<Segment>): (r: seq<Segment>)
    ensures |r| == |segs|
  {
    if |segs| == 0 then []
    else
      var n := |segs| - 1;
      Renumber(segs[..n]) + [segs[n].(offset := TotalLen(segs[..n]))]
  }

  datatype Recovered = Recovered(file: seq<Byte>, segments: seq<Segment>)

  lemma ReadableSnoc(front: seq<Listed>, o: Listed)
    ensures AllReadable(front + [o]) <==> AllReadable(front) && Readable(o)
  {
    hide Readable;
    var all := front + [o];
    assert all[|front|] == o && forall i :: 0 <= i < |front| ==> all[i] == front[i];
  }

  /** Bytes go to the file in listing order; the references are sorted by id and renumbered. */
  method RestoreLegacyWal(listing: seq<Listed>) returns (r: Result<Recovered, ApiError>)
    ensures r.Success? <==> AllReadable(listing)
    ensures r.Success? ==> r.value == Recovered(FileOf(listing), Renumber(SortById(SegmentsOf(listing))))
    ensures r.Failure? ==> exists i :: 0 <= i < |listing| && AllReadable(listing[..i]) && Unreadable(listing[i], r.error)
  {
    hide SegmentId, SortById;
    var file: seq<Byte> := [];
    var recovered: seq<Segment> := [];
    var offset := 0;
    for i := 0 to |listing|
      invariant AllReadable(listing[..i])
      invariant file == FileOf(listing[..i]) && offset == |file|
      invariant recovered == SegmentsOf(listing[..i])
    {
      var next := listing[..i + 1];
      assert next[..i] == listing[..i] && next[i] == listing[i];
      var entry := listing[i];
      var id := SegmentId(entry.key);
      if id.None? {
        assert Unreadable(entry, ApiError(503));
        return Failure(ApiError(503));
      }
      if entry.bytes.None? {
        assert Unreadable(entry, ApiError(500));
        return Failure(ApiError(500));
      }
      var bytes := entry.bytes.value;
      if |bytes| != entry.len {
        assert Unreadable(entry, ApiError(503));
        return Failure(ApiError(503));
      }
      file := file + bytes;
      recovered := recovered + [Segment(id.value, entry.key, offset, |bytes|, Sha(bytes))];
      offset := offset + |bytes|;
      ReadableSnoc(listing[..i], entry);
      assert next == listing[..i] + [entry];
    }
    assert listing[..|listing|] == listing;
    recovered := SortById(recovered);
    var expected := 0;
    var numbered: seq<Segment> := [];
    for i := 0 to |recovered|
      invariant numbered == Renumber(recovered[..i]) && expected == TotalLen(recovered[..i])
    {
      assert recovered[..i + 1][..i] == recovered[..i];
      numbered := numbered + [recovered[i].(offset := expected)];
      expected := expected + recovered[i].len;
    }
    assert recovered[..|recovered|] == recovered;
    r := Success(Recovered(file, numbered));
  }

  /** The reference's offset and length pick out bytes with its own hash. */
  predicate AddressedBy(file: seq<Byte>, s: Segment) {
    s.offset + s.len <= |file| && Sha(file[s.offset..s.offset + s.len]) == s.sha
  }

  predicate Addresses(file: seq<Byte>, segs: seq<Segment>) {
    forall i :: 0 <= i < |segs| ==> AddressedBy(file, segs[i])
  }

  lemma LongerFile(file: seq<Byte>, more: seq<Byte>, s: Segment)
    requires AddressedBy(file, s)
    ensures AddressedBy(file + more, s)
  {
    assert (file + more)[s.offset..s.offset + s.len] == file[s.offset..s.offset + s.len];
  }

  lemma NewestAddressed(file: seq<Byte>, o: Listed)
    requires Readable(o)
    ensures AddressedBy(file + BytesOf(o), ReferenceTo(o, |file|))
  {
    hide SegmentId;
    assert (file + BytesOf(o))[|file|..|file| + o.len] == BytesOf(o);
  }

  lemma {:induction false} CollectedAddress(listing: seq<Listed>)
    requires AllReadable(listing)
    ensures Addresses(FileOf(listing), SegmentsOf(listing))
    ensures Renumber(SegmentsOf(listing)) == SegmentsOf(listing) && TotalLen(SegmentsOf(listing)) == |FileOf(listing)|
  {
    hide SegmentId, AddressedBy;
    if |listing| > 0 {
      var n := |listing| - 1;
      var front, last := listing[..n], listing[n];
      ReadableSnoc(front, last);
      assert listing == front + [last];
      CollectedAddress(front);
      var segs, short := SegmentsOf(front), FileOf(front);
      var s := ReferenceTo(last, |short|);
      assert SegmentsOf(listing)[..n] == segs;
      NewestAddressed(short, last);
      forall i | 0 <= i < |segs|
        ensures AddressedBy(FileOf(listing), segs[i])
      {
        LongerFile(short, BytesOf(last), segs[i]);
      }
    }
  }

  /** A listing in key order of objects whose keys are segment keys of one project. */
  predicate Canonical(project: string, listing: seq<Listed>, ids: seq<nat>) {
    && |ids| == |listing|
    && (forall i :: 0 <= i < |ids| ==> ids[i] < U64_LIMIT && listing[i].key == SegmentKey(project, ids[i]))
    && (forall i, j :: 0 <= i < j < |listing| ==> TextLess(listing[i].key, listing[j].key))
  }

  lemma {:induction false} SegmentAt(listing: seq<Listed>, i: nat)
    requires AllReadable(listing) && i < |listing|
    ensures SegmentsOf(listing)[i].key == listing[i].key
    ensures SegmentId(listing[i].key) == Some(SegmentsOf(listing)[i].id)
  {
    hide SegmentId;
    var n := |listing| - 1;
    if i < n {
      SegmentAt(listing[..n], i);
    }
  }

  /**
   Listing order is id order for real segment keys, so the sort moves nothing and every reference
   of a legacy restore addresses its own bytes.
   */
  lemma LegacyRestoreAddresses(project: string, listing: seq<Listed>, ids: seq<nat>)
    requires AllReadable(listing)
    requires Canonical(project, listing, ids)
    ensures
      var segs := Renumber(SortById(SegmentsOf(listing)));
      && Addresses(FileOf(listing), segs)
      && segs == SegmentsOf(listing)
      && (forall i :: 0 <= i < |segs| ==> segs[i].id == ids[i])
      && (forall i, j :: 0 <= i < j < |segs| ==> segs[i].id < segs[j].id)
  {
    hide SegmentId, SegmentKey, Readable, SortById, Renumber, Addresses, FileOf, SegmentsOf;
    var segs := SegmentsOf(listing);
    forall i | 0 <= i < |segs|
      ensures segs[i].id == ids[i]
    {
      SegmentAt(listing, i);
      SegmentKeyRoundTrip(project, ids[i]);
    }
    forall i, j | 0 <= i < j < |segs|
      ensures segs[i].id < segs[j].id
    {
      assert TextLess(listing[i].key, listing[j].key);
      SegmentKeyOrder(project, ids[i], ids[j]);
    }
    SortSorts(segs);
    CollectedAddress(listing);
  }

  /** Ids without padding list in another order than they sort: the references then go astray. */
  lemma UnpaddedKeysGoAstray()
    ensures
      var a, b := Listed("w/10.wal", 1, Some([1])), Listed("w/9.wal", 2, Some([2, 3]));
      && TextLess(a.key, b.key) && AllReadable([a, b])
      && !Addresses(FileOf([a, b]), Renumber(SortById(SegmentsOf([a, b]))))
  {
    hide SegmentId, SortById, Renumber, SegmentsOf, FileOf;
    var a, b := Listed("w/10.wal", 1, Some([1])), Listed("w/9.wal", 2, Some([2, 3]));
    LessAfterPrefix("w/", "10.wal", "9.wal");
    assert a.key == "w/" + "10.wal" && b.key == "w/" + "9.wal";
    assert Value("9"[..0]) == 0 && "10"[..1] == "1" && "1"[..0] == "" && Value("1") == 1;
    ShortId("10", 10);
    ShortId("9", 9);
    assert a.key == "w/" + "10" + ".wal" && b.key == "w/" + "9" + ".wal";
    var x, y := Segment(10, a.key, 0, 1, Sha([1])), Segment(9, b.key, 1, 2, Sha([2, 3]));
    TwoListed(a, b);
    assert SegmentsOf([a, b]) == [x, y] && FileOf([a, b]) == [1, 2, 3];
    TwoSwapped(x, y);
    var first := y.(offset := 0);
    assert [1, 2, 3][0..2] == [1, 2];
    assert !AddressedBy([1, 2, 3], first);
    assert Renumber(SortById([x, y]))[0] == first;
  }

  lemma TwoListed(a: Listed, b: Listed)
    ensures FileOf([a, b]) == BytesOf(a) + BytesOf(b)
    ensures SegmentsOf([a, b]) == [ReferenceTo(a, 0), ReferenceTo(b, |BytesOf(a)|)]
  {
    hide ReferenceTo, BytesOf;
    assert [a, b][..1] == [a] && [a][..0] == [];
    assert FileOf([a]) == [] + BytesOf(a) == BytesOf(a);
    assert SegmentsOf([a]) == [] + [ReferenceTo(a, 0)] == [ReferenceTo(a, 0)];
  }

  lemma TwoSwapped(x: Segment, y: Segment)
    requires y.id < x.id
    ensures Renumber(SortById([x, y])) == [y.(offset := 0), x.(offset := y.len)]
  {
    assert [x, y][..1] == [x] && [x][..0] == [];
    assert SortById([x]) == [x];
    assert [x][..0] == [] && Insert(y, []) == [y];
    assert Insert(y, [x]) == Insert(y, [x][..0]) + [x];
    assert SortById([x, y]) == Insert(y, SortById([x])) == [y, x];
    assert [y, x][..1] == [y] && [y][..0] == [];
    assert TotalLen([y]) == y.len;
    assert Renumber([y]) == [y.(offset := 0)];
  }
}
