/** Bookmarks and object names, zero-padded so that text order is numeric order (rust-core/src/runtime_utils.rs). */
module Keys {
  import opened Strings
  import opened Wrappers
  import Storage

  // ---- Bookmarks ----------------------------------------------------------------

  function BookmarkForSeq(n: nat): string {
    "sdb1-" + Pad(n, 20)
  }

  function BookmarkToSeq(bookmark: string): Result<nat, ApiError> {
    var raw := Trim(bookmark);
    if !("sdb1-" <= raw) then Failure(ApiError(400))
    else
      match ParseU64(raw[5..])
      case Some(n) => Success(n)
      case None => Failure(ApiError(400))
  }

  lemma TrimSolid(s: string)
    requires |s| > 0 && !IsSpace(s[0]) && !IsSpace(s[|s| - 1])
    ensures Trim(s) == s
  {
  }

  /** Every 64-bit sequence number survives its bookmark. */
  lemma BookmarkRoundTrip(n: nat)
    requires n < U64_LIMIT
    ensures BookmarkToSeq(BookmarkForSeq(n)) == Success(n)
  {
    hide Pad, Pow10, Value, ParseU64, IsSpace, Trim;
    var b := BookmarkForSeq(n);
    U64FitsTwentyDigits();
    PadValue(n, 20);
    PadParses(n);
    assert b[0] == 's' && b[|b| - 1] == Pad(n, 20)[19] && IsDigit(Pad(n, 20)[19]);
    SolidCharacters(b[|b| - 1]);
    TrimSolid(b);
    assert b[5..] == Pad(n, 20) && b[..5] == "sdb1-";
  }

  lemma SolidCharacters(digit: char)
    requires IsDigit(digit)
    ensures !IsSpace(digit) && !IsSpace('s')
  {
  }

  /** Bookmarks sort as text the way their sequence numbers do. */
  lemma BookmarkOrder(n: nat, m: nat)
    requires n < U64_LIMIT && m < U64_LIMIT
    ensures TextLess(BookmarkForSeq(n), BookmarkForSeq(m)) <==> n < m
  {
    U64FitsTwentyDigits();
    LessAfterPrefix("sdb1-", Pad(n, 20), Pad(m, 20));
    PadOrder(n, m, 20);
  }

  // ---- Object names -----------------------------------------------------------------

  datatype Name =
    | ManifestName
    | SnapshotName(generation: nat)
    | SegmentName(id: nat)
    | LeaseName
    | ClaimName(token: nat)
    | ChangeLogName(ms: nat, ops: nat, reason: string)

  predicate Fits(name: Name) {
    match name
    case SnapshotName(g) => g < U64_LIMIT
    case SegmentName(id) => id < U64_LIMIT
    case ClaimName(t) => t < U64_LIMIT
    case _ => true
  }

  /** The name of an object of the write path; a change-log entry also has a time and a reason. */
  function NameOf(key: Storage.Key, ms: nat, reason: string): Name {
    match key
    case ManifestKey => ManifestName
    case SnapshotKey(g) => SnapshotName(g)
    case WalKey(id) => SegmentName(id)
    case ChangeLogKey(ops) => ChangeLogName(ms, ops, reason)
  }

  function ProjectPrefix(project: string): string {
    "projects/" + project + "/"
  }

  function LocalName(name: Name): string {
    match name
    case ManifestName => "manifest.json"
    case SnapshotName(g) => "snapshots/" + Pad(g, 20) + ".sqlite"
    case SegmentName(id) => "wal/" + Pad(id, 20) + ".wal"
    case LeaseName => "writer-lease.json"
    case ClaimName(t) => "writer-lease-claims/" + Pad(t, 20) + ".json"
    case ChangeLogName(ms, ops, reason) => "change-log/" + Show(ms) + "-" + Pad(ops, 20) + "-" + reason + ".json"
  }

  function ObjectName(project: string, name: Name): string {
    ProjectPrefix(project) + LocalName(name)
  }

  function WalPrefix(project: string): string {
    ProjectPrefix(project) + "wal"
  }

  lemma NumberedDistinct(p: string, tail: string, n: nat, m: nat)
    requires n < U64_LIMIT && m < U64_LIMIT && p + Pad(n, 20) + tail == p + Pad(m, 20) + tail
    ensures n == m
  {
    U64FitsTwentyDigits();
    var a, b := p + Pad(n, 20) + tail, p + Pad(m, 20) + tail;
    assert Pad(n, 20) == a[|p|..|p| + 20] && Pad(m, 20) == b[|p|..|p| + 20];
    PadOrder(n, m, 20);
  }

  /** Which kind of object a name is for shows in its text. */
  lemma KindsDiffer(a: Name, b: Name)
    requires LocalName(a) == LocalName(b)
    ensures
      && (a.ManifestName? <==> b.ManifestName?) && (a.SnapshotName? <==> b.SnapshotName?)
      && (a.SegmentName? <==> b.SegmentName?) && (a.LeaseName? <==> b.LeaseName?)
      && (a.ClaimName? <==> b.ClaimName?) && (a.ChangeLogName? <==> b.ChangeLogName?)
  {
    hide Pad, Show;
    assert LocalName(a)[0] == LocalName(b)[0] && LocalName(a)[1] == LocalName(b)[1];
    if a.LeaseName? || a.ClaimName? {
      assert LocalName(a)[12] == LocalName(b)[12];
    }
  }

  /** No two objects of a project share a key, whatever their 64-bit numbers; change-log entries apart. */
  lemma NamesDistinct(project: string, a: Name, b: Name)
    requires Fits(a) && Fits(b) && !a.ChangeLogName?
    ensures ObjectName(project, a) == ObjectName(project, b) <==> a == b
  {
    if ObjectName(project, a) == ObjectName(project, b) {
      var p := ProjectPrefix(project);
      assert LocalName(a) == ObjectName(project, a)[|p|..] && LocalName(b) == ObjectName(project, b)[|p|..];
      KindsDiffer(a, b);
      match a
      case SnapshotName(g) => NumberedDistinct("snapshots/", ".sqlite", g, b.generation);
      case SegmentName(id) => NumberedDistinct("wal/", ".wal", id, b.id);
      case ClaimName(t) => NumberedDistinct("writer-lease-claims/", ".json", t, b.token);
      case _ =>
    }
  }

  /** Keys that differ are stored under texts that differ, change-log entries among themselves apart. */
  lemma KeysHaveOwnTexts(project: string, a: Storage.Key, b: Storage.Key, ms: nat, reason: string)
    requires Fits(NameOf(a, ms, reason)) && Fits(NameOf(b, ms, reason)) && !a.ChangeLogKey?
    ensures ObjectName(project, NameOf(a, ms, reason)) == ObjectName(project, NameOf(b, ms, reason)) <==> a == b
    ensures WalPrefix(project) <= ObjectName(project, NameOf(a, ms, reason)) <==> a.WalKey?
  {
    hide ObjectName, LocalName, WalPrefix;
    NamesDistinct(project, NameOf(a, ms, reason), NameOf(b, ms, reason));
    WalPrefixIsSegments(project, NameOf(a, ms, reason));
  }

  /** Deleting or listing the WAL prefix reaches the segments and nothing else. */
  lemma WalPrefixIsSegments(project: string, name: Name)
    ensures WalPrefix(project) <= ObjectName(project, name) <==> name.SegmentName?
  {
    hide ProjectPrefix, LocalName;
    SamePrefix(ProjectPrefix(project), "wal", LocalName(name));
    LocalWalNames(name);
  }

  lemma SamePrefix(p: string, a: string, b: string)
    ensures p + a <= p + b <==> a <= b
  {
    if p + a <= p + b {
      assert forall i :: 0 <= i < |a| ==> a[i] == (p + a)[|p| + i] == (p + b)[|p| + i] == b[i];
    }
  }

  lemma LocalWalNames(name: Name)
    ensures "wal" <= LocalName(name) <==> name.SegmentName?
  {
    hide Pad, Show;
    var text := LocalName(name);
    if name.SegmentName? {
      assert text == "wal" + ("/" + Pad(name.id, 20) + ".wal");
    } else {
      assert text[0] != 'w' || text[1] != 'a';
      assert "wal"[0] == 'w' && "wal"[1] == 'a';
    }
  }

  function SegmentKey(project: string, id: nat): string {
    WalPrefix(project) + "/" + Pad(id, 20) + ".wal"
  }

  predicate EndsWith(s: string, tail: string) {
    |tail| <= |s| && s[|s| - |tail|..] == tail
  }

  /** `wal_segment_id`: the last path component without its suffix, as a number. */
  function SegmentId(key: string): Option<nat> {
    var pieces := Split(key, '/');
    var name := pieces[|pieces| - 1];
    if EndsWith(name, ".wal") then ParseU64(name[..|name| - 4]) else None
  }

  lemma DigitsHaveNoSlash(s: string)
    requires AllDigits(s)
    ensures '/' !in s
  {
  }

  /** Every 64-bit segment id survives its key, in any project. */
  lemma SegmentKeyRoundTrip(project: string, id: nat)
    requires id < U64_LIMIT
    ensures SegmentId(SegmentKey(project, id)) == Some(id)
  {
    U64FitsTwentyDigits();
    PadValue(id, 20);
    PadParses(id);
    DigitsHaveNoSlash(Pad(id, 20));
    var name := Pad(id, 20) + ".wal";
    assert '/' !in ".wal";
    SplitSnoc(WalPrefix(project), '/', name);
    assert SegmentKey(project, id) == WalPrefix(project) + ['/'] + name;
    assert name[|name| - 4..] == ".wal" && name[..|name| - 4] == Pad(id, 20);
  }

  /** Segment keys sort as text the way their ids do. */
  lemma SegmentKeyOrder(project: string, n: nat, m: nat)
    requires n < U64_LIMIT && m < U64_LIMIT
    ensures TextLess(SegmentKey(project, n), SegmentKey(project, m)) <==> n < m
  {
    U64FitsTwentyDigits();
    var p := WalPrefix(project) + "/";
    assert SegmentKey(project, n) == p + (Pad(n, 20) + ".wal") && SegmentKey(project, m) == p + (Pad(m, 20) + ".wal");
    LessAfterPrefix(p, Pad(n, 20) + ".wal", Pad(m, 20) + ".wal");
    LessSameLength(Pad(n, 20), Pad(m, 20), ".wal", ".wal");
    LessIrreflexive(".wal");
    PadOrder(n, m, 20);
  }

  lemma ShortId(digits: string, n: nat)
    requires |digits| > 0 && AllDigits(digits) && Value(digits) == n < U64_LIMIT
    ensures SegmentId("w/" + digits + ".wal") == Some(n)
  {
    hide Split, Value;
    DigitsHaveNoSlash(digits);
    var name := digits + ".wal";
    assert '/' !in ".wal";
    SplitSnoc("w", '/', name);
    var key := "w/" + digits + ".wal";
    assert key == "w" + ['/'] + name;
    var pieces := Split(key, '/');
    assert pieces[|pieces| - 1] == name;
    assert name[|name| - 4..] == ".wal" && name[..|name| - 4] == digits;
    assert IsDigit(digits[0]);
  }

  // ---- The texts themselves -------------------------------------------------------------------

  /** A bookmark is `sdb1-` and twenty digits of the sequence. */
  lemma BookmarkText(n: nat)
    requires n < U64_LIMIT
    ensures
      var b := BookmarkForSeq(n);
      && |b| == 25 && b[..5] == "sdb1-" && AllDigits(b[5..]) && Value(b[5..]) == n
  {
    U64FitsTwentyDigits();
    PadValue(n, 20);
    var b := BookmarkForSeq(n);
    assert b[5..] == Pad(n, 20) && b[..5] == "sdb1-";
  }

  /** A text is a bookmark iff, blanks around it aside, it is `sdb1-` and a 64-bit number; anything else is 400. */
  lemma BookmarksInPlain(text: string)
    ensures
      var t := Trim(text);
      && (BookmarkToSeq(text).Success? <==> "sdb1-" <= t && ParseU64(t[5..]).Some?)
      && (BookmarkToSeq(text).Success? ==> ParseU64(t[5..]) == Some(BookmarkToSeq(text).value))
      && (BookmarkToSeq(text).Failure? ==> BookmarkToSeq(text).error == ApiError(400))
  {
  }

  /** Every object is stored under its project, a number as twenty digits. */
  lemma ObjectTexts(project: string, n: nat)
    requires n < U64_LIMIT
    ensures ObjectName(project, ManifestName) == "projects/" + project + "/" + "manifest.json"
    ensures ObjectName(project, LeaseName) == "projects/" + project + "/" + "writer-lease.json"
    ensures exists digits: string :: |digits| == 20 && AllDigits(digits) && Value(digits) == n
              && ObjectName(project, SnapshotName(n)) == "projects/" + project + "/" + ("snapshots/" + digits + ".sqlite")
              && ObjectName(project, SegmentName(n)) == "projects/" + project + "/" + ("wal/" + digits + ".wal")
              && ObjectName(project, ClaimName(n)) == "projects/" + project + "/" + ("writer-lease-claims/" + digits + ".json")
  {
    U64FitsTwentyDigits();
    PadValue(n, 20);
    var digits := Pad(n, 20);
    hide Pad;
    assert ObjectName(project, SegmentName(n)) == "projects/" + project + "/" + ("wal/" + digits + ".wal");
  }
}
