/** Forwarded reads: the URI a read is printed to and the query it is parsed from (rust-core/src/http.rs). */
module Uri {
  import opened Strings
  import opened Wrappers

  // ---- Percent-encoding ----------------------------------------------------------

  /** Text as its UTF-8 bytes, one character a byte. */
  predicate IsBytes(s: string) {
    forall i :: 0 <= i < |s| ==> s[i] as int < 256
  }

  /** Section 2.3 of RFC 3986. */
  predicate Unreserved(c: char) {
    'a' <= c <= 'z' || 'A' <= c <= 'Z' || '0' <= c <= '9' || c == '-' || c == '_' || c == '.' || c == '~'
  }

  function HexDigit(n: nat): char
    requires n < 16
  {
    "0123456789ABCDEF"[n]
  }

  function HexValue(c: char): Option<nat> {
    if '0' <= c <= '9' then Some(c as int - '0' as int)
    else if 'A' <= c <= 'F' then Some(c as int - 'A' as int + 10)
    else if 'a' <= c <= 'f' then Some(c as int - 'a' as int + 10)
    else None
  }

  function EncodeByte(c: char): string
    requires c as int < 256
  {
    if Unreserved(c) then [c] else ['%', HexDigit(c as int / 16), HexDigit(c as int % 16)]
  }

  function Encode(s: string): string
    requires IsBytes(s)
  {
    if |s| == 0 then "" else EncodeByte(s[0]) + Encode(s[1..])
  }

  /** Form decoding (section 2.1 of RFC 3986, and a plus sign for a space). */
  function Decode(s: string): string {
    if |s| == 0 then ""
    else if s[0] == '%' && |s| >= 3 && HexValue(s[1]).Some? && HexValue(s[2]).Some? then
      [(16 * HexValue(s[1]).value + HexValue(s[2]).value) as char] + Decode(s[3..])
    else (if s[0] == '+' then " " else [s[0]]) + Decode(s[1..])
  }

  lemma {:induction false} EncodeConcat(a: string, b: string)
    requires IsBytes(a) && IsBytes(b)
    ensures Encode(a + b) == Encode(a) + Encode(b)
  {
    if |a| == 0 {
      assert a + b == b;
    } else {
      EncodeConcat(a[1..], b);
      assert (a + b)[1..] == a[1..] + b;
    }
  }

  /** `percent_encode`, byte by byte. */
  method PercentEncode(value: string) returns (out: string)
    requires IsBytes(value)
    ensures out == Encode(value)
  {
    out := "";
    for i := 0 to |value|
      invariant out == Encode(value[..i])
    {
      var byte := value[i];
      EncodeConcat(value[..i], [byte]);
      assert value[..i + 1] == value[..i] + [byte] && [byte][1..] == "";
      if Unreserved(byte) {
        out := out + [byte];
      } else {
        out := out + ['%', HexDigit(byte as int / 16), HexDigit(byte as int % 16)];
      }
    }
    assert value[..|value|] == value;
  }

  lemma HexRoundTrip(n: nat)
    requires n < 16
    ensures HexValue(HexDigit(n)) == Some(n) && Unreserved(HexDigit(n))
  {
    assert "0123456789ABCDEF"[n] == if n < 10 then ('0' as int + n) as char else ('A' as int + n - 10) as char;
  }

  /** Decoding gives back every byte. */
  lemma {:induction false} EncodeRoundTrip(s: string)
    requires IsBytes(s)
    ensures Decode(Encode(s)) == s
  {
    if |s| > 0 {
      var c, code := s[0], Encode(s);
      EncodeRoundTrip(s[1..]);
      if Unreserved(c) {
        assert code[1..] == Encode(s[1..]);
      } else {
        HexRoundTrip(c as int / 16);
        HexRoundTrip(c as int % 16);
        assert code[3..] == Encode(s[1..]);
        assert 16 * (c as int / 16) + c as int % 16 == c as int;
      }
      assert s == [c] + s[1..];
    }
  }

  /** The code is made of unreserved characters and percent signs: no separator of a URI. */
  lemma {:induction false} EncodeEmitsNoSeparator(s: string)
    requires IsBytes(s)
    ensures forall c :: c in Encode(s) ==> Unreserved(c) || c == '%'
    ensures forall c :: c in {'&', '=', '?', '+', '/', '#', ' '} ==> c !in Encode(s)
  {
    if |s| > 0 {
      EncodeEmitsNoSeparator(s[1..]);
      if !Unreserved(s[0]) {
        HexRoundTrip(s[0] as int / 16);
        HexRoundTrip(s[0] as int % 16);
      }
    }
  }

  predicate Plain(s: string) {
    forall i :: 0 <= i < |s| ==> Unreserved(s[i])
  }

  lemma {:induction false} PlainTextIsItsCode(s: string)
    requires Plain(s)
    ensures IsBytes(s) && Encode(s) == s
  {
    if |s| > 0 {
      PlainTextIsItsCode(s[1..]);
      assert s == [s[0]] + s[1..];
    }
  }

  lemma DigitsArePlain(s: string)
    requires AllDigits(s)
    ensures Plain(s)
  {
  }

  // ---- Queries -----------------------------------------------------------------------

  datatype ReadSession = FirstUnconstrained | FirstPrimary | Bookmark

  datatype ReadQuery = ReadQuery(
    filters: map<string, string>, limit: nat, bookmark: Option<string>,
    session: ReadSession, region: Option<string>)

  function SessionName(s: ReadSession): string {
    match s
    case FirstUnconstrained => "first-unconstrained"
    case FirstPrimary => "first-primary"
    case Bookmark => "bookmark"
  }

  function ParseSession(name: string): Option<ReadSession> {
    if name == "first-primary" then Some(FirstPrimary)
    else if name == "first-unconstrained" then Some(FirstUnconstrained)
    else if name == "bookmark" then Some(Bookmark)
    else None
  }

  function NonEmpty(s: string): Option<string> {
    if |s| == 0 then None else Some(s)
  }

  /** The first of two headers that is there; an empty value counts as none. */
  function Header(headers: map<string, string>, first: string, second: string): Option<string> {
    if first in headers then NonEmpty(headers[first])
    else if second in headers then NonEmpty(headers[second])
    else None
  }

  /** The keys that start with `eq.`, without it. */
  function Columns(query: map<string, string>): set<string> {
    set k | k in query && "eq." <= k :: k[3..]
  }

  function Filters(query: map<string, string>): map<string, string> {
    map column | column in Columns(query) && "eq." + column in query :: query["eq." + column]
  }

  function TextParam(query: map<string, string>, key: string, other: Option<string>): Option<string> {
    if key in query && |query[key]| > 0 then Some(query[key]) else other
  }

  function LimitParam(query: map<string, string>): nat {
    if "limit" in query && ParseU64(query["limit"]).Some? then ParseU64(query["limit"]).value else 100
  }

  /** What a query map and its headers ask for, whatever order the map is gone through. */
  function ParseReadQuery(query: map<string, string>, headers: map<string, string>): Result<ReadQuery, ApiError> {
    if "session" in query && ParseSession(query["session"]).None? then Failure(ApiError(400))
    else
      Success(ReadQuery(
        Filters(query),
        LimitParam(query),
        TextParam(query, "bookmark", Header(headers, "x-d1-bookmark", "x-sdb-bookmark")),
        if "session" in query then ParseSession(query["session"]).value else FirstUnconstrained,
        TextParam(query, "route_region", Header(headers, "x-sdb-region", "x-d1-region"))))
  }

  /** `read_query` goes through the map in no particular order. */
  method ReadQueryOf(query: map<string, string>, headers: map<string, string>) returns (r: Result<ReadQuery, ApiError>)
    ensures r == ParseReadQuery(query, headers)
  {
    hide Filters, LimitParam, TextParam, ParseU64, ParseSession, Header;
    var filters: map<string, string> := map[];
    NoParams(headers);
    var limit, session := 100, FirstUnconstrained;
    var region := Header(headers, "x-sdb-region", "x-d1-region");
    var bookmark := Header(headers, "x-d1-bookmark", "x-sdb-bookmark");
    var todo := query.Keys;
    ghost var done: map<string, string> := map[];
    while todo != {}
      invariant done.Keys == query.Keys - todo && todo <= query.Keys
      invariant forall k :: k in done ==> done[k] == query[k]
      invariant ParseReadQuery(done, headers) == Success(ReadQuery(filters, limit, bookmark, session, region))
      decreases |todo|
    {
      var key :| key in todo;
      var value := query[key];
      todo := todo - {key};
      NextParam(done, key, value, Header(headers, "x-d1-bookmark", "x-sdb-bookmark"));
      NextParam(done, key, value, Header(headers, "x-sdb-region", "x-d1-region"));
      done := done[key := value];
      if "eq." <= key {
        filters := filters[key[3..] := value];
      } else if key == "limit" {
        var parsed := ParseU64(value);
        limit := if parsed.Some? then parsed.value else 100;
      } else if key == "bookmark" {
        if |value| > 0 {
          bookmark := Some(value);
        }
      } else if key == "session" {
        var parsed := ParseSession(value);
        if parsed.None? {
          return Failure(ApiError(400));
        }
        session := parsed.value;
      } else if key == "route_region" {
        if |value| > 0 {
          region := Some(value);
        }
      }
    }
    assert done == query;
    r := Success(ReadQuery(filters, limit, bookmark, session, region));
  }

  lemma FiltersHold(query: map<string, string>, column: string)
    ensures column in Filters(query) <==> "eq." + column in query
    ensures column in Filters(query) ==> Filters(query)[column] == query["eq." + column]
  {
    var key := "eq." + column;
    assert key[3..] == column;
    if key in query {
      assert "eq." <= key && column in Columns(query);
    }
  }

  lemma NextFilter(done: map<string, string>, key: string, value: string)
    requires key !in done
    ensures Filters(done[key := value]) == if "eq." <= key then Filters(done)[key[3..] := value] else Filters(done)
  {
    hide Filters;
    var next := done[key := value];
    var expected := if "eq." <= key then Filters(done)[key[3..] := value] else Filters(done);
    forall column: string
      ensures column in Filters(next) <==> column in expected
      ensures column in expected ==> Filters(next)[column] == expected[column]
    {
      FiltersHold(done, column);
      FiltersHold(next, column);
      if "eq." <= key {
        assert key == "eq." + key[3..];
        assert ("eq." + column)[3..] == column;
      } else {
        assert "eq." + column != key;
      }
    }
    assert Filters(next) == expected;
  }

  lemma NoParams(headers: map<string, string>)
    ensures
      ParseReadQuery(map[], headers)
      == Success(ReadQuery(map[], 100, Header(headers, "x-d1-bookmark", "x-sdb-bookmark"), FirstUnconstrained,
                           Header(headers, "x-sdb-region", "x-d1-region")))
  {
    hide Header, Filters, ParseU64;
    forall column: string
      ensures column !in Filters(map[])
    {
      FiltersHold(map[], column);
    }
    assert Filters(map[]) == map[];
  }

  lemma NextParam(done: map<string, string>, key: string, value: string, other: Option<string>)
    requires key !in done
    ensures
      var next := done[key := value];
      && Filters(next) == (if "eq." <= key then Filters(done)[key[3..] := value] else Filters(done))
      && LimitParam(next)
         == (if key != "limit" then LimitParam(done) else if ParseU64(value).Some? then ParseU64(value).value else 100)
      && TextParam(next, "bookmark", other)
         == (if key == "bookmark" && |value| > 0 then Some(value) else TextParam(done, "bookmark", other))
      && TextParam(next, "route_region", other)
         == (if key == "route_region" && |value| > 0 then Some(value) else TextParam(done, "route_region", other))
      && ("eq." <= key ==> key != "limit" && key != "bookmark" && key != "session" && key != "route_region")
  {
    NextFilter(done, key, value);
    hide Filters, ParseU64;
    if "eq." <= key {
      assert key[0] == 'e';
    }
  }

  // ---- Printing ------------------------------------------------------------------------

  type Entries = seq<(string, string)>

  function Optional(present: bool, key: string, value: string): Entries {
    if present then [(key, value)] else []
  }

  /** What a query can hold: byte text, a 64-bit limit, and no empty bookmark or region. */
  predicate ValidQuery(q: ReadQuery) {
    && q.limit < U64_LIMIT
    && (forall c :: c in q.filters ==> IsBytes(c) && IsBytes(q.filters[c]))
    && (q.bookmark.Some? ==> IsBytes(q.bookmark.value) && |q.bookmark.value| > 0)
    && (q.region.Some? ==> IsBytes(q.region.value) && |q.region.value| > 0)
  }

  /** One way of going through the filters, each once. */
  predicate Enumerates(order: seq<string>, filters: map<string, string>) {
    && (forall i :: 0 <= i < |order| ==> order[i] in filters)
    && (forall c :: c in filters ==> c in order)
    && (forall i, j :: 0 <= i < j < |order| ==> order[i] != order[j])
  }

  function FilterEntries(filters: map<string, string>, order: seq<string>): (es: Entries)
    ensures |es| == |order|
  {
    if |order| == 0 then []
    else
      var last := order[|order| - 1];
      FilterEntries(filters, order[..|order| - 1]) + [("eq." + last, if last in filters then filters[last] else "")]
  }

  function OtherEntries(q: ReadQuery): Entries {
    Optional(q.limit != 100, "limit", Show(q.limit))
    + Optional(q.session != FirstUnconstrained, "session", SessionName(q.session))
    + Optional(q.bookmark.Some?, "bookmark", if q.bookmark.Some? then q.bookmark.value else "")
    + Optional(q.region.Some?, "route_region", if q.region.Some? then q.region.value else "")
  }

  function QueryEntries(q: ReadQuery, order: seq<string>): Entries
    requires Enumerates(order, q.filters)
  {
    FilterEntries(q.filters, order) + OtherEntries(q)
  }

  predicate AllBytes(es: Entries) {
    forall i :: 0 <= i < |es| ==> IsBytes(es[i].0) && IsBytes(es[i].1)
  }

  function PairText(e: (string, string)): string
    requires IsBytes(e.0) && IsBytes(e.1)
  {
    Encode(e.0) + "=" + Encode(e.1)
  }

  function PairTexts(es: Entries): (r: seq<string>)
    requires AllBytes(es)
    ensures |r| == |es|
  {
    seq(|es|, i requires 0 <= i < |es| => PairText(es[i]))
  }

  function WithQuery(path: string, pairs: seq<string>): string {
    if |pairs| == 0 then path else path + "?" + Joined(pairs, '&')
  }

  /** Parameter names, and what needs no encoding in the values. */
  lemma PlainParts(q: ReadQuery)
    ensures IsBytes("limit") && Encode("limit") == "limit"
    ensures IsBytes("session") && Encode("session") == "session"
    ensures IsBytes("bookmark") && Encode("bookmark") == "bookmark"
    ensures IsBytes("route_region") && Encode("route_region") == "route_region"
    ensures IsBytes(Show(q.limit)) && Encode(Show(q.limit)) == Show(q.limit)
    ensures IsBytes(SessionName(q.session))
  {
    hide Encode, IsBytes, Show, SessionName, Plain;
    PlainNames();
    PlainTextIsItsCode("limit");
    PlainTextIsItsCode("session");
    PlainTextIsItsCode("bookmark");
    PlainTextIsItsCode("route_region");
    ShowValue(q.limit);
    DigitsArePlain(Show(q.limit));
    PlainTextIsItsCode(Show(q.limit));
    SessionIsPlain(q.session);
    PlainTextIsItsCode(SessionName(q.session));
  }

  lemma PlainNames()
    ensures Plain("limit") && Plain("session") && Plain("bookmark") && Plain("route_region")
  {
  }

  lemma SessionIsPlain(s: ReadSession)
    ensures Plain(SessionName(s))
  {
  }

  // ---- Reading back ---------------------------------------------------------------------------

  function ParsePair(piece: string): (string, string) {
    var parts := CutAt(piece, '=');
    (Decode(parts.0), Decode(parts.1))
  }

  function ParsePairs(pieces: seq<string>): Entries {
    if |pieces| == 0 then []
    else
      var last := pieces[|pieces| - 1];
      ParsePairs(pieces[..|pieces| - 1]) + (if |last| > 0 then [ParsePair(last)] else [])
  }

  /** A later pair replaces an earlier one with the same key. */
  function MapOf(es: Entries): map<string, string> {
    if |es| == 0 then map[]
    else MapOf(es[..|es| - 1])[es[|es| - 1].0 := es[|es| - 1].1]
  }

  function QueryMap(uri: string): map<string, string> {
    MapOf(ParsePairs(Split(CutAt(uri, '?').1, '&')))
  }

  lemma PairParses(e: (string, string))
    requires IsBytes(e.0) && IsBytes(e.1)
    ensures ParsePair(PairText(e)) == e && '&' !in PairText(e) && |PairText(e)| > 0
  {
    hide Encode, Decode, CutAt, IsBytes;
    EncodeRoundTrip(e.0);
    EncodeRoundTrip(e.1);
    EncodeEmitsNoSeparator(e.0);
    EncodeEmitsNoSeparator(e.1);
    CutsThere(Encode(e.0), '=', Encode(e.1));
    assert PairText(e) == Encode(e.0) + ['='] + Encode(e.1);
  }

  lemma {:induction false} PairsParse(es: Entries)
    requires AllBytes(es)
    ensures ParsePairs(PairTexts(es)) == es
    ensures forall i :: 0 <= i < |es| ==> '&' !in PairTexts(es)[i]
  {
    hide PairText, ParsePair, IsBytes;
    if |es| > 0 {
      var n := |es| - 1;
      PairsParse(es[..n]);
      PairParses(es[n]);
      assert PairTexts(es)[..n] == PairTexts(es[..n]);
      assert es[..n] + [es[n]] == es;
    }
  }

  /** The printed entries come back from the URI, in order. */
  lemma UriEntries(path: string, es: Entries)
    requires '?' !in path && AllBytes(es)
    ensures QueryMap(WithQuery(path, PairTexts(es))) == MapOf(es)
  {
    hide PairText, ParsePair, AllBytes;
    var texts := PairTexts(es);
    if |es| == 0 {
      CutsNowhere(path, '?');
      assert Split("", '&') == [""] && [""][..0] == [];
      assert ParsePairs([""]) == [];
    } else {
      assert "?" == ['?'];
      CutsThere(path, '?', Joined(texts, '&'));
      PairsParse(es);
      JoinSplits(texts, '&');
    }
  }

  // ---- The round trip ----------------------------------------------------------------------------

  lemma OptionalMap(es: Entries, present: bool, key: string, value: string)
    ensures MapOf(es + Optional(present, key, value)) == if present then MapOf(es)[key := value] else MapOf(es)
  {
    var all := es + Optional(present, key, value);
    if present {
      assert all[..|all| - 1] == es;
    } else {
      assert all == es;
    }
  }

  predicate KeyOfFilter(order: seq<string>, k: string) {
    "eq." <= k && k[3..] in order
  }

  lemma {:induction false} FilterKeys(filters: map<string, string>, order: seq<string>)
    requires forall i :: 0 <= i < |order| ==> order[i] in filters
    ensures forall k :: k in MapOf(FilterEntries(filters, order)) ==> KeyOfFilter(order, k)
  {
    if |order| > 0 {
      var n := |order| - 1;
      FilterKeys(filters, order[..n]);
      OptionalMap(FilterEntries(filters, order[..n]), true, "eq." + order[n], filters[order[n]]);
      assert order == order[..n] + [order[n]];
      assert ("eq." + order[n])[3..] == order[n];
      assert forall k :: KeyOfFilter(order[..n], k) ==> KeyOfFilter(order, k);
    }
  }

  lemma {:induction false} FilterEntriesMap(filters: map<string, string>, order: seq<string>)
    requires forall i :: 0 <= i < |order| ==> order[i] in filters
    requires forall i, j :: 0 <= i < j < |order| ==> order[i] != order[j]
    ensures Filters(MapOf(FilterEntries(filters, order))) == map c | c in order :: filters[c]
  {
    hide Filters, MapOf;
    if |order| == 0 {
      assert MapOf([]) == map[] by { EmptyMap(); }
      NoParams(map[]);
    } else {
      var n := |order| - 1;
      var front, last := order[..n], order[n];
      FilterEntriesMap(filters, front);
      FilterKeys(filters, front);
      var done, key := MapOf(FilterEntries(filters, front)), "eq." + last;
      assert order == front + [last];
      assert key[3..] == last && !KeyOfFilter(front, key);
      NextFilter(done, key, filters[last]);
      OptionalMap(FilterEntries(filters, front), true, key, filters[last]);
    }
  }

  lemma EmptyMap()
    ensures MapOf([]) == map[]
  {
  }

  function Put(m: map<string, string>, present: bool, key: string, value: string): map<string, string> {
    if present then m[key := value] else m
  }

  function WithOthers(m: map<string, string>, q: ReadQuery): map<string, string> {
    var m1 := Put(m, q.limit != 100, "limit", Show(q.limit));
    var m2 := Put(m1, q.session != FirstUnconstrained, "session", SessionName(q.session));
    var m3 := Put(m2, q.bookmark.Some?, "bookmark", if q.bookmark.Some? then q.bookmark.value else "");
    Put(m3, q.region.Some?, "route_region", if q.region.Some? then q.region.value else "")
  }

  lemma OthersMap(es: Entries, q: ReadQuery)
    ensures MapOf(es + OtherEntries(q)) == WithOthers(MapOf(es), q)
  {
    hide MapOf, Optional;
    var limit := Optional(q.limit != 100, "limit", Show(q.limit));
    var session := Optional(q.session != FirstUnconstrained, "session", SessionName(q.session));
    var bookmark := Optional(q.bookmark.Some?, "bookmark", if q.bookmark.Some? then q.bookmark.value else "");
    var region := Optional(q.region.Some?, "route_region", if q.region.Some? then q.region.value else "");
    OptionalMap(es, q.limit != 100, "limit", Show(q.limit));
    OptionalMap(es + limit, q.session != FirstUnconstrained, "session", SessionName(q.session));
    OptionalMap(es + limit + session, q.bookmark.Some?, "bookmark", if q.bookmark.Some? then q.bookmark.value else "");
    OptionalMap(es + limit + session + bookmark, q.region.Some?, "route_region", if q.region.Some? then q.region.value else "");
    assert es + OtherEntries(q) == es + limit + session + bookmark + region;
  }

  lemma PutKeepsFilters(m: map<string, string>, present: bool, key: string, value: string)
    requires key !in m && !("eq." <= key)
    ensures Filters(Put(m, present, key, value)) == Filters(m)
  {
    hide Filters;
    NextFilter(m, key, value);
  }

  lemma OthersKeepFilters(m: map<string, string>, q: ReadQuery)
    requires forall k :: k in m ==> "eq." <= k
    ensures Filters(WithOthers(m, q)) == Filters(m)
  {
    hide Filters;
    assert "limit"[0] == 'l' && "session"[0] == 's' && "bookmark"[0] == 'b' && "route_region"[0] == 'r' && "eq."[0] == 'e';
    var m1 := Put(m, q.limit != 100, "limit", Show(q.limit));
    var m2 := Put(m1, q.session != FirstUnconstrained, "session", SessionName(q.session));
    var m3 := Put(m2, q.bookmark.Some?, "bookmark", if q.bookmark.Some? then q.bookmark.value else "");
    PutKeepsFilters(m, q.limit != 100, "limit", Show(q.limit));
    PutKeepsFilters(m1, q.session != FirstUnconstrained, "session", SessionName(q.session));
    PutKeepsFilters(m2, q.bookmark.Some?, "bookmark", if q.bookmark.Some? then q.bookmark.value else "");
    PutKeepsFilters(m3, q.region.Some?, "route_region", if q.region.Some? then q.region.value else "");
  }

  lemma SessionRoundTrip(s: ReadSession)
    ensures ParseSession(SessionName(s)) == Some(s)
  {
    assert "first-unconstrained"[6] == 'u' && "first-primary"[6] == 'p' && "bookmark"[0] == 'b';
  }

  /** The four parameter names are no filter keys and differ from each other. */
  lemma NamesApart(m: map<string, string>)
    requires forall k :: k in m ==> "eq." <= k
    ensures "limit" !in m && "session" !in m && "bookmark" !in m && "route_region" !in m
    ensures "limit" != "session" && "limit" != "bookmark" && "limit" != "route_region"
    ensures "session" != "bookmark" && "session" != "route_region" && "bookmark" != "route_region"
  {
    assert "limit"[0] == 'l' && "session"[0] == 's' && "bookmark"[0] == 'b' && "route_region"[0] == 'r' && "eq."[0] == 'e';
  }

  lemma OthersLookup(m: map<string, string>, q: ReadQuery)
    requires forall k :: k in m ==> "eq." <= k
    ensures
      var r := WithOthers(m, q);
      && ("limit" in r <==> q.limit != 100) && ("limit" in r ==> r["limit"] == Show(q.limit))
      && ("session" in r <==> q.session != FirstUnconstrained) && ("session" in r ==> r["session"] == SessionName(q.session))
      && ("bookmark" in r <==> q.bookmark.Some?) && ("bookmark" in r ==> r["bookmark"] == q.bookmark.value)
      && ("route_region" in r <==> q.region.Some?) && ("route_region" in r ==> r["route_region"] == q.region.value)
  {
    hide Show, SessionName;
    NamesApart(m);
  }

  lemma OthersParse(m: map<string, string>, q: ReadQuery)
    requires forall k :: k in m ==> "eq." <= k
    requires Filters(m) == q.filters && ValidQuery(q)
    ensures ParseReadQuery(WithOthers(m, q), map[]) == Success(q)
  {
    hide Filters, ParseU64, Show, IsBytes, ParseSession, SessionName, WithOthers;
    OthersKeepFilters(m, q);
    OthersLookup(m, q);
    SessionRoundTrip(q.session);
    ShowParses(q.limit);
  }

  /** Parsing the printed entries gives the query back, in whatever order the filters came. */
  lemma EntriesGiveQuery(q: ReadQuery, order: seq<string>)
    requires ValidQuery(q) && Enumerates(order, q.filters)
    ensures ParseReadQuery(MapOf(QueryEntries(q, order)), map[]) == Success(q)
  {
    hide Filters, MapOf, ValidQuery, FilterEntries, WithOthers, ParseReadQuery, OtherEntries;
    var es := FilterEntries(q.filters, order);
    FilterEntriesMap(q.filters, order);
    FilterKeys(q.filters, order);
    assert (map c | c in order :: q.filters[c]) == q.filters;
    OthersMap(es, q);
    OthersParse(MapOf(es), q);
  }

  /** `order` is the filters gone through so far, `todo` the rest. */
  predicate Progress(filters: map<string, string>, order: seq<string>, todo: set<string>) {
    && todo <= filters.Keys
    && (forall i :: 0 <= i < |order| ==> order[i] in filters && order[i] !in todo)
    && (forall c :: c in filters && c !in todo ==> c in order)
    && (forall i, j :: 0 <= i < j < |order| ==> order[i] != order[j])
  }

  lemma ProgressSnoc(filters: map<string, string>, order: seq<string>, todo: set<string>, key: string)
    requires Progress(filters, order, todo) && key in todo
    ensures Progress(filters, order + [key], todo - {key}) && key in filters
  {
  }

  /** The pairs are the printed entries. */
  predicate PrintedAs(pairs: seq<string>, es: Entries) {
    AllBytes(es) && pairs == PairTexts(es)
  }

  lemma PrintedSnoc(pairs: seq<string>, es: Entries, key: string, value: string, text: string)
    requires PrintedAs(pairs, es) && IsBytes(key) && IsBytes(value) && text == Encode(key) + "=" + Encode(value)
    ensures PrintedAs(pairs + [text], es + [(key, value)])
  {
    hide IsBytes, Encode;
  }

  lemma PrintedOptional(pairs: seq<string>, es: Entries, present: bool, key: string, value: string)
    requires PrintedAs(pairs, es) && (present ==> IsBytes(key) && IsBytes(value) && Encode(key) == key)
    ensures PrintedAs(if present then pairs + [key + "=" + Encode(value)] else pairs, es + Optional(present, key, value))
  {
    if present {
      PrintedSnoc(pairs, es, key, value, key + "=" + Encode(value));
    } else {
      assert es + Optional(present, key, value) == es;
    }
  }

  method PushOptional(pairs: seq<string>, ghost es: Entries, present: bool, key: string, value: string)
    returns (r: seq<string>)
    requires PrintedAs(pairs, es) && (present ==> IsBytes(key) && IsBytes(value) && Encode(key) == key)
    ensures PrintedAs(r, es + Optional(present, key, value))
  {
    hide IsBytes, Encode, PrintedAs, Optional;
    PrintedOptional(pairs, es, present, key, value);
    r := pairs;
    if present {
      var code := PercentEncode(value);
      r := r + [key + "=" + code];
    }
  }

  lemma FilterPair(column: string)
    requires IsBytes(column)
    ensures IsBytes("eq." + column) && Encode("eq." + column) == "eq." + Encode(column)
  {
    hide Encode;
    PlainTextIsItsCode("eq.");
    EncodeConcat("eq.", column);
  }

  lemma FilterBytes(q: ReadQuery, column: string)
    requires ValidQuery(q) && column in q.filters
    ensures IsBytes(column) && IsBytes(q.filters[column])
  {
  }

  lemma NoEntries(filters: map<string, string>)
    ensures PrintedAs([], FilterEntries(filters, [])) && Progress(filters, [], filters.Keys)
  {
  }

  lemma FilterEntriesSnoc(filters: map<string, string>, order: seq<string>, todo: set<string>, key: string)
    requires Progress(filters, order, todo) && key in todo
    ensures forall i :: 0 <= i < |order| ==> order[i] in filters
    ensures (forall i :: 0 <= i < |order + [key]| ==> (order + [key])[i] in filters)
    ensures FilterEntries(filters, order + [key]) == FilterEntries(filters, order) + [("eq." + key, filters[key])]
  {
    assert (order + [key])[..|order|] == order;
  }

  /** The printed pairs of a finished query, in some order of its filters. */
  lemma PrintedUri(path: string, q: ReadQuery, order: seq<string>, pairs: seq<string>)
    requires ValidQuery(q) && Progress(q.filters, order, {}) && '?' !in path
    requires PrintedAs(pairs, FilterEntries(q.filters, order) + OtherEntries(q))
    ensures ParseReadQuery(QueryMap(WithQuery(path, pairs)), map[]) == Success(q)
  {
    assert Enumerates(order, q.filters);
    hide Enumerates, ValidQuery, ParseReadQuery, WithQuery, QueryMap, MapOf, FilterEntries, OtherEntries;
    UriEntries(path, QueryEntries(q, order));
    EntriesGiveQuery(q, order);
  }

  /** The filters, in whatever order the map gives them. */
  method FilterPairs(q: ReadQuery) returns (pairs: seq<string>, ghost order: seq<string>)
    requires ValidQuery(q)
    ensures Progress(q.filters, order, {}) && PrintedAs(pairs, FilterEntries(q.filters, order))
  {
    hide PrintedAs, FilterEntries, ValidQuery, Encode, IsBytes;
    pairs, order := [], [];
    var todo := q.filters.Keys;
    NoEntries(q.filters);
    while todo != {}
      invariant Progress(q.filters, order, todo)
      invariant PrintedAs(pairs, FilterEntries(q.filters, order))
      decreases |todo|
    {
      var column :| column in todo;
      ProgressSnoc(q.filters, order, todo, column);
      FilterBytes(q, column);
      FilterPair(column);
      FilterEntriesSnoc(q.filters, order, todo, column);
      todo := todo - {column};
      var key := PercentEncode(column);
      var value := PercentEncode(q.filters[column]);
      PrintedSnoc(pairs, FilterEntries(q.filters, order), "eq." + column, q.filters[column], "eq." + key + "=" + value);
      pairs := pairs + ["eq." + key + "=" + value];
      order := order + [column];
    }
  }

  /**
   `table_read_uri`, in any order of the filters: parsing the URI on a request without bookmark
   or region headers gives the query back.
   */
  method TableReadUri(path: string, q: ReadQuery) returns (uri: string)
    requires ValidQuery(q)
    ensures '?' !in path ==> ParseReadQuery(QueryMap(uri), map[]) == Success(q)
  {
    hide PrintedAs, FilterEntries, ValidQuery, Encode, ParseReadQuery, WithQuery, QueryMap, Show, SessionName, IsBytes,
         Optional, Progress;
    PlainParts(q);
    var pairs, order := FilterPairs(q);
    ghost var es := FilterEntries(q.filters, order);
    PrintedOptional(pairs, es, q.limit != 100, "limit", Show(q.limit));
    if q.limit != 100 {
      pairs := pairs + ["limit" + "=" + Show(q.limit)];
    }
    es := es + Optional(q.limit != 100, "limit", Show(q.limit));
    pairs := PushOptional(pairs, es, q.session != FirstUnconstrained, "session", SessionName(q.session));
    es := es + Optional(q.session != FirstUnconstrained, "session", SessionName(q.session));
    OptionalBytes(q);
    var bookmark := if q.bookmark.Some? then q.bookmark.value else "";
    pairs := PushOptional(pairs, es, q.bookmark.Some?, "bookmark", bookmark);
    es := es + Optional(q.bookmark.Some?, "bookmark", bookmark);
    var region := if q.region.Some? then q.region.value else "";
    pairs := PushOptional(pairs, es, q.region.Some?, "route_region", region);
    es := es + Optional(q.region.Some?, "route_region", region);
    assert es == FilterEntries(q.filters, order) + OtherEntries(q);
    uri := WithQuery(path, pairs);
    if '?' !in path {
      PrintedUri(path, q, order, pairs);
    }
  }

  lemma OptionalBytes(q: ReadQuery)
    requires ValidQuery(q)
    ensures q.bookmark.Some? ==> IsBytes(q.bookmark.value)
    ensures q.region.Some? ==> IsBytes(q.region.value)
  {
  }

  /** What a request asks for can always be printed. */
  lemma ParsedIsValid(query: map<string, string>, headers: map<string, string>)
    requires ParseReadQuery(query, headers).Success?
    requires forall k :: k in query ==> IsBytes(k) && IsBytes(query[k])
    requires forall k :: k in headers ==> IsBytes(headers[k])
    ensures ValidQuery(ParseReadQuery(query, headers).value)
  {
    var filters := Filters(query);
    forall c | c in filters
      ensures IsBytes(c) && IsBytes(filters[c])
    {
      FiltersHold(query, c);
      assert IsBytes("eq." + c);
      assert forall i :: 0 <= i < |c| ==> c[i] == ("eq." + c)[i + 3];
    }
  }

  // ---- The texts themselves ----------------------------------------------------------------------

  /** Read back, a plus sign is a space, `%` with two hex digits of either case a byte, anything else itself. */
  lemma DecodeInPlain(c: char, high: nat, low: nat, rest: string)
    requires c != '%' && high < 16 && low < 16
    ensures Decode([c] + rest) == [if c == '+' then ' ' else c] + Decode(rest)
    ensures Decode(['%', "0123456789ABCDEF"[high], "0123456789ABCDEF"[low]] + rest) == [(16 * high + low) as char] + Decode(rest)
    ensures Decode(['%', "0123456789abcdef"[high], "0123456789abcdef"[low]] + rest) == [(16 * high + low) as char] + Decode(rest)
  {
    assert ([c] + rest)[1..] == rest;
    HexDigitsRead(high);
    HexDigitsRead(low);
    PercentReads("0123456789ABCDEF"[high], "0123456789ABCDEF"[low], rest);
    PercentReads("0123456789abcdef"[high], "0123456789abcdef"[low], rest);
  }

  lemma PercentReads(a: char, b: char, rest: string)
    requires HexValue(a).Some? && HexValue(b).Some?
    ensures Decode(['%', a, b] + rest) == [(16 * HexValue(a).value + HexValue(b).value) as char] + Decode(rest)
  {
    var s := ['%', a, b] + rest;
    assert s[3..] == rest;
  }

  lemma HexDigitsRead(n: nat)
    requires n < 16
    ensures HexValue("0123456789ABCDEF"[n]) == HexValue("0123456789abcdef"[n]) == Some(n)
  {
    assert "0123456789ABCDEF"[n] == if n < 10 then ('0' as int + n) as char else ('A' as int + n - 10) as char;
    assert "0123456789abcdef"[n] == if n < 10 then ('0' as int + n) as char else ('a' as int + n - 10) as char;
  }

  /** Letters, digits and `-_.~` stand for themselves, any other byte is `%` and two upper-case hex digits. */
  lemma EncodeInPlain(c: char, rest: string)
    requires c as int < 256 && IsBytes(rest)
    ensures 'a' <= c <= 'z' || 'A' <= c <= 'Z' || '0' <= c <= '9' || c in "-_.~" ==> Encode([c] + rest) == [c] + Encode(rest)
    ensures !('a' <= c <= 'z' || 'A' <= c <= 'Z' || '0' <= c <= '9' || c in "-_.~") ==>
              exists high: nat, low: nat :: high < 16 && low < 16 && 16 * high + low == c as int
                && Encode([c] + rest) == ['%', "0123456789ABCDEF"[high], "0123456789ABCDEF"[low]] + Encode(rest)
  {
    var s := [c] + rest;
    assert s[1..] == rest;
    assert c in "-_.~" <==> c == '-' || c == '_' || c == '.' || c == '~';
    if !Unreserved(c) {
      var high, low := c as int / 16, c as int % 16;
      assert 16 * high + low == c as int;
      assert Encode(s) == ['%', HexDigit(high), HexDigit(low)] + Encode(rest);
    }
  }

  /**
   What a read query asks for: the filters under `eq.`, the limit or a hundred, the session by name, and
   bookmark and region from the query or else from the first header of the two that is there.
   */
  lemma QueryInPlain(query: map<string, string>, headers: map<string, string>)
    ensures ParseReadQuery(query, headers).Failure? <==>
              "session" in query && query["session"] !in ["first-unconstrained", "first-primary", "bookmark"]
    ensures ParseReadQuery(query, headers).Failure? ==> ParseReadQuery(query, headers).error == ApiError(400)
    ensures ParseReadQuery(query, headers).Success? ==>
              var q := ParseReadQuery(query, headers).value;
              && (forall column: string :: column in q.filters <==> "eq." + column in query)
              && (forall column: string :: column in q.filters ==> q.filters[column] == query["eq." + column])
              && ("limit" !in query ==> q.limit == 100)
              && (forall n: nat :: n < U64_LIMIT && "limit" in query && query["limit"] == Show(n) ==> q.limit == n)
              && (q.session.FirstUnconstrained? <==> "session" !in query || query["session"] == "first-unconstrained")
              && (q.session.FirstPrimary? <==> "session" in query && query["session"] == "first-primary")
              && Asks(query, "bookmark", headers, "x-d1-bookmark", "x-sdb-bookmark", q.bookmark)
              && Asks(query, "route_region", headers, "x-sdb-region", "x-d1-region", q.region)
  {
    SessionNames();
    hide Filters, ParseU64, SessionName;
    if ParseReadQuery(query, headers).Success? {
      forall column: string
        ensures column in Filters(query) <==> "eq." + column in query
        ensures column in Filters(query) ==> Filters(query)[column] == query["eq." + column]
      {
        FiltersHold(query, column);
      }
      forall n: nat | n < U64_LIMIT
        ensures ParseU64(Show(n)) == Some(n)
      {
        ShowParses(n);
      }
    }
  }

  ghost predicate Asks(query: map<string, string>, key: string, headers: map<string, string>, first: string, second: string,
                       answer: Option<string>)
  {
    if key in query && query[key] != "" then answer == Some(query[key])
    else if first in headers then answer == (if headers[first] == "" then None else Some(headers[first]))
    else if second in headers then answer == (if headers[second] == "" then None else Some(headers[second]))
    else answer == None
  }

  lemma SessionNames()
    ensures "first-unconstrained" != "first-primary" && "first-unconstrained" != "bookmark" && "first-primary" != "bookmark"
    ensures forall s: string :: s in ["first-unconstrained", "first-primary", "bookmark"] <==>
              s == "first-unconstrained" || s == "first-primary" || s == "bookmark"
  {
    assert |"first-unconstrained"| == 19 && |"first-primary"| == 13 && |"bookmark"| == 8;
    var names := ["first-unconstrained", "first-primary", "bookmark"];
    assert names[0] in names && names[1] in names && names[2] in names;
  }
}
