/**
 * lib/api.ts: building the query string and the URLs of the two timeseries
 * endpoints. `buildQuery` fills a `URLSearchParams` with `set` and serialises
 * it as `application/x-www-form-urlencoded` text (the URL Standard's
 * urlencoded serializer: UTF-8, then percent-encoding with `+` for space).
 * The fetches themselves are not modelled.
 */
module MetricsApi {
  import opened Wrappers
  import opened JsString
  import opened Base64

  /** A value of the `params` record: `string | number | null | undefined`. */
  datatype QueryValue = Undefined | Null | Text(s: string) | Number(n: int)

  /** `qparam(v)`: `null` for null, undefined and the empty string, otherwise `String(v)`. */
  function QParam(v: QueryValue): (r: Option<string>)
    ensures r.None? <==> v.Undefined? || v.Null? || v == Text("")
    ensures v.Text? && v.s != "" ==> r == Some(v.s)
    ensures v.Number? ==> r == Some(IntToString(v.n))
  {
    match v
    case Undefined => None
    case Null => None
    case Text(s) => if s == "" then None else Some(s)
    case Number(n) => Some(IntToString(n))
  }

  /** Numeric 0 is kept as `"0"`; the only falsy value dropped is the empty string. */
  lemma QParamExamples()
    ensures QParam(Number(0)) == Some("0")
    ensures QParam(Text("0")) == Some("0")
    ensures QParam(Text("")) == None
  {
    assert NatToString(0) == [DigitChar(0)];
  }

  /** The names of a list of name-value pairs. */
  function KeySet<V>(ps: seq<(string, V)>): set<string> {
    if |ps| == 0 then {} else {ps[0].0} + KeySet(ps[1..])
  }

  /** No name occurs twice. */
  predicate DistinctKeys<V>(ps: seq<(string, V)>) {
    |ps| == 0 || (ps[0].0 !in KeySet(ps[1..]) && DistinctKeys(ps[1..]))
  }

  /** Appending a pair adds its name. */
  lemma {:induction false} KeySetAppend<V>(ps: seq<(string, V)>, p: (string, V))
    ensures KeySet(ps + [p]) == KeySet(ps) + {p.0}
  {
    if |ps| > 0 {
      assert (ps + [p])[1..] == ps[1..] + [p];
      KeySetAppend(ps[1..], p);
    } else {
      assert ps + [p] == [p];
    }
  }

  /** A list with one more pair at the end has distinct names exactly when the list has and the new name is new. */
  lemma {:induction false} DistinctAppend<V>(ps: seq<(string, V)>, p: (string, V))
    ensures DistinctKeys(ps + [p]) <==> DistinctKeys(ps) && p.0 !in KeySet(ps)
  {
    if |ps| > 0 {
      assert (ps + [p])[1..] == ps[1..] + [p];
      DistinctAppend(ps[1..], p);
      KeySetAppend(ps[1..], p);
    } else {
      assert ps + [p] == [p];
    }
  }

  /** The pairs whose name is not `k`, in order. */
  function RemoveKey(ps: seq<(string, string)>, k: string): (r: seq<(string, string)>)
    ensures KeySet(r) == KeySet(ps) - {k}
    ensures DistinctKeys(ps) ==> DistinctKeys(r)
    ensures forall p :: p in r <==> p in ps && p.0 != k
  {
    if |ps| == 0 then []
    else if ps[0].0 == k then RemoveKey(ps[1..], k)
    else
      var rest := RemoveKey(ps[1..], k);
      assert ([ps[0]] + rest)[1..] == rest;
      [ps[0]] + rest
  }

  /** Removal works pair by pair: a single pair stays exactly when it has another name. */
  lemma RemoveKeySingle(p: (string, string), k: string)
    ensures RemoveKey([p], k) == if p.0 == k then [] else [p]
  {
    assert [p][1..] == [];
  }

  /** Removal keeps the surviving pairs of two runs in their order. */
  lemma {:induction false} RemoveKeyAppend(a: seq<(string, string)>, b: seq<(string, string)>, k: string)
    ensures RemoveKey(a + b, k) == RemoveKey(a, k) + RemoveKey(b, k)
    decreases |a|
  {
    if |a| == 0 {
      assert a + b == b;
    } else {
      assert (a + b)[0] == a[0];
      assert (a + b)[1..] == a[1..] + b;
      RemoveKeyAppend(a[1..], b, k);
      RemoveKeySingle(a[0], k);
      PairsAssoc(RemoveKey([a[0]], k), RemoveKey(a[1..], k), RemoveKey(b, k));
    }
  }

  lemma PairsAssoc(x: seq<(string, string)>, y: seq<(string, string)>, z: seq<(string, string)>)
    ensures x + (y + z) == (x + y) + z
  {
  }

  /** With no pair named `k`, removing `k` changes nothing. */
  lemma {:induction false} RemoveKeyAbsent(ps: seq<(string, string)>, k: string)
    requires k !in KeySet(ps)
    ensures RemoveKey(ps, k) == ps
  {
    if |ps| > 0 {
      RemoveKeyAbsent(ps[1..], k);
      assert ps == [ps[0]] + ps[1..];
    }
  }

  /** The position of the first pair named `k`. */
  function FirstIndex(ps: seq<(string, string)>, k: string): (i: nat)
    requires k in KeySet(ps)
    ensures i < |ps| && ps[i].0 == k
    ensures forall j :: 0 <= j < i ==> ps[j].0 != k
  {
    if ps[0].0 == k then 0
    else
      var i := FirstIndex(ps[1..], k);
      assert forall j :: 1 <= j < 1 + i + 1 ==> ps[j] == ps[1..][j - 1];
      1 + i
  }

  /** The first pair named `k` gets value `v`; every later pair named `k` is dropped. */
  function SetFirst(ps: seq<(string, string)>, k: string, v: string): (r: seq<(string, string)>)
    requires k in KeySet(ps)
    ensures (k, v) in r
    ensures KeySet(r) == KeySet(ps)
    ensures DistinctKeys(ps) ==> DistinctKeys(r)
  {
    if ps[0].0 == k then
      var rest := RemoveKey(ps[1..], k);
      assert ([(k, v)] + rest)[1..] == rest;
      [(k, v)] + rest
    else
      var rest := SetFirst(ps[1..], k, v);
      assert ([ps[0]] + rest)[1..] == rest;
      [ps[0]] + rest
  }

  /**
   * The pairs before the first one named `k` stay as they were, that pair
   * becomes `(k, v)`, and after it only the pairs with other names remain.
   */
  lemma {:induction false} SetFirstShape(ps: seq<(string, string)>, k: string, v: string)
    requires k in KeySet(ps)
    ensures var i := FirstIndex(ps, k);
      SetFirst(ps, k, v) == ps[..i] + [(k, v)] + RemoveKey(ps[i + 1..], k)
  {
    if ps[0].0 != k {
      var t := ps[1..];
      var i := FirstIndex(t, k);
      SetFirstShape(t, k, v);
      var rest := SetFirst(t, k, v);
      assert SetFirst(ps, k, v) == [ps[0]] + rest;
      ConsPrefix(ps, i + 1, [(k, v)], RemoveKey(t[i + 1..], k));
      assert t[i + 1..] == ps[i + 2..];
    }
  }

  /** Putting the first pair back in front of a split of the rest. */
  lemma ConsPrefix(ps: seq<(string, string)>, i: nat, x: seq<(string, string)>, w: seq<(string, string)>)
    requires 1 <= i <= |ps|
    ensures [ps[0]] + (ps[1..][..i - 1] + x + w) == ps[..i] + x + w
  {
    assert [ps[0]] + ps[1..][..i - 1] == ps[..i];
  }

  /**
   * `usp.set(k, v)`: when a pair named `k` exists, the first one takes the
   * value and the others are removed; otherwise the pair is appended. Either
   * way the pair is there afterwards, the names are the old ones plus `k`,
   * and no name is made to occur twice.
   */
  function SetParam(ps: seq<(string, string)>, k: string, v: string): (r: seq<(string, string)>)
    ensures (k, v) in r
    ensures KeySet(r) == KeySet(ps) + {k}
    ensures DistinctKeys(ps) ==> DistinctKeys(r)
    ensures k !in KeySet(ps) ==> r == ps + [(k, v)]
    ensures k in KeySet(ps) ==> var i := FirstIndex(ps, k);
      r == ps[..i] + [(k, v)] + RemoveKey(ps[i + 1..], k)
  {
    if k in KeySet(ps) then
      SetFirstShape(ps, k, v);
      SetFirst(ps, k, v)
    else
      KeySetAppend(ps, (k, v));
      DistinctAppend(ps, (k, v));
      ps + [(k, v)]
  }

  /** The pairs the loop of `buildQuery` has put into `usp` after the entries `params`. */
  function QueryPairs(params: seq<(string, QueryValue)>): seq<(string, string)> {
    if |params| == 0 then []
    else
      var (k, v) := params[|params| - 1];
      var prev := QueryPairs(params[..|params| - 1]);
      match QParam(v)
      case None => prev
      case Some(s) => SetParam(prev, k, s)
  }

  /** The reference reading of `buildQuery`: the entries with a non-null `qparam`, in entry order. */
  function Kept(params: seq<(string, QueryValue)>): (r: seq<(string, string)>)
    ensures |r| <= |params|
  {
    if |params| == 0 then []
    else
      var (k, v) := params[|params| - 1];
      var prev := Kept(params[..|params| - 1]);
      match QParam(v)
      case None => prev
      case Some(s) => prev + [(k, s)]
  }

  /** Each name appears at most once in the query `buildQuery` serialises. */
  lemma {:induction false} QueryPairsDistinct(params: seq<(string, QueryValue)>)
    ensures DistinctKeys(QueryPairs(params))
  {
    if |params| > 0 {
      QueryPairsDistinct(params[..|params| - 1]);
    }
  }

  /** The names kept are names of the entries. */
  lemma {:induction false} KeptKeys(params: seq<(string, QueryValue)>)
    ensures KeySet(Kept(params)) <= KeySet(params)
  {
    var n := |params|;
    if n > 0 {
      var prefix := params[..n - 1];
      assert params == prefix + [params[n - 1]];
      KeySetAppend(prefix, params[n - 1]);
      KeptKeys(prefix);
      var (k, v) := params[n - 1];
      if QParam(v).Some? {
        KeySetAppend(Kept(prefix), (k, QParam(v).value));
      }
    }
  }

  /**
   * With distinct entry names (as `Object.entries` gives them) every `set`
   * appends, so `buildQuery` emits exactly the entries with a non-null
   * `qparam`, in entry order.
   */
  lemma {:induction false} QueryPairsKept(params: seq<(string, QueryValue)>)
    requires DistinctKeys(params)
    ensures QueryPairs(params) == Kept(params)
  {
    var n := |params|;
    if n > 0 {
      var prefix := params[..n - 1];
      assert params == prefix + [params[n - 1]];
      DistinctAppend(prefix, params[n - 1]);
      QueryPairsKept(prefix);
      KeptKeys(prefix);
    }
  }

  /** The characters the urlencoded serializer leaves as they are. */
  predicate IsKeptChar(c: char) {
    ('a' <= c <= 'z') || ('A' <= c <= 'Z') || ('0' <= c <= '9') || c == '*' || c == '-' || c == '.' || c == '_'
  }

  /** The characters of urlencoded text: kept ones, `+` for space, and `%` escapes. */
  predicate IsFormChar(c: char) {
    IsKeptChar(c) || c == '+' || c == '%'
  }

  /** The UTF-8 encoding of one character (section 3 of RFC 3629). */
  function Utf8(c: char): (r: seq<byte>)
    ensures 1 <= |r| <= 4
    ensures (c as int < 0x80) == (|r| == 1)
    ensures |r| == 1 ==> r[0] == c as int
  {
    var cp := c as int;
    if cp < 0x80 then [cp]
    else if cp < 0x800 then [0xC0 + cp / 64, 0x80 + cp % 64]
    else if cp < 0x10000 then [0xE0 + cp / 4096, 0x80 + (cp / 64) % 64, 0x80 + cp % 64]
    else [0xF0 + cp / 0x40000, 0x80 + (cp / 4096) % 64, 0x80 + (cp / 64) % 64, 0x80 + cp % 64]
  }

  predicate IsUpperHex(c: char) {
    ('0' <= c <= '9') || ('A' <= c <= 'F')
  }

  /** Every `%` of the text starts an escape `%XX` of two upper-case hexadecimal digits. */
  predicate WellEscaped(r: string) {
    forall i :: 0 <= i < |r| && r[i] == '%' ==> i + 2 < |r| && IsUpperHex(r[i + 1]) && IsUpperHex(r[i + 2])
  }

  lemma WellEscapedAppend(a: string, b: string)
    requires WellEscaped(a) && WellEscaped(b)
    ensures WellEscaped(a + b)
  {
    var s := a + b;
    forall i | 0 <= i < |s| && s[i] == '%'
      ensures i + 2 < |s| && IsUpperHex(s[i + 1]) && IsUpperHex(s[i + 2])
    {
      if i < |a| {
        assert a[i] == '%';
      } else {
        assert b[i - |a|] == '%';
      }
    }
  }

  /** An upper-case hexadecimal digit. */
  function HexDigit(d: int): (c: char)
    requires 0 <= d < 16
    ensures IsKeptChar(c) && IsUpperHex(c)
  {
    if d < 10 then ('0' as int + d) as char else ('A' as int + d - 10) as char
  }

  /** One byte of the encoding: itself when kept, `+` for space, `%XX` otherwise. */
  function EncodeByte(b: byte): (r: string)
    ensures forall i :: 0 <= i < |r| ==> IsFormChar(r[i])
    ensures WellEscaped(r)
  {
    if IsKeptChar(b as char) then [b as char]
    else if b == 0x20 then "+"
    else ['%', HexDigit(b / 16), HexDigit(b % 16)]
  }

  function EncodeBytes(bs: seq<byte>): (r: string)
    ensures forall i :: 0 <= i < |r| ==> IsFormChar(r[i])
    ensures WellEscaped(r)
  {
    if |bs| == 0 then ""
    else
      WellEscapedAppend(EncodeByte(bs[0]), EncodeBytes(bs[1..]));
      EncodeByte(bs[0]) + EncodeBytes(bs[1..])
  }

  /** The urlencoded serializer's percent-encoding of a name or a value. */
  function FormEncode(s: string): (r: string)
    ensures forall i :: 0 <= i < |r| ==> IsFormChar(r[i])
    ensures '&' !in r && '=' !in r
    ensures WellEscaped(r)
  {
    if |s| == 0 then ""
    else
      WellEscapedAppend(EncodeBytes(Utf8(s[0])), FormEncode(s[1..]));
      EncodeBytes(Utf8(s[0])) + FormEncode(s[1..])
  }

  /** Text made only of kept characters is encoded as itself. */
  lemma {:induction false} FormEncodeKept(s: string)
    requires forall i :: 0 <= i < |s| ==> IsKeptChar(s[i])
    ensures FormEncode(s) == s
  {
    if |s| > 0 {
      var c := s[0];
      assert IsKeptChar(c);
      assert Utf8(c) == [c as int];
      assert EncodeBytes([c as int]) == [c];
      FormEncodeKept(s[1..]);
      assert s == [c] + s[1..];
    }
  }

  lemma SpaceEncodedAsPlus()
    ensures FormEncode(" ") == "+"
    ensures FormEncode(":") == "%3A"
  {
    assert Utf8(' ') == [0x20];
    assert EncodeBytes([0x20]) == "+";
    assert Utf8(':') == [0x3A];
    assert EncodeBytes([0x3A]) == "%3A";
  }

  /** `name=value` for one pair. */
  function PairText(p: (string, string)): string {
    FormEncode(p.0) + "=" + FormEncode(p.1)
  }

  function PairTexts(ps: seq<(string, string)>): (ts: seq<string>)
    ensures |ts| == |ps|
    ensures forall i :: 0 <= i < |ps| ==> ts[i] == PairText(ps[i])
  {
    seq(|ps|, i requires 0 <= i < |ps| => PairText(ps[i]))
  }

  /** `usp.toString()`: the pairs as `name=value`, joined with `&`. */
  function Serialize(ps: seq<(string, string)>): string {
    if |ps| == 0 then "" else Join(PairTexts(ps), '&')
  }

  /** The query string `buildQuery(params)` returns. */
  function QueryString(params: seq<(string, QueryValue)>): string {
    Serialize(QueryPairs(params))
  }

  /**
   * The serialised query splits on `&` into one piece per pair, in order, and
   * each piece splits on `=` into the encoded name and the encoded value.
   */
  lemma SerializeSplits(ps: seq<(string, string)>)
    requires |ps| > 0
    ensures Split(Serialize(ps), '&') == PairTexts(ps)
    ensures forall i :: 0 <= i < |ps| ==> Split(PairText(ps[i]), '=') == [FormEncode(ps[i].0), FormEncode(ps[i].1)]
  {
    var ts := PairTexts(ps);
    forall i | 0 <= i < |ts| ensures '&' !in ts[i] {
      var p := ps[i];
      assert ts[i] == FormEncode(p.0) + ['='] + FormEncode(p.1);
    }
    SplitJoin(ts, '&');
    forall i | 0 <= i < |ps| ensures Split(PairText(ps[i]), '=') == [FormEncode(ps[i].0), FormEncode(ps[i].1)] {
      SplitPair(FormEncode(ps[i].0), FormEncode(ps[i].1), '=');
    }
  }

  /** `buildQuery(params)`: a loop over the entries that `set`s every non-null `qparam`. */
  method BuildQuery(params: seq<(string, QueryValue)>) returns (query: string)
    ensures query == QueryString(params)
  {
    var usp: seq<(string, string)> := [];
    var i := 0;
    while i < |params|
      invariant 0 <= i <= |params|
      invariant usp == QueryPairs(params[..i])
    {
      var (k, v) := params[i];
      assert params[..i + 1][..i] == params[..i];
      var s := QParam(v);
      if s.Some? {
        usp := SetParam(usp, k, s.value);
      }
      i := i + 1;
    }
    assert params[..i] == params;
    query := Serialize(usp);
  }

  datatype Granularity = Auto | M5 | Hour | Day

  function GranularityName(g: Granularity): (s: string)
    ensures s != "" && forall i :: 0 <= i < |s| ==> IsKeptChar(s[i])
  {
    match g
    case Auto => "auto"
    case M5 => "m5"
    case Hour => "hour"
    case Day => "day"
  }

  /** The arguments both fetchers take, without the abort signal. */
  datatype FetchArgs = FetchArgs(apiBase: string, from: string, to: string, granularity: Granularity,
                                 companyId: Option<string>, formTypeId: Option<string>)

  /** `x ?? null` for an optional argument. */
  function OrNull(x: Option<string>): QueryValue {
    match x
    case None => Null
    case Some(s) => Text(s)
  }

  /** The record both fetchers hand to `buildQuery`. */
  function TimeseriesParams(a: FetchArgs): seq<(string, QueryValue)> {
    [("from", Text(a.from)), ("to", Text(a.to)), ("granularity", Text(GranularityName(a.granularity))),
     ("companyId", OrNull(a.companyId)), ("formTypeId", OrNull(a.formTypeId))]
  }

  /** The one-pair list for a value that is kept, the empty list otherwise. */
  function PairIf(k: string, v: QueryValue): seq<(string, string)> {
    match QParam(v)
    case None => []
    case Some(s) => [(k, s)]
  }

  /** `Kept` takes in one more entry at the end. */
  lemma KeptSnoc(ps: seq<(string, QueryValue)>, p: (string, QueryValue))
    ensures Kept(ps + [p]) == Kept(ps) + PairIf(p.0, p.1)
  {
    assert (ps + [p])[..|ps|] == ps;
  }

  /** The five names of the fetchers' record are distinct. */
  lemma TimeseriesParamsDistinct(a: FetchArgs)
    ensures DistinctKeys(TimeseriesParams(a))
  {
    var ps := TimeseriesParams(a);
    assert ps[4..][1..] == [];
    assert KeySet(ps[4..]) == {"formTypeId"} && DistinctKeys(ps[4..]);
    assert ps[3..][1..] == ps[4..];
    assert KeySet(ps[3..]) == {"companyId", "formTypeId"} && DistinctKeys(ps[3..]);
    assert ps[2..][1..] == ps[3..];
    assert KeySet(ps[2..]) == {"granularity", "companyId", "formTypeId"} && DistinctKeys(ps[2..]);
    assert ps[1..][1..] == ps[2..];
    assert KeySet(ps[1..]) == {"to", "granularity", "companyId", "formTypeId"} && DistinctKeys(ps[1..]);
  }

  /** `Kept` on a five-entry record, entry by entry. */
  lemma KeptFive(p0: (string, QueryValue), p1: (string, QueryValue), p2: (string, QueryValue),
                 p3: (string, QueryValue), p4: (string, QueryValue))
    ensures Kept([p0, p1, p2, p3, p4]) ==
      PairIf(p0.0, p0.1) + PairIf(p1.0, p1.1) + PairIf(p2.0, p2.1) + PairIf(p3.0, p3.1) + PairIf(p4.0, p4.1)
  {
    var s1, s2, s3, s4, s5 := [p0], [p0, p1], [p0, p1, p2], [p0, p1, p2, p3], [p0, p1, p2, p3, p4];
    assert s1[..0] == [];
    assert s2[..1] == s1;
    assert s3[..2] == s2;
    assert s4[..3] == s3;
    assert s5[..4] == s4;
    var k1 := Kept(s1);
    assert k1 == PairIf(p0.0, p0.1);
    var k2 := Kept(s2);
    assert k2 == k1 + PairIf(p1.0, p1.1);
    var k3 := Kept(s3);
    assert k3 == k2 + PairIf(p2.0, p2.1);
    var k4 := Kept(s4);
    assert k4 == k3 + PairIf(p3.0, p3.1);
    assert Kept(s5) == k4 + PairIf(p4.0, p4.1);
  }

  /**
   * The query of both fetchers: `from` and `to` when non-empty, always
   * `granularity`, then `companyId` and `formTypeId` when given and non-empty.
   */
  lemma TimeseriesQuery(a: FetchArgs)
    ensures QueryPairs(TimeseriesParams(a)) ==
      PairIf("from", Text(a.from)) + PairIf("to", Text(a.to)) +
      [("granularity", GranularityName(a.granularity))] +
      PairIf("companyId", OrNull(a.companyId)) + PairIf("formTypeId", OrNull(a.formTypeId))
  {
    var ps := TimeseriesParams(a);
    TimeseriesParamsDistinct(a);
    QueryPairsKept(ps);
    KeptFive(ps[0], ps[1], ps[2], ps[3], ps[4]);
    assert PairIf(ps[2].0, ps[2].1) == [("granularity", GranularityName(a.granularity))];
  }

  /** `granularity` is always sent. */
  lemma GranularityAlwaysSent(a: FetchArgs)
    ensures ("granularity", GranularityName(a.granularity)) in QueryPairs(TimeseriesParams(a))
  {
    TimeseriesQuery(a);
    var g := ("granularity", GranularityName(a.granularity));
    var front := PairIf("from", Text(a.from)) + PairIf("to", Text(a.to));
    var back := PairIf("companyId", OrNull(a.companyId)) + PairIf("formTypeId", OrNull(a.formTypeId));
    assert QueryPairs(TimeseriesParams(a)) == front + [g] + back;
    assert (front + [g] + back)[|front|] == g;
  }

  /** `${apiBase}/api/metrics/timeseries/requests?${qs}` */
  function RequestsUrl(a: FetchArgs): (url: string)
    ensures StartsWith(url, a.apiBase + "/api/metrics/timeseries/requests?")
  {
    var prefix := a.apiBase + "/api/metrics/timeseries/requests?";
    var url := prefix + QueryString(TimeseriesParams(a));
    assert url[..|prefix|] == prefix;
    url
  }

  /** `${apiBase}/api/metrics/timeseries/latency?${qs}` */
  function LatencyUrl(a: FetchArgs): (url: string)
    ensures StartsWith(url, a.apiBase + "/api/metrics/timeseries/latency?")
  {
    var prefix := a.apiBase + "/api/metrics/timeseries/latency?";
    var url := prefix + QueryString(TimeseriesParams(a));
    assert url[..|prefix|] == prefix;
    url
  }

  /** The two URLs differ only in the endpoint path; the query after `?` is the same. */
  lemma UrlsShareQuery(a: FetchArgs)
    ensures RequestsUrl(a)[|a.apiBase + "/api/metrics/timeseries/requests?"|..] ==
            LatencyUrl(a)[|a.apiBase + "/api/metrics/timeseries/latency?"|..] ==
            QueryString(TimeseriesParams(a))
  {
    var q := QueryString(TimeseriesParams(a));
    var p1 := a.apiBase + "/api/metrics/timeseries/requests?";
    var p2 := a.apiBase + "/api/metrics/timeseries/latency?";
    assert (p1 + q)[|p1|..] == q;
    assert (p2 + q)[|p2|..] == q;
  }
}
