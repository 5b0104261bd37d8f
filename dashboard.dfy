/**
 * app/dashboard/page.tsx: the parts of the dashboard page that compute
 * rather than render: the KPI aggregation over the fetched points, the
 * `isoLocal` timestamp format of the range inputs, and the arguments the page
 * hands to the two fetchers.
 *
 * The KPI rates, computed in floating point by the source, are modelled over
 * `real`, where the identities between them hold exactly.
 */
module Dashboard {
  import opened Wrappers
  import opened JsString
  import opened ProcessEnv
  import opened MetricsApi

  /** A point of the requests series; a missing or null count is `None`. */
  datatype RequestsPoint = RequestsPoint(t: string, started: Option<int>, c2xx: Option<int>,
                                         c4xx: Option<int>, c5xx: Option<int>)

  /** A point of the latency series, reduced to `avgAllMs`; `None` when it is not a number. */
  datatype LatencyPoint = LatencyPoint(t: string, avgAllMs: Option<real>)

  /** `x ?? 0`. */
  function OrZero(x: Option<int>): int {
    match x
    case None => 0
    case Some(n) => n
  }

  /** `points.reduce((a, p) => a + (p.field ?? 0), 0)`. */
  function SumOf(points: seq<RequestsPoint>, field: RequestsPoint -> Option<int>): int {
    if |points| == 0 then 0
    else SumOf(points[..|points| - 1], field) + OrZero(field(points[|points| - 1]))
  }

  /** Summing over two runs of points is summing each and adding. */
  lemma {:induction false} SumOfAppend(a: seq<RequestsPoint>, b: seq<RequestsPoint>, field: RequestsPoint -> Option<int>)
    ensures SumOf(a + b, field) == SumOf(a, field) + SumOf(b, field)
    decreases |b|
  {
    if |b| == 0 {
      assert a + b == a;
    } else {
      var n := |b|;
      assert (a + b)[..|a + b| - 1] == a + b[..n - 1];
      SumOfAppend(a, b[..n - 1], field);
    }
  }

  /** A point whose summed field is missing adds nothing, whatever its other counts. */
  lemma SumOfMissing(a: seq<RequestsPoint>, p: RequestsPoint, field: RequestsPoint -> Option<int>)
    requires field(p).None?
    ensures SumOf(a + [p], field) == SumOf(a, field)
  {
    assert (a + [p])[..|a|] == a;
  }

  /** Counts that are never negative have a non-negative sum. */
  lemma {:induction false} SumOfNonNegative(points: seq<RequestsPoint>, field: RequestsPoint -> Option<int>)
    requires forall i :: 0 <= i < |points| ==> OrZero(field(points[i])) >= 0
    ensures SumOf(points, field) >= 0
  {
    if |points| > 0 {
      SumOfNonNegative(points[..|points| - 1], field);
    }
  }

  function Started(p: RequestsPoint): Option<int> { p.started }
  function Count2xx(p: RequestsPoint): Option<int> { p.c2xx }
  function Count4xx(p: RequestsPoint): Option<int> { p.c4xx }
  function Count5xx(p: RequestsPoint): Option<int> { p.c5xx }

  /** The numeric `avgAllMs` values of the latency points, in order. */
  function Averages(points: seq<LatencyPoint>): (r: seq<real>)
    ensures |r| == 0 <==> forall i :: 0 <= i < |points| ==> points[i].avgAllMs.None?
  {
    if |points| == 0 then []
    else
      var rest := Averages(points[1..]);
      assert forall i :: 1 <= i < |points| ==> points[i] == points[1..][i - 1];
      match points[0].avgAllMs
      case Some(x) => [x] + rest
      case None => rest
  }

  function RealSum(xs: seq<real>): real {
    if |xs| == 0 then 0.0 else xs[0] + RealSum(xs[1..])
  }

  datatype Kpi = Kpi(totalStarted: int, completed: int, c2xx: int, c4xx: int, c5xx: int,
                     successRate: real, errRate: real, err5xxRate: real, avgAllMs: Option<real>)

  /** `completed > 0 ? part / completed : 0`. */
  function Rate(part: int, completed: int): (r: real)
    ensures completed > 0 ==> r * completed as real == part as real
    ensures completed <= 0 ==> r == 0.0
  {
    if completed > 0 then part as real / completed as real else 0.0
  }

  /**
   * The `kpi` memo. `completed` is the sum of the three outcome classes; with
   * nothing completed every rate is 0; `avgAllMs` is null exactly when no
   * latency point has a numeric `avgAllMs`.
   */
  function ComputeKpi(reqData: seq<RequestsPoint>, latData: seq<LatencyPoint>): (k: Kpi)
    ensures k.totalStarted == SumOf(reqData, Started)
    ensures k.c2xx == SumOf(reqData, Count2xx) && k.c4xx == SumOf(reqData, Count4xx) && k.c5xx == SumOf(reqData, Count5xx)
    ensures k.completed == k.c2xx + k.c4xx + k.c5xx
    ensures k.successRate == Rate(k.c2xx, k.completed) && k.errRate == Rate(k.c4xx + k.c5xx, k.completed)
    ensures k.err5xxRate == Rate(k.c5xx, k.completed)
    ensures k.completed == 0 ==> k.successRate == 0.0 && k.errRate == 0.0 && k.err5xxRate == 0.0
    ensures k.avgAllMs.None? <==> forall i :: 0 <= i < |latData| ==> latData[i].avgAllMs.None?
    ensures k.avgAllMs.Some? ==>
      var avgs := Averages(latData); k.avgAllMs.value * |avgs| as real == RealSum(avgs)
  {
    var totalStarted := SumOf(reqData, Started);
    var c2xx := SumOf(reqData, Count2xx);
    var c4xx := SumOf(reqData, Count4xx);
    var c5xx := SumOf(reqData, Count5xx);
    var completed := c2xx + c4xx + c5xx;
    var avgs := Averages(latData);
    var avgAllMs := if |avgs| > 0 then Some(RealSum(avgs) / |avgs| as real) else None;
    Kpi(totalStarted, completed, c2xx, c4xx, c5xx,
        Rate(c2xx, completed), Rate(c4xx + c5xx, completed), Rate(c5xx, completed), avgAllMs)
  }

  /** Every count of every point is missing or non-negative. */
  predicate NonNegativeCounts(reqData: seq<RequestsPoint>) {
    forall i :: 0 <= i < |reqData| ==>
      OrZero(reqData[i].c2xx) >= 0 && OrZero(reqData[i].c4xx) >= 0 && OrZero(reqData[i].c5xx) >= 0
  }

  /** Two shares of one positive whole add up as their parts do. */
  lemma RateAdd(a: int, b: int, c: int)
    requires c > 0
    ensures Rate(a, c) + Rate(b, c) == Rate(a + b, c)
  {
    assert a as real / c as real + b as real / c as real == (a as real + b as real) / c as real;
  }

  /** A smaller part has a smaller share. */
  lemma RateMonotone(a: int, b: int, c: int)
    requires c > 0 && a <= b
    ensures Rate(a, c) <= Rate(b, c)
  {
    assert (b - a) as real / c as real >= 0.0;
    RateAdd(a, b - a, c);
  }

  /**
   * With non-negative counts and something completed, the success and error
   * rates add up to 1 (in exact arithmetic), the 5xx rate is at most the
   * error rate, and every rate lies between 0 and 1.
   */
  lemma KpiRates(reqData: seq<RequestsPoint>, latData: seq<LatencyPoint>)
    requires NonNegativeCounts(reqData)
    requires ComputeKpi(reqData, latData).completed > 0
    ensures var k := ComputeKpi(reqData, latData);
      k.successRate + k.errRate == 1.0 && k.err5xxRate <= k.errRate &&
      0.0 <= k.successRate <= 1.0 && 0.0 <= k.errRate <= 1.0 && 0.0 <= k.err5xxRate
  {
    var k := ComputeKpi(reqData, latData);
    SumOfNonNegative(reqData, Count2xx);
    SumOfNonNegative(reqData, Count4xx);
    SumOfNonNegative(reqData, Count5xx);
    RateAdd(k.c2xx, k.c4xx + k.c5xx, k.completed);
    assert Rate(k.completed, k.completed) == 1.0;
    RateMonotone(k.c5xx, k.c4xx + k.c5xx, k.completed);
    RateMonotone(0, k.c2xx, k.completed);
    RateMonotone(0, k.c4xx + k.c5xx, k.completed);
    RateMonotone(0, k.c5xx, k.completed);
  }

  /** `String(n).padStart(2, "0")`. */
  function Pad(n: int): string {
    PadStart(IntToString(n), 2, '0')
  }

  function Pow10(k: nat): nat {
    if k == 0 then 1 else 10 * Pow10(k - 1)
  }

  /** A number with `k` decimal digits prints as `k` characters. */
  lemma {:induction false} NatToStringLength(n: nat, k: nat)
    requires k >= 1 && (k == 1 || Pow10(k - 1) <= n) && n < Pow10(k)
    ensures |NatToString(n)| == k
  {
    if k > 1 {
      assert Pow10(k - 1) == 10 * Pow10(k - 2);
      NatToStringLength(n / 10, k - 1);
    }
  }

  /** Leading zeros add nothing to the value of a digit string. */
  lemma {:induction false} DecimalValueZeros(z: nat, s: string)
    requires forall i :: 0 <= i < |s| ==> IsDigit(s[i])
    ensures forall i :: 0 <= i < |Repeat('0', z) + s| ==> IsDigit((Repeat('0', z) + s)[i])
    ensures DecimalValue(Repeat('0', z) + s) == DecimalValue(s)
    decreases |s|
  {
    var t := Repeat('0', z) + s;
    if |s| == 0 {
      assert t == Repeat('0', z);
      ZerosValue(z);
    } else {
      assert t[..|t| - 1] == Repeat('0', z) + s[..|s| - 1];
      DecimalValueZeros(z, s[..|s| - 1]);
    }
  }

  lemma {:induction false} ZerosValue(z: nat)
    ensures forall i :: 0 <= i < |Repeat('0', z)| ==> IsDigit(Repeat('0', z)[i])
    ensures DecimalValue(Repeat('0', z)) == 0
  {
    if z > 0 {
      assert Repeat('0', z)[..z - 1] == Repeat('0', z - 1);
      ZerosValue(z - 1);
    }
  }

  /** `pad(n)` for 0 <= n <= 99 is two decimal digits that read back as `n`. */
  lemma PadTwoDigits(n: int)
    requires 0 <= n <= 99
    ensures |Pad(n)| == 2
    ensures forall i :: 0 <= i < 2 ==> IsDigit(Pad(n)[i])
    ensures DecimalValue(Pad(n)) == n
    ensures n < 10 ==> Pad(n)[0] == '0'
  {
    var s := NatToString(n);
    if n < 10 {
      assert |s| == 1;
    } else {
      assert Pow10(1) == 10 && Pow10(2) == 100;
      NatToStringLength(n, 2);
    }
    DecimalValueOfNatToString(n);
    DecimalValueZeros(2 - |s|, s);
  }

  /** The local calendar fields `isoLocal` reads from a `Date`; `month0` is `getMonth()`, from 0. */
  datatype LocalTime = LocalTime(year: int, month0: int, day: int, hours: int, minutes: int)

  predicate ValidLocalTime(d: LocalTime) {
    1000 <= d.year <= 9999 && 0 <= d.month0 <= 11 && 1 <= d.day <= 31 &&
    0 <= d.hours <= 23 && 0 <= d.minutes <= 59
  }

  /** `${year}-${pad(month)}-${pad(day)}`, the date half of `isoLocal`. */
  function DatePart(d: LocalTime): string {
    IntToString(d.year) + "-" + Pad(d.month0 + 1) + "-" + Pad(d.day)
  }

  /** `${pad(hours)}:${pad(minutes)}:00`, the time half of `isoLocal`. */
  function TimePart(d: LocalTime): string {
    Pad(d.hours) + ":" + Pad(d.minutes) + ":00"
  }

  /** `isoLocal(d)`: `YYYY-MM-DDTHH:MM:00`, the month counted from 1 and the seconds fixed. */
  function IsoLocal(d: LocalTime): string {
    DatePart(d) + "T" + TimePart(d)
  }

  /** The digits at `s[i..i+2]` read as `n`. */
  predicate TwoDigitsAt(s: string, i: int, n: int) {
    0 <= i && i + 2 <= |s| && IsDigit(s[i]) && IsDigit(s[i + 1]) && DecimalValue(s[i..i + 2]) == n
  }

  /** A four-digit year is written with exactly its four digits. */
  lemma YearDigits(year: int)
    requires 1000 <= year <= 9999
    ensures var y := IntToString(year);
      |y| == 4 && (forall i :: 0 <= i < 4 ==> IsDigit(y[i])) && DecimalValue(y) == year
  {
    assert Pow10(2) == 100 && Pow10(3) == 1000 && Pow10(4) == 10000;
    NatToStringLength(year, 4);
    DecimalValueOfNatToString(year);
  }

  lemma PadAt(n: int)
    requires 0 <= n <= 99
    ensures |Pad(n)| == 2 && TwoDigitsAt(Pad(n), 0, n)
  {
    PadTwoDigits(n);
    assert Pad(n)[0..2] == Pad(n);
  }

  /** The layout of `y-mo-da` for a four-character year and two-character fields. */
  lemma DateLayout(s: string, y: string, mo: string, da: string, year: int, m: int, day: int)
    requires s == y + "-" + mo + "-" + da
    requires |y| == 4 && (forall i :: 0 <= i < 4 ==> IsDigit(y[i])) && DecimalValue(y) == year
    requires TwoDigitsAt(mo, 0, m) && TwoDigitsAt(da, 0, day) && |mo| == 2 && |da| == 2
    ensures |s| == 10 && s[4] == '-' && s[7] == '-' &&
      (forall i :: 0 <= i < 4 ==> IsDigit(s[i])) && DecimalValue(s[..4]) == year &&
      TwoDigitsAt(s, 5, m) && TwoDigitsAt(s, 8, day)
  {
    var a1 := y + "-";
    var a2 := a1 + mo;
    var a3 := a2 + "-";
    TwoDigitsShift(a1, mo, 0, m);
    TwoDigitsExtend(a2, "-", 5, m);
    TwoDigitsExtend(a3, da, 5, m);
    TwoDigitsShift(a3, da, 0, day);
    assert (a3 + da)[..4] == y;
  }

  /** The layout of `ho:mi:00` for two-character fields. */
  lemma TimeLayout(s: string, ho: string, mi: string, h: int, m: int)
    requires s == ho + ":" + mi + ":00"
    requires TwoDigitsAt(ho, 0, h) && TwoDigitsAt(mi, 0, m) && |ho| == 2 && |mi| == 2
    ensures |s| == 8 && s[2] == ':' && s[5] == ':' && s[6..] == "00" &&
      TwoDigitsAt(s, 0, h) && TwoDigitsAt(s, 3, m)
  {
    var a1 := ho + ":";
    var a2 := a1 + mi;
    TwoDigitsExtend(ho, ":", 0, h);
    TwoDigitsExtend(a1, mi, 0, h);
    TwoDigitsShift(a1, mi, 0, m);
    TwoDigitsExtend(a2, ":00", 0, h);
    TwoDigitsExtend(a2, ":00", 3, m);
  }

  lemma DatePartLayout(d: LocalTime)
    requires ValidLocalTime(d)
    ensures var dp := DatePart(d);
      |dp| == 10 && dp[4] == '-' && dp[7] == '-' &&
      (forall i :: 0 <= i < 4 ==> IsDigit(dp[i])) && DecimalValue(dp[..4]) == d.year &&
      TwoDigitsAt(dp, 5, d.month0 + 1) && TwoDigitsAt(dp, 8, d.day)
  {
    var y := IntToString(d.year);
    YearDigits(d.year);
    PadAt(d.month0 + 1);
    PadAt(d.day);
    DateLayout(DatePart(d), y, Pad(d.month0 + 1), Pad(d.day), d.year, d.month0 + 1, d.day);
  }

  lemma TimePartLayout(d: LocalTime)
    requires ValidLocalTime(d)
    ensures var tp := TimePart(d);
      |tp| == 8 && tp[2] == ':' && tp[5] == ':' && tp[6..] == "00" &&
      TwoDigitsAt(tp, 0, d.hours) && TwoDigitsAt(tp, 3, d.minutes)
  {
    PadAt(d.hours);
    PadAt(d.minutes);
    TimeLayout(TimePart(d), Pad(d.hours), Pad(d.minutes), d.hours, d.minutes);
  }

  /** A field read inside one part of a text reads the same inside the whole. */
  lemma TwoDigitsShift(a: string, b: string, i: int, n: int)
    requires TwoDigitsAt(b, i, n)
    ensures TwoDigitsAt(a + b, |a| + i, n)
  {
    assert (a + b)[|a| + i..|a| + i + 2] == b[i..i + 2];
  }

  lemma TwoDigitsExtend(a: string, b: string, i: int, n: int)
    requires TwoDigitsAt(a, i, n)
    ensures TwoDigitsAt(a + b, i, n)
  {
    assert (a + b)[i..i + 2] == a[i..i + 2];
  }

  /** The full layout follows from the layouts of the two halves. */
  lemma JoinLayout(dp: string, tp: string, d: LocalTime)
    requires |dp| == 10 && dp[4] == '-' && dp[7] == '-'
    requires (forall i :: 0 <= i < 4 ==> IsDigit(dp[i])) && DecimalValue(dp[..4]) == d.year
    requires TwoDigitsAt(dp, 5, d.month0 + 1) && TwoDigitsAt(dp, 8, d.day)
    requires |tp| == 8 && tp[2] == ':' && tp[5] == ':' && tp[6..] == "00"
    requires TwoDigitsAt(tp, 0, d.hours) && TwoDigitsAt(tp, 3, d.minutes)
    ensures var s := dp + "T" + tp;
      |s| == 19 &&
      s[4] == '-' && s[7] == '-' && s[10] == 'T' && s[13] == ':' && s[16] == ':' && s[17..] == "00" &&
      (forall i :: 0 <= i < 4 ==> IsDigit(s[i])) && DecimalValue(s[..4]) == d.year &&
      TwoDigitsAt(s, 5, d.month0 + 1) && TwoDigitsAt(s, 8, d.day) &&
      TwoDigitsAt(s, 11, d.hours) && TwoDigitsAt(s, 14, d.minutes)
  {
    var head := dp + "T";
    TwoDigitsExtend(dp, "T", 5, d.month0 + 1);
    TwoDigitsExtend(dp, "T", 8, d.day);
    TwoDigitsExtend(head, tp, 5, d.month0 + 1);
    TwoDigitsExtend(head, tp, 8, d.day);
    TwoDigitsShift(head, tp, 0, d.hours);
    TwoDigitsShift(head, tp, 3, d.minutes);
    var s := head + tp;
    assert s[..4] == dp[..4];
    assert s[17..] == tp[6..];
  }

  /**
   * For a four-digit year the text is 19 characters with the separators in
   * their fixed places, and every field reads back from its position: the
   * format is a faithful encoding of the calendar fields.
   */
  lemma IsoLocalLayout(d: LocalTime)
    requires ValidLocalTime(d)
    ensures var s := IsoLocal(d);
      |s| == 19 &&
      s[4] == '-' && s[7] == '-' && s[10] == 'T' && s[13] == ':' && s[16] == ':' && s[17..] == "00" &&
      (forall i :: 0 <= i < 4 ==> IsDigit(s[i])) && DecimalValue(s[..4]) == d.year &&
      TwoDigitsAt(s, 5, d.month0 + 1) && TwoDigitsAt(s, 8, d.day) &&
      TwoDigitsAt(s, 11, d.hours) && TwoDigitsAt(s, 14, d.minutes)
  {
    DatePartLayout(d);
    TimePartLayout(d);
    JoinLayout(DatePart(d), TimePart(d), d);
  }

  /** `process.env.NEXT_PUBLIC_METRICS_API_BASE || "http://localhost:5000"`: also an empty value falls back. */
  function ApiBase(env: Env): (base: string)
    ensures base != ""
    ensures env.metricsApiBase.Some? && env.metricsApiBase.value != "" ==> base == env.metricsApiBase.value
    ensures env.metricsApiBase.None? || env.metricsApiBase.value == "" ==> base == "http://localhost:5000"
  {
    match env.metricsApiBase
    case Some(s) => if s == "" then "http://localhost:5000" else s
    case None => "http://localhost:5000"
  }

  /** `s || undefined`. */
  function OrUndefined(s: string): (r: Option<string>)
    ensures r.None? <==> s == ""
    ensures s != "" ==> r == Some(s)
  {
    if s == "" then None else Some(s)
  }

  /** The arguments the page's `load` passes to both fetchers. */
  function PageFetchArgs(env: Env, from: string, to: string, granularity: Granularity,
                         companyId: string, formTypeId: string): FetchArgs {
    FetchArgs(ApiBase(env), from, to, granularity, OrUndefined(companyId), OrUndefined(formTypeId))
  }

  /**
   * The query the page sends: an empty company or form-type filter is left out
   * of it, exactly as a non-empty one is put in.
   */
  lemma PageQuery(env: Env, from: string, to: string, granularity: Granularity, companyId: string, formTypeId: string)
    ensures QueryPairs(TimeseriesParams(PageFetchArgs(env, from, to, granularity, companyId, formTypeId))) ==
      PairIf("from", Text(from)) + PairIf("to", Text(to)) + [("granularity", GranularityName(granularity))] +
      PairIf("companyId", Text(companyId)) + PairIf("formTypeId", Text(formTypeId))
  {
    var a := PageFetchArgs(env, from, to, granularity, companyId, formTypeId);
    TimeseriesQuery(a);
    assert PairIf("companyId", OrNull(a.companyId)) == PairIf("companyId", Text(companyId));
    assert PairIf("formTypeId", OrNull(a.formTypeId)) == PairIf("formTypeId", Text(formTypeId));
  }
}
