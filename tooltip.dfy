/**
 * components/Charts.tsx: the custom tooltip of both charts. It keeps the
 * payload entries whose value is a number and orders them by the rank of
 * their series name (2xx, 4xx, 5xx, started, all, anything else).
 *
 * `Array.prototype.sort` is stable (ECMAScript 2019 and later), so the order
 * is modelled by a stable insertion sort on the rank; the date formatting of
 * the title (`Intl.DateTimeFormat`) enters as the parameter `formatTitle`.
 */
module Tooltip {
  import opened Wrappers
  import opened JsString

  /** The `value` of a payload entry: a number, or anything else. */
  datatype EntryValue = Numeric(n: real) | NonNumeric

  /** One series entry of the tooltip payload, with its name as `String(p.name)` gives it. */
  datatype Entry = Entry(name: string, value: EntryValue)

  /** The `order` of a series name: the first of the tests on the lower-cased name that matches. */
  function Rank(name: string): (r: int)
    ensures r in {1, 2, 3, 4, 5, 9}
  {
    var s := ToLower(name);
    if Includes(s, "2xx") then 1
    else if Includes(s, "4xx") then 2
    else if Includes(s, "5xx") then 3
    else if Includes(s, "started") then 4
    else if Includes(s, "all") then 5
    else 9
  }

  /** A text that lacks one of the characters of `t` does not include `t`. */
  lemma MissingChar(s: string, t: string, m: int)
    requires 0 <= m < |t| && t[m] !in s
    ensures !Includes(s, t)
  {
  }

  /** The status series of the requests chart rank in their marker's order. */
  lemma RankStatusSeries()
    ensures Rank("2xx") == 1 && Rank("4xx") == 2 && Rank("5xx") == 3
  {
    assert ToLower("2xx") == "2xx" && OccursAt("2xx", "2xx", 0);
    assert ToLower("4xx") == "4xx" && OccursAt("4xx", "4xx", 0);
    assert ToLower("5xx") == "5xx" && OccursAt("5xx", "5xx", 0);
    MissingChar("2xx", "4xx", 0);
    MissingChar("2xx", "5xx", 0);
    MissingChar("4xx", "2xx", 0);
    MissingChar("4xx", "5xx", 0);
    MissingChar("5xx", "2xx", 0);
    MissingChar("5xx", "4xx", 0);
  }

  /** "Started" ranks 4 although its capital S differs from the marker `started`. */
  lemma RankStarted()
    ensures Rank("Started") == 4
  {
    var st := ToLower("Started");
    assert st == "started" && OccursAt(st, "started", 0);
    MissingChar(st, "2xx", 0);
    MissingChar(st, "4xx", 0);
    MissingChar(st, "5xx", 0);
  }

  /** "Avg All (ms)" ranks 5 although its capital A differs from the marker `all`. */
  lemma RankAvgAll()
    ensures Rank("Avg All (ms)") == 5
  {
    var all := ToLower("Avg All (ms)");
    assert all == "avg all (ms)" && OccursAt(all, "all", 4);
    MissingChar(all, "2xx", 0);
    MissingChar(all, "4xx", 0);
    MissingChar(all, "5xx", 0);
    MissingChar(all, "started", 1);
  }

  /** The earlier rule wins: "Avg 2xx (ms)" ranks 1, and a name without any marker ranks 9. */
  lemma RankFirstMatch()
    ensures Rank("Avg 2xx (ms)") == 1
    ensures Rank("p95") == 9
  {
    var two := ToLower("Avg 2xx (ms)");
    assert two == "avg 2xx (ms)" && OccursAt(two, "2xx", 4);
    var p := ToLower("p95");
    assert p == "p95";
    MissingChar(p, "2xx", 0);
    MissingChar(p, "4xx", 0);
    MissingChar(p, "5xx", 1);
    MissingChar(p, "started", 0);
    MissingChar(p, "all", 0);
  }

  /** The rank is blind to letter case. */
  lemma RankIgnoresCase(a: string, b: string)
    requires ToLower(a) == ToLower(b)
    ensures Rank(a) == Rank(b)
  {
  }

  /** `payload.filter(p => p && typeof p.value === "number")`; `None` stands for a null entry. */
  function NumericItems(payload: seq<Option<Entry>>): (r: seq<Entry>)
    ensures |r| <= |payload|
    ensures forall i :: 0 <= i < |r| ==> r[i].value.Numeric?
    ensures forall e :: e in r <==> Some(e) in payload && e.value.Numeric?
  {
    if |payload| == 0 then []
    else
      var rest := NumericItems(payload[1..]);
      assert forall x :: x in payload <==> x == payload[0] || x in payload[1..];
      match payload[0]
      case Some(e) => if e.value.Numeric? then [e] + rest else rest
      case None => rest
  }

  /** A single payload entry is kept exactly when it is present and numeric. */
  lemma NumericItemsSingle(p: Option<Entry>)
    ensures NumericItems([p]) == if p.Some? && p.value.value.Numeric? then [p.value] else []
  {
    assert [p][1..] == [];
  }

  /** The filter works entry by entry: it keeps order and multiplicity across a concatenation. */
  lemma {:induction false} NumericItemsAppend(a: seq<Option<Entry>>, b: seq<Option<Entry>>)
    ensures NumericItems(a + b) == NumericItems(a) + NumericItems(b)
    decreases |a|
  {
    if |a| == 0 {
      assert a + b == b;
    } else {
      assert (a + b)[0] == a[0];
      assert (a + b)[1..] == a[1..] + b;
      NumericItemsAppend(a[1..], b);
      AppendAssoc(NumericItems([a[0]]), NumericItems(a[1..]), NumericItems(b));
      NumericItemsSingle(a[0]);
    }
  }

  /** The sort key of an entry: the rank of its name. */
  function Key(e: Entry): int { Rank(e.name) }

  /*
   * `items.sort((a, b) => key(a) - key(b))` is a stable sort by an integer
   * key. The sort and its lemmas are stated for any key; the tooltip uses `Key`.
   */

  /** Non-decreasing key from left to right. */
  predicate Sorted(s: seq<Entry>, key: Entry -> int) {
    forall i, j :: 0 <= i < j < |s| ==> key(s[i]) <= key(s[j])
  }

  /** The entries of key `k`, in their order. */
  function OfRank(s: seq<Entry>, key: Entry -> int, k: int): (r: seq<Entry>)
    ensures forall i :: 0 <= i < |r| ==> key(r[i]) == k
  {
    if |s| == 0 then [] else (if key(s[0]) == k then [s[0]] else []) + OfRank(s[1..], key, k)
  }

  lemma {:induction false} OfRankAppend(a: seq<Entry>, b: seq<Entry>, key: Entry -> int, k: int)
    ensures OfRank(a + b, key, k) == OfRank(a, key, k) + OfRank(b, key, k)
  {
    if |a| == 0 {
      assert a + b == b;
    } else {
      assert (a + b)[1..] == a[1..] + b;
      OfRankAppend(a[1..], b, key, k);
    }
  }

  /** `x` goes after every entry of key at most its own, before the first of higher key. */
  function Insert(x: Entry, s: seq<Entry>, key: Entry -> int): (r: seq<Entry>)
    requires Sorted(s, key)
    ensures Sorted(r, key)
    ensures multiset(r) == multiset(s) + multiset{x}
    ensures |r| == |s| + 1
    ensures r[0] == x || (|s| > 0 && r[0] == s[0])
  {
    if |s| == 0 then [x]
    else if key(x) < key(s[0]) then
      SortedCons(x, s, key);
      [x] + s
    else
      var rest := Insert(x, s[1..], key);
      assert s == [s[0]] + s[1..];
      assert |s| > 1 ==> key(s[0]) <= key(s[1]);
      SortedCons(s[0], rest, key);
      [s[0]] + rest
  }

  /** An entry no higher than the head of a sorted list can go in front of it. */
  lemma SortedCons(a: Entry, t: seq<Entry>, key: Entry -> int)
    requires Sorted(t, key)
    requires |t| > 0 ==> key(a) <= key(t[0])
    ensures Sorted([a] + t, key)
  {
    var r := [a] + t;
    forall i, j | 0 <= i < j < |r| ensures key(r[i]) <= key(r[j]) {
      if i == 0 {
        assert r[j] == t[j - 1];
        assert key(t[0]) <= key(t[j - 1]) || j == 1;
      } else {
        assert r[i] == t[i - 1] && r[j] == t[j - 1];
      }
    }
  }

  /** The stable sort of `items` by `key`: each entry inserted in turn. */
  function SortBy(items: seq<Entry>, key: Entry -> int): (r: seq<Entry>)
    ensures Sorted(r, key)
    ensures multiset(r) == multiset(items)
  {
    if |items| == 0 then []
    else
      var n := |items|;
      assert items == items[..n - 1] + [items[n - 1]];
      Insert(items[n - 1], SortBy(items[..n - 1], key), key)
  }

  /** Inserting `x` puts it last among the entries of its key and leaves the other keys alone. */
  lemma {:induction false} InsertOfRank(x: Entry, s: seq<Entry>, key: Entry -> int, k: int)
    requires Sorted(s, key)
    ensures OfRank(Insert(x, s, key), key, k) == OfRank(s, key, k) + (if key(x) == k then [x] else [])
  {
    if |s| == 0 {
      assert OfRank([x], key, k) == (if key(x) == k then [x] else []) + OfRank([], key, k);
    } else if key(x) < key(s[0]) {
      InsertOfRankFront(x, s, key, k);
    } else {
      SortedTail(s, key);
      InsertOfRank(x, s[1..], key, k);
      InsertOfRankStep(x, s, key, k);
    }
  }

  /** The case where `x` goes in front: no entry of its key follows it. */
  lemma InsertOfRankFront(x: Entry, s: seq<Entry>, key: Entry -> int, k: int)
    requires Sorted(s, key) && |s| > 0 && key(x) < key(s[0])
    ensures OfRank(Insert(x, s, key), key, k) == OfRank(s, key, k) + (if key(x) == k then [x] else [])
  {
    var tail := if key(x) == k then [x] else [];
    assert Insert(x, s, key) == [x] + s;
    assert ([x] + s)[1..] == s;
    assert OfRank([x] + s, key, k) == tail + OfRank(s, key, k);
    if key(x) == k {
      AllAboveNoneOfRank(s, key, k);
      assert tail + [] == [] + tail;
    } else {
      assert [] + OfRank(s, key, k) == OfRank(s, key, k) + [];
    }
  }

  /** The case where `x` goes behind the head: the head's contribution comes first on both sides. */
  lemma InsertOfRankStep(x: Entry, s: seq<Entry>, key: Entry -> int, k: int)
    requires Sorted(s, key) && |s| > 0 && key(s[0]) <= key(x) && Sorted(s[1..], key)
    requires OfRank(Insert(x, s[1..], key), key, k) == OfRank(s[1..], key, k) + (if key(x) == k then [x] else [])
    ensures OfRank(Insert(x, s, key), key, k) == OfRank(s, key, k) + (if key(x) == k then [x] else [])
  {
    var tail := if key(x) == k then [x] else [];
    var head := if key(s[0]) == k then [s[0]] else [];
    var rest := Insert(x, s[1..], key);
    var mid := OfRank(s[1..], key, k);
    assert Insert(x, s, key) == [s[0]] + rest;
    assert ([s[0]] + rest)[1..] == rest;
    assert OfRank([s[0]] + rest, key, k) == head + OfRank(rest, key, k);
    assert OfRank(s, key, k) == head + mid;
    AppendAssoc(head, mid, tail);
  }

  lemma AppendAssoc(a: seq<Entry>, b: seq<Entry>, c: seq<Entry>)
    ensures a + (b + c) == (a + b) + c
  {
  }

  lemma SortedTail(s: seq<Entry>, key: Entry -> int)
    requires Sorted(s, key) && |s| > 0
    ensures Sorted(s[1..], key)
  {
    forall i, j | 0 <= i < j < |s| - 1 ensures key(s[1..][i]) <= key(s[1..][j]) {
      assert s[1..][i] == s[i + 1] && s[1..][j] == s[j + 1];
    }
  }

  /** A sorted list that starts above key `k` has no entry of key `k`. */
  lemma {:induction false} AllAboveNoneOfRank(s: seq<Entry>, key: Entry -> int, k: int)
    requires Sorted(s, key)
    requires |s| > 0 && k < key(s[0])
    ensures OfRank(s, key, k) == []
  {
    if |s| > 1 {
      assert key(s[0]) <= key(s[1]);
      AllAboveNoneOfRank(s[1..], key, k);
    }
  }

  /**
   * The sort is stable: the entries of each key come out in the order they
   * went in. With `Sorted` and the permutation property this fixes the
   * result completely.
   */
  lemma {:induction false} SortByStable(items: seq<Entry>, key: Entry -> int, k: int)
    ensures OfRank(SortBy(items, key), key, k) == OfRank(items, key, k)
  {
    if |items| > 0 {
      var n := |items|;
      var prefix, x := items[..n - 1], items[n - 1];
      assert items == prefix + [x];
      var sorted := SortBy(prefix, key);
      var tail := if key(x) == k then [x] else [];
      assert SortBy(items, key) == Insert(x, sorted, key);
      SortByStable(prefix, key, k);
      InsertOfRank(x, sorted, key, k);
      assert OfRank(SortBy(items, key), key, k) == OfRank(prefix, key, k) + tail;
      OfRankAppend(prefix, [x], key, k);
      OfRankSingle(x, key, k);
    }
  }

  lemma OfRankSingle(x: Entry, key: Entry -> int, k: int)
    ensures OfRank([x], key, k) == if key(x) == k then [x] else []
  {
    assert OfRank([x], key, k) == (if key(x) == k then [x] else []) + OfRank([], key, k);
  }

  /** The `label` of the tooltip, as far as truthiness and `String(label)` go. */
  datatype Label = NoLabel | LabelText(s: string) | LabelNumber(n: int)

  predicate TruthyLabel(l: Label) {
    match l
    case NoLabel => false
    case LabelText(s) => s != ""
    case LabelNumber(n) => n != 0
  }

  datatype TooltipView = TooltipView(title: string, rows: seq<Entry>)

  /**
   * `CustomTooltip({ active, label, payload })`: nothing when inactive or the
   * payload is missing or empty; otherwise the title and the numeric entries
   * in rank order.
   */
  function CustomTooltip(active: bool, tipLabel: Label, payload: Option<seq<Option<Entry>>>,
                         formatTitle: string -> string): (r: Option<TooltipView>)
    ensures r.None? <==> !active || payload.None? || |payload.value| == 0
    ensures r.Some? && !TruthyLabel(tipLabel) ==> r.value.title == ""
    ensures r.Some? ==> Sorted(r.value.rows, Key) && multiset(r.value.rows) == multiset(NumericItems(payload.value))
    ensures r.Some? ==> forall k :: OfRank(r.value.rows, Key, k) == OfRank(NumericItems(payload.value), Key, k)
    ensures r.Some? ==> forall i :: 0 <= i < |r.value.rows| ==> Some(r.value.rows[i]) in payload.value
  {
    if !active || payload.None? || |payload.value| == 0 then None
    else
      var items := SortBy(NumericItems(payload.value), Key);
      forall k ensures OfRank(items, Key, k) == OfRank(NumericItems(payload.value), Key, k) {
        SortByStable(NumericItems(payload.value), Key, k);
      }
      assert forall i :: 0 <= i < |items| ==> items[i] in multiset(NumericItems(payload.value));
      var title := if !TruthyLabel(tipLabel) then ""
        else formatTitle(match tipLabel
                         case LabelText(s) => s
                         case LabelNumber(n) => IntToString(n)
                         case NoLabel => "");
      Some(TooltipView(title, items))
  }
}
