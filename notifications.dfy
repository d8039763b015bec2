/** The activity list: relative times, the grouping of entries by calendar day, the text of
    each entry and where a click on it leads. The list itself is read from the store in
    `created_at` descending order; this page writes nothing. */
module Notifications {
  import opened Wrappers
  import opened Text

  type Id = string

  /** `activity_type`; any other stored value falls to `OtherKind`. */
  datatype Kind = VisitedPlace | CompletedObjective | NewFollower | OtherKind(name: string)

  /** An `activity_feed` row. `createdAt` is the timestamp in the ISO form `toISOString`
      gives (YYYY-MM-DDTHH:mm:ss.sssZ). */
  datatype Activity = Activity(
    id: Id,
    userId: Id,
    kind: Kind,
    objectiveId: Option<Id>,
    objectiveTitle: Option<string>,
    objectiveItemId: Option<Id>,
    itemName: Option<string>,
    createdAt: string)

  // ---------------------------------------------------------------------------------------
  // formatRel

  const HourMs: int := 3600000
  const DayMs: int := 86400000

  /** What `formatRel` shows, before it is spelled out. */
  datatype Rel = JustNow | HoursAgo(hours: nat) | OneDayAgo | DaysAgo(days: nat) | OnDate

  /** The branches of `formatRel` on `diffH = floor(elapsed / 36e5)` and
      `diffD = floor(diffH / 24)`, with `elapsed` the milliseconds since the entry. */
  function RelOf(elapsedMs: int): (r: Rel)
    ensures r == JustNow <==> elapsedMs < HourMs
    ensures r.HoursAgo? ==> 1 <= r.hours <= 23
    ensures r.DaysAgo? ==> 2 <= r.days <= 6
  {
    var diffH := elapsedMs / HourMs;
    if diffH < 1 then JustNow
    else if diffH < 24 then HoursAgo(diffH)
    else
      var diffD := diffH / 24;
      if diffD == 1 then OneDayAgo
      else if diffD < 7 then DaysAgo(diffD)
      else OnDate
  }

  /** Flooring to hours and then to days is flooring to days. */
  lemma HoursThenDays(e: int)
    ensures (e / HourMs) / 24 == e / DayMs
  {
    var h, r1 := e / HourMs, e % HourMs;
    var d, r2 := h / 24, h % 24;
    assert e == HourMs * h + r1;
    assert h == 24 * d + r2;
    assert e == DayMs * d + (HourMs * r2 + r1);
    assert 0 <= HourMs * r2 + r1 < DayMs;
  }

  /** `formatRel` by elapsed milliseconds: under an hour (or in the future) is "a moment ago",
      then whole hours up to a day, "1 day" for the second day, whole days up to a week,
      and the calendar date from seven days on. */
  lemma RelByElapsed(e: int)
    ensures e < HourMs ==> RelOf(e) == JustNow
    ensures HourMs <= e < DayMs ==> RelOf(e) == HoursAgo(e / HourMs) && 1 <= e / HourMs <= 23
    ensures DayMs <= e < 2 * DayMs ==> RelOf(e) == OneDayAgo
    ensures 2 * DayMs <= e < 7 * DayMs ==> RelOf(e) == DaysAgo(e / DayMs) && 2 <= e / DayMs <= 6
    ensures 7 * DayMs <= e ==> RelOf(e) == OnDate
  {
    HoursThenDays(e);
  }

  /** An entry never shows a smaller age as time passes: the bucket only moves forward. */
  lemma RelMonotone(e1: int, e2: int)
    requires e1 <= e2
    ensures RelRank(RelOf(e1)) <= RelRank(RelOf(e2))
  {
    RelByElapsed(e1);
    RelByElapsed(e2);
    HoursThenDays(e1);
    HoursThenDays(e2);
  }

  /** Orders the buckets by age; within hours and days by the count. */
  function RelRank(r: Rel): int
  {
    match r
    case JustNow => 0
    case HoursAgo(h) => h
    case OneDayAgo => 24
    case DaysAgo(d) => 24 * d
    case OnDate => 24 * 7
  }

  /** The text `formatRel` returns; `date` is the locale-formatted calendar date. */
  function FormatRel(elapsedMs: int, date: string): (t: string)
    ensures RelOf(elapsedMs) == OnDate ==> t == date
    ensures RelOf(elapsedMs) != OnDate ==> |t| >= 7 && t[..5] == "Hace "
  {
    match RelOf(elapsedMs)
    case JustNow => "Hace un momento"
    case HoursAgo(h) => "Hace " + Decimal(h) + "h"
    case OneDayAgo => "Hace 1 día"
    case DaysAgo(d) => "Hace " + Decimal(d) + " días"
    case OnDate => date
  }

  /** Within the first day the text names the hour count, which can be read back. */
  lemma FormatRelHours(e: int, date: string)
    requires HourMs <= e < DayMs
    ensures var t := FormatRel(e, date);
      |t| >= 7 && t[..5] == "Hace " && t[|t| - 1] == 'h'
      && DigitsValue(t[5..|t| - 1]) == e / HourMs
  {
    RelByElapsed(e);
    var h := e / HourMs;
    var t := FormatRel(e, date);
    assert t == "Hace " + Decimal(h) + "h";
    assert t[5..|t| - 1] == Decimal(h);
    DecimalRoundTrip(h);
  }

  /** From the second to the seventh day the text names the day count, which can be read back. */
  lemma FormatRelDays(e: int, date: string)
    requires 2 * DayMs <= e < 7 * DayMs
    ensures var t := FormatRel(e, date);
      |t| >= 11 && t[..5] == "Hace " && t[|t| - 5..] == " días"
      && DigitsValue(t[5..|t| - 5]) == e / DayMs
  {
    RelByElapsed(e);
    var d := e / DayMs;
    var t := FormatRel(e, date);
    assert t == "Hace " + Decimal(d) + " días";
    assert t[5..|t| - 5] == Decimal(d);
    DecimalRoundTrip(d);
  }

  // ---------------------------------------------------------------------------------------
  // dayKey and grouped

  /** `toISOString().slice(0, 10)`: the calendar day part of the timestamp. */
  function DayKey(iso: string): (k: string)
    ensures |k| == if |iso| < 10 then |iso| else 10
    ensures k <= iso
  {
    if |iso| < 10 then iso else iso[..10]
  }

  function Key(a: Activity): string
  {
    DayKey(a.createdAt)
  }

  /** The keys of the `Map` in insertion order: each day once, at its first entry. */
  function Keys(acts: seq<Activity>): seq<string>
  {
    if acts == [] then []
    else
      var ks := Keys(acts[..|acts| - 1]);
      var k := Key(acts[|acts| - 1]);
      if k in ks then ks else ks + [k]
  }

  /** The array the `Map` holds for key `k`: the entries of that day, in list order. */
  function GroupOf(acts: seq<Activity>, k: string): seq<Activity>
  {
    if acts == [] then []
    else GroupOf(acts[..|acts| - 1], k) + (if Key(acts[|acts| - 1]) == k then [acts[|acts| - 1]] else [])
  }

  datatype Group = Group(key: string, items: seq<Activity>)

  /** A group that has at least one entry, all of them of its day. */
  predicate DayGroup(g: Group)
  {
    g.items != [] && forall a :: a in g.items ==> Key(a) == g.key
  }

  /** `Array.from(map.entries())`. */
  function GroupedSpec(acts: seq<Activity>): (groups: seq<Group>)
    ensures |groups| == |Keys(acts)|
    ensures forall j :: 0 <= j < |groups| ==> DayGroup(groups[j])
  {
    GroupsNonEmpty(acts);
    var ks := Keys(acts);
    seq(|ks|, j requires 0 <= j < |ks| => Group(ks[j], GroupOf(acts, ks[j])))
  }

  /** Appending one entry: a new day is added at the end of the keys. */
  lemma KeysSnoc(s: seq<Activity>, a: Activity)
    ensures Keys(s + [a]) == if Key(a) in Keys(s) then Keys(s) else Keys(s) + [Key(a)]
  {
    assert (s + [a])[..|s + [a]| - 1] == s;
  }

  /** Appending one entry: it joins the group of its own day only. */
  lemma GroupOfSnoc(s: seq<Activity>, a: Activity, k: string)
    ensures GroupOf(s + [a], k) == GroupOf(s, k) + (if Key(a) == k then [a] else [])
  {
    assert (s + [a])[..|s + [a]| - 1] == s;
  }

  /** A day is a key exactly when some entry falls on it. */
  lemma {:induction false} KeysComplete(acts: seq<Activity>, k: string)
    ensures k in Keys(acts) <==> exists a :: a in acts && Key(a) == k
  {
    if acts != [] {
      var s := acts[..|acts| - 1];
      KeysComplete(s, k);
      assert acts == s + [acts[|acts| - 1]];
    }
  }

  /** No day is a key twice. */
  lemma {:induction false} KeysDistinct(acts: seq<Activity>)
    ensures forall i, j :: 0 <= i < j < |Keys(acts)| ==> Keys(acts)[i] != Keys(acts)[j]
  {
    if acts != [] {
      KeysDistinct(acts[..|acts| - 1]);
    }
  }

  /** The keys come in the order of the days' first entries: for two keys, some entry of
      the earlier one comes before every entry of the later one. */
  lemma {:induction false} KeysInFirstAppearanceOrder(acts: seq<Activity>, i: nat, j: nat)
    requires i < j < |Keys(acts)|
    ensures exists p :: 0 <= p < |acts| && Key(acts[p]) == Keys(acts)[i]
                        && forall q :: 0 <= q <= p ==> Key(acts[q]) != Keys(acts)[j]
  {
    var s := acts[..|acts| - 1];
    var a := acts[|acts| - 1];
    var ks := Keys(s);
    assert acts == s + [a];
    if j < |ks| {
      KeysInFirstAppearanceOrder(s, i, j);
      var p :| 0 <= p < |s| && Key(s[p]) == ks[i] && forall q :: 0 <= q <= p ==> Key(s[q]) != ks[j];
      assert Key(acts[p]) == Keys(acts)[i];
      forall q | 0 <= q <= p ensures Key(acts[q]) != Keys(acts)[j] {
        assert acts[q] == s[q];
      }
    } else {
      assert Keys(acts)[j] == Key(a) && Key(a) !in ks;
      KeysComplete(s, ks[i]);
      var x :| x in s && Key(x) == ks[i];
      var p :| 0 <= p < |s| && s[p] == x;
      forall q | 0 <= q <= p ensures Key(acts[q]) != Keys(acts)[j] {
        assert acts[q] == s[q];
        KeysComplete(s, Key(a));
        assert s[q] in s;
      }
      assert Key(acts[p]) == Keys(acts)[i];
    }
  }

  /** A group holds exactly the entries of its day. */
  lemma {:induction false} GroupOfMembers(acts: seq<Activity>, k: string)
    ensures forall x :: x in GroupOf(acts, k) <==> x in acts && Key(x) == k
  {
    if acts != [] {
      var s := acts[..|acts| - 1];
      GroupOfMembers(s, k);
      assert acts == s + [acts[|acts| - 1]];
    }
  }

  /** Each day key has at least one entry, and its group holds only entries of that day. */
  lemma GroupsNonEmpty(acts: seq<Activity>)
    ensures forall k :: k in Keys(acts) ==> GroupOf(acts, k) != [] && forall a :: a in GroupOf(acts, k) ==> Key(a) == k
  {
    forall k | k in Keys(acts)
      ensures GroupOf(acts, k) != [] && forall a :: a in GroupOf(acts, k) ==> Key(a) == k
    {
      KeyHasEntry(acts, k);
      GroupOfMembers(acts, k);
      var i :| 0 <= i < |acts| && Key(acts[i]) == k;
      assert acts[i] in GroupOf(acts, k);
    }
  }

  /** Every entry sits in the group whose key is its own day, and nowhere else. */
  lemma EntriesInTheirDay(acts: seq<Activity>)
    ensures forall g :: g in GroupedSpec(acts) ==> forall x :: x in g.items <==> x in acts && Key(x) == g.key
    ensures forall a :: a in acts ==> exists g :: g in GroupedSpec(acts) && g.key == Key(a) && a in g.items
  {
    var gs := GroupedSpec(acts);
    forall g | g in gs ensures forall x :: x in g.items <==> x in acts && Key(x) == g.key {
      GroupOfMembers(acts, g.key);
    }
    forall a | a in acts ensures exists g :: g in gs && g.key == Key(a) && a in g.items {
      KeysComplete(acts, Key(a));
      var j :| 0 <= j < |Keys(acts)| && Keys(acts)[j] == Key(a);
      GroupOfMembers(acts, Key(a));
      assert gs[j] in gs;
    }
  }

  /** A day with no entry has an empty group. */
  lemma GroupOfEmpty(s: seq<Activity>, k: string)
    requires k !in Keys(s)
    ensures GroupOf(s, k) == []
  {
    KeysComplete(s, k);
    GroupOfMembers(s, k);
  }

  /** The concatenation of a sequence of sequences, front to back. */
  function Concat<X>(xss: seq<seq<X>>): seq<X>
  {
    if xss == [] then [] else Concat(xss[..|xss| - 1]) + xss[|xss| - 1]
  }

  lemma ConcatSnoc<X>(xss: seq<seq<X>>, xs: seq<X>)
    ensures Concat(xss + [xs]) == Concat(xss) + xs
  {
    assert (xss + [xs])[..|xss + [xs]| - 1] == xss;
  }

  lemma {:induction false} ConcatAppend<X>(a: seq<seq<X>>, b: seq<seq<X>>)
    ensures Concat(a + b) == Concat(a) + Concat(b)
  {
    if b != [] {
      var b', xs := b[..|b| - 1], b[|b| - 1];
      assert b == b' + [xs];
      assert a + b == (a + b') + [xs];
      ConcatAppend(a, b');
      ConcatSnoc(a + b', xs);
      ConcatSnoc(b', xs);
    } else {
      assert a + b == a;
    }
  }

  /** Replacing the `j`-th part replaces its stretch of the concatenation. */
  lemma ConcatUpdate<X>(xss: seq<seq<X>>, j: nat, ys: seq<X>)
    requires j < |xss|
    ensures Concat(xss[j := ys]) == Concat(xss[..j]) + ys + Concat(xss[j + 1..])
  {
    var p, q := xss[..j], xss[j + 1..];
    assert xss[j := ys] == (p + [ys]) + q;
    ConcatAppend(p + [ys], q);
    ConcatSnoc(p, ys);
  }

  /** The entries of each group. */
  function Items(gs: seq<Group>): (r: seq<seq<Activity>>)
    ensures |r| == |gs| && forall j :: 0 <= j < |gs| ==> r[j] == gs[j].items
  {
    seq(|gs|, j requires 0 <= j < |gs| => gs[j].items)
  }

  /** The groups' entries in group order, as the page renders them. */
  function Flatten(gs: seq<Group>): seq<Activity>
  {
    Concat(Items(gs))
  }

  lemma FlattenSnoc(gs: seq<Group>, g: Group)
    ensures Flatten(gs + [g]) == Flatten(gs) + g.items
  {
    assert Items(gs + [g]) == Items(gs) + [g.items];
    ConcatSnoc(Items(gs), g.items);
  }

  /** Appending an entry to group `j` puts it, in the flattened list, right after that
      group's other entries. */
  lemma FlattenExtendGroup(gs: seq<Group>, j: nat, x: Activity)
    requires j < |gs|
    ensures var xs := Items(gs);
      && Flatten(gs) == Concat(xs[..j]) + gs[j].items + Concat(xs[j + 1..])
      && Flatten(gs[j := Group(gs[j].key, gs[j].items + [x])])
         == Concat(xs[..j]) + gs[j].items + [x] + Concat(xs[j + 1..])
  {
    var xs := Items(gs);
    assert xs[j := xs[j]] == xs;
    ConcatUpdate(xs, j, xs[j]);
    assert Items(gs[j := Group(gs[j].key, gs[j].items + [x])]) == xs[j := xs[j] + [x]];
    ConcatUpdate(xs, j, xs[j] + [x]);
  }

  /** One more entry on a new day adds a group for it at the end. */
  lemma GroupedStepNewDay(s: seq<Activity>, a: Activity)
    requires Key(a) !in Keys(s)
    ensures GroupedSpec(s + [a]) == GroupedSpec(s) + [Group(Key(a), [a])]
  {
    var ks := Keys(s);
    KeysSnoc(s, a);
    GroupOfEmpty(s, Key(a));
    var l, r := GroupedSpec(s + [a]), GroupedSpec(s) + [Group(Key(a), [a])];
    assert |l| == |r|;
    forall j | 0 <= j < |l| ensures l[j] == r[j] {
      GroupOfSnoc(s, a, Keys(s + [a])[j]);
    }
  }

  /** One more entry on the day of key `j` is appended to that day's group. */
  lemma GroupedStepKnownDay(s: seq<Activity>, a: Activity, j: nat)
    requires j < |Keys(s)| && Keys(s)[j] == Key(a)
    ensures var gs := GroupedSpec(s);
      GroupedSpec(s + [a]) == gs[j := Group(gs[j].key, gs[j].items + [a])]
  {
    var ks := Keys(s);
    KeysSnoc(s, a);
    KeysDistinct(s);
    var gs := GroupedSpec(s);
    var l, r := GroupedSpec(s + [a]), gs[j := Group(gs[j].key, gs[j].items + [a])];
    assert |l| == |r|;
    forall i | 0 <= i < |l| ensures l[i] == r[i] {
      GroupOfSnoc(s, a, ks[i]);
    }
  }

  /** The groups together hold every entry exactly once: they are a permutation of the list. */
  lemma {:induction false} GroupsArePermutation(acts: seq<Activity>)
    ensures multiset(Flatten(GroupedSpec(acts))) == multiset(acts)
  {
    if acts != [] {
      var s := acts[..|acts| - 1];
      var a := acts[|acts| - 1];
      assert acts == s + [a];
      GroupsArePermutation(s);
      var gs := GroupedSpec(s);
      if Key(a) !in Keys(s) {
        GroupedStepNewDay(s, a);
        FlattenSnoc(gs, Group(Key(a), [a]));
      } else {
        var j :| 0 <= j < |Keys(s)| && Keys(s)[j] == Key(a);
        GroupedStepKnownDay(s, a, j);
        FlattenExtendGroup(gs, j, a);
      }
    }
  }

  /** Entries of the same day are adjacent in the list (as in a list ordered by time). */
  ghost predicate DaysAdjacent(acts: seq<Activity>)
  {
    forall i, j, k | 0 <= i < j < k < |acts| :: SameDayBetween(acts, i, j, k)
  }

  /** If entries `i` and `k` are of one day, so is entry `j`, which lies between them. */
  ghost predicate SameDayBetween(acts: seq<Activity>, i: nat, j: nat, k: nat)
    requires i < j < k < |acts|
  {
    Key(acts[i]) == Key(acts[k]) ==> Key(acts[j]) == Key(acts[i])
  }

  lemma AdjacentPrefix(acts: seq<Activity>, n: nat)
    requires DaysAdjacent(acts) && n <= |acts|
    ensures DaysAdjacent(acts[..n])
  {
    var s := acts[..n];
    forall i, j, k | 0 <= i < j < k < |s| ensures SameDayBetween(s, i, j, k) {
      assert SameDayBetween(acts, i, j, k);
      assert s[i] == acts[i] && s[j] == acts[j] && s[k] == acts[k];
    }
  }

  /** A key is the day of some entry, found by its position. */
  lemma {:induction false} KeyHasEntry(s: seq<Activity>, k: string)
    requires k in Keys(s)
    ensures exists i :: 0 <= i < |s| && Key(s[i]) == k
  {
    var t := s[..|s| - 1];
    if k in Keys(t) {
      KeyHasEntry(t, k);
      var i :| 0 <= i < |t| && Key(t[i]) == k;
      assert s[i] == t[i];
    } else {
      assert Key(s[|s| - 1]) == k;
    }
  }

  /** One use of `DaysAdjacent`: an entry between two entries of a day is of that day. */
  lemma BetweenSameDay(acts: seq<Activity>, i: nat, j: nat, k: nat)
    requires DaysAdjacent(acts) && i < j < k < |acts| && Key(acts[i]) == Key(acts[k])
    ensures Key(acts[j]) == Key(acts[i])
  {
    assert SameDayBetween(acts, i, j, k);
  }

  /** With adjacent days, an entry whose day is already a key shares the day of the entry
      just before it. */
  lemma KnownDayIsPreviousDay(acts: seq<Activity>)
    requires acts != [] && DaysAdjacent(acts)
    requires Key(acts[|acts| - 1]) in Keys(acts[..|acts| - 1])
    ensures |acts| >= 2 && Key(acts[|acts| - 2]) == Key(acts[|acts| - 1])
  {
    var n := |acts| - 1;
    KeyHasEntry(acts[..n], Key(acts[n]));
    var i :| 0 <= i < n && Key(acts[..n][i]) == Key(acts[n]);
    if i < n - 1 {
      BetweenSameDay(acts, i, n - 1, n);
    }
  }

  /** In a list with adjacent days the last key is the day of the last entry. */
  lemma {:induction false} LastKeyIsLastDay(acts: seq<Activity>)
    requires acts != [] && DaysAdjacent(acts)
    ensures Keys(acts) != [] && Keys(acts)[|Keys(acts)| - 1] == Key(acts[|acts| - 1])
  {
    var s := acts[..|acts| - 1];
    var a := acts[|acts| - 1];
    assert acts == s + [a];
    KeysSnoc(s, a);
    if Key(a) in Keys(s) {
      KnownDayIsPreviousDay(acts);
      AdjacentPrefix(acts, |s|);
      LastKeyIsLastDay(s);
    }
  }

  /** When each day's entries are adjacent, reading the groups in order gives back the
      original list. */
  lemma {:induction false} GroupsConcatenateToList(acts: seq<Activity>)
    requires DaysAdjacent(acts)
    ensures Flatten(GroupedSpec(acts)) == acts
  {
    if acts != [] {
      var s := acts[..|acts| - 1];
      var a := acts[|acts| - 1];
      assert acts == s + [a];
      AdjacentPrefix(acts, |s|);
      GroupsConcatenateToList(s);
      var gs := GroupedSpec(s);
      if Key(a) !in Keys(s) {
        GroupedStepNewDay(s, a);
        FlattenSnoc(gs, Group(Key(a), [a]));
      } else {
        KnownDayIsPreviousDay(acts);
        LastKeyIsLastDay(s);
        var n := |Keys(s)|;
        GroupedStepKnownDay(s, a, n - 1);
        FlattenExtendGroup(gs, n - 1, a);
        assert Items(gs)[n..] == [];
      }
    }
  }

  /** The loop's `Map` after the entries `s`: its keys in insertion order are `order`, and
      each holds the group of its day. */
  ghost predicate MapHolds(s: seq<Activity>, m: map<string, seq<Activity>>, order: seq<string>)
  {
    && order == Keys(s)
    && (forall k :: k in m <==> k in order)
    && (forall k :: k in m ==> m[k] == GroupOf(s, k))
  }

  /** One turn of the loop: create the day's array if the day is new, then push the entry. */
  lemma MapStep(s: seq<Activity>, a: Activity, m: map<string, seq<Activity>>, order: seq<string>)
    requires MapHolds(s, m, order)
    ensures var k := Key(a);
      var m1 := if k in m then m else m[k := []];
      MapHolds(s + [a], m1[k := m1[k] + [a]], if k in m then order else order + [k])
  {
    var k := Key(a);
    KeysSnoc(s, a);
    forall k' ensures GroupOf(s + [a], k') == GroupOf(s, k') + (if k == k' then [a] else []) {
      GroupOfSnoc(s, a, k');
    }
    if k !in m {
      GroupOfEmpty(s, k);
    }
  }

  /** The `useMemo` loop of `grouped`: a `Map` from day key to the entries of that day,
      filled in list order, then read out as entries in insertion order. */
  method Grouped(acts: seq<Activity>) returns (groups: seq<Group>)
    ensures groups == GroupedSpec(acts)
  {
    var m: map<string, seq<Activity>> := map[];
    var order: seq<string> := [];
    var i := 0;
    while i < |acts|
      invariant 0 <= i <= |acts|
      invariant MapHolds(acts[..i], m, order)
    {
      var a := acts[i];
      var k := Key(a);
      MapStep(acts[..i], a, m, order);
      assert acts[..i + 1] == acts[..i] + [a];
      if k !in m {
        m, order := m[k := []], order + [k];
      }
      m := m[k := m[k] + [a]];
      assert MapHolds(acts[..i] + [a], m, order);
      i := i + 1;
    }
    assert acts[..i] == acts;
    ReadOutIsSpec(acts, m, order);
    groups := ReadOut(m, order);
  }

  /** `Array.from(map.entries())` for a map whose keys, in insertion order, are `order`. */
  function ReadOut(m: map<string, seq<Activity>>, order: seq<string>): seq<Group>
    requires forall k :: k in order ==> k in m
  {
    seq(|order|, j requires 0 <= j < |order| => Group(order[j], m[order[j]]))
  }

  /** Reading out the map the loop built gives the grouping. */
  lemma ReadOutIsSpec(acts: seq<Activity>, m: map<string, seq<Activity>>, order: seq<string>)
    requires MapHolds(acts, m, order)
    ensures ReadOut(m, order) == GroupedSpec(acts)
  {
    var l, r := ReadOut(m, order), GroupedSpec(acts);
    assert |l| == |r|;
    forall j | 0 <= j < |l| ensures l[j] == r[j] {
      assert order[j] in order;
    }
  }

  // ---------------------------------------------------------------------------------------
  // textFor and onClickRow

  /** A nullable column inside a template literal: null prints as "null". */
  function Show(s: Option<string>): string
  {
    if s.Some? then s.value else "null"
  }

  /** The sentence shown for an entry. */
  function TextFor(a: Activity): (t: string)
    ensures t == "" <==> a.kind.OtherKind?
  {
    match a.kind
    case CompletedObjective => "Has completado el objetivo de " + Show(a.objectiveTitle)
    case VisitedPlace => "Has visitado " + Show(a.itemName) + " de " + Show(a.objectiveTitle)
    case NewFollower => (if a.itemName.Some? then a.itemName.value else "Alguien") + " te empezó a seguir"
    case OtherKind(_) => ""
  }

  /** Each kind has its fixed template; a follower without a stored name is "Alguien", and an
      unknown kind shows nothing. */
  lemma TextForTemplates(a: Activity)
    ensures a.kind == CompletedObjective ==>
      && TextFor(a)[..30] == "Has completado el objetivo de "
      && TextFor(a)[30..] == Show(a.objectiveTitle)
    ensures a.kind == VisitedPlace ==>
      && TextFor(a)[..13] == "Has visitado "
      && TextFor(a)[13..13 + |Show(a.itemName)|] == Show(a.itemName)
      && TextFor(a)[13 + |Show(a.itemName)|..] == " de " + Show(a.objectiveTitle)
    ensures a.kind == NewFollower && a.itemName.None? ==> TextFor(a) == "Alguien te empezó a seguir"
    ensures a.kind == NewFollower && a.itemName.Some? ==>
      && TextFor(a)[..|a.itemName.value|] == a.itemName.value
      && TextFor(a)[|a.itemName.value|..] == " te empezó a seguir"
    ensures a.kind.OtherKind? ==> TextFor(a) == ""
  {
  }

  /** `onClickRow`: the route it navigates to, if any. */
  function OnClickRow(a: Activity): (route: Option<string>)
    ensures a.kind == NewFollower ==> route.None?
    ensures route.Some? ==> |route.value| > 11 && route.value[..11] == "/objective/"
  {
    if a.kind == NewFollower then None
    else if Truthy(a.objectiveId) then Some("/objective/" + a.objectiveId.value)
    else None
  }

  /** A click navigates exactly for non-follower entries with a (non-empty) objective id, and
      then to that objective's page. */
  lemma ClickRouting(a: Activity)
    ensures OnClickRow(a).Some? <==> a.kind != NewFollower && a.objectiveId.Some? && a.objectiveId.value != ""
    ensures OnClickRow(a).Some? ==> OnClickRow(a).value[11..] == a.objectiveId.value
  {
  }
}
