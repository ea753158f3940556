/**
 * The news and events ranker: the comparator that orders announcements
 * newest first and, on equal dates, by priority; the in-place sort of the
 * module-level list; the "upcoming" test against the current instant; and
 * the priority colour switch.
 */
module NewsEvents {
  import opened Wrappers

  datatype ItemType = News | Event
  datatype Priority = High | Medium | Low

  /** The string a priority is spelled as in the records. */
  function PriorityName(p: Priority): string {
    match p
    case High => "high"
    case Medium => "medium"
    case Low => "low"
  }

  /** The comparator's `priorityOrder` table: high 3, medium 2, low 1. */
  function Rank(p: Priority): int {
    match p
    case High => 3
    case Medium => 2
    case Low => 1
  }

  /**
   * One announcement. `date` is the record's "YYYY-MM-DD" string, already
   * parsed: the number of days from 1970-01-01 to that date.
   */
  datatype NewsItem = NewsItem(
    id: string,
    title: string,
    description: string,
    date: int,
    time: Option<string>,
    location: Option<string>,
    itemType: ItemType,
    priority: Priority)

  const MsPerDay: int := 86400000

  /**
   * `new Date("YYYY-MM-DD").getTime()`: a date-only string is read as UTC
   * midnight, so the instant is the start of that day in milliseconds.
   */
  function StartInstant(day: int): int {
    day * MsPerDay
  }

  /** The sort comparator: negative when `a` must come before `b`. */
  function Compare(a: NewsItem, b: NewsItem): int {
    var ta := StartInstant(a.date);
    var tb := StartInstant(b.date);
    if ta != tb then tb - ta else Rank(b.priority) - Rank(a.priority)
  }

  lemma CompareAntisymmetric(a: NewsItem, b: NewsItem)
    ensures Compare(a, b) == -Compare(b, a)
  {
  }

  lemma CompareZeroIff(a: NewsItem, b: NewsItem)
    ensures Compare(a, b) == 0 <==> a.date == b.date && a.priority == b.priority
  {
  }

  /** A negative comparison means `a` is strictly newer, or as new and strictly more urgent. */
  lemma CompareNegativeIff(a: NewsItem, b: NewsItem)
    ensures Compare(a, b) < 0 <==>
      a.date > b.date || (a.date == b.date && Rank(a.priority) > Rank(b.priority))
  {
  }

  /** `a` may stand before `b` in a sorted list: it is newer, or as new and at least as urgent. */
  predicate InOrder(a: NewsItem, b: NewsItem) {
    a.date > b.date || (a.date == b.date && Rank(a.priority) >= Rank(b.priority))
  }

  /** The comparator does not put `a` after `b` exactly when `a` may stand before `b`. */
  lemma InOrderIff(a: NewsItem, b: NewsItem)
    ensures InOrder(a, b) <==> Compare(a, b) <= 0
  {
  }

  lemma InOrderTransitive(a: NewsItem, b: NewsItem, c: NewsItem)
    requires InOrder(a, b) && InOrder(b, c)
    ensures InOrder(a, c)
  {
  }

  lemma InOrderTotal(a: NewsItem, b: NewsItem)
    ensures InOrder(a, b) || InOrder(b, a)
  {
  }

  predicate Sorted(s: seq<NewsItem>) {
    forall i, j | 0 <= i < j < |s| :: InOrder(s[i], s[j])
  }

  /** What a sorted list promises the reader: newest first, and on one date the most urgent first. */
  lemma SortedMeaning(s: seq<NewsItem>, i: int, j: int)
    requires Sorted(s) && 0 <= i < j < |s|
    ensures s[i].date >= s[j].date
    ensures s[i].date == s[j].date ==> Rank(s[i].priority) >= Rank(s[j].priority)
  {
    assert InOrder(s[i], s[j]);
  }

  /**
   * Inserting `x` after the longest suffix of `s` that must follow it. The
   * JavaScript sort is stable, so items that compare equal keep their
   * relative order; inserting behind every such item keeps that order.
   */
  function Insert(s: seq<NewsItem>, x: NewsItem): seq<NewsItem>
    decreases |s|
  {
    if s == [] || InOrder(s[|s| - 1], x) then s + [x]
    else Insert(s[..|s| - 1], x) + [s[|s| - 1]]
  }

  /** The stable sort of `s` under `Compare`. */
  function Sort(s: seq<NewsItem>): seq<NewsItem>
    decreases |s|
  {
    if s == [] then [] else Insert(Sort(s[..|s| - 1]), s[|s| - 1])
  }

  lemma {:induction false} InsertPermutes(s: seq<NewsItem>, x: NewsItem)
    ensures multiset(Insert(s, x)) == multiset(s) + multiset{x}
    decreases |s|
  {
    if s == [] || InOrder(s[|s| - 1], x) {
    } else {
      var n := |s| - 1;
      InsertPermutes(s[..n], x);
      assert s == s[..n] + [s[n]];
    }
  }

  lemma {:induction false} InsertSorted(s: seq<NewsItem>, x: NewsItem)
    requires Sorted(s)
    ensures Sorted(Insert(s, x))
    ensures |Insert(s, x)| == |s| + 1
    decreases |s|
  {
    if s == [] {
    } else if InOrder(s[|s| - 1], x) {
      var r := s + [x];
      forall i, j | 0 <= i < j < |r|
        ensures InOrder(r[i], r[j])
      {
        if j == |s| && i < |s| - 1 {
          InOrderTransitive(s[i], s[|s| - 1], x);
        }
      }
    } else {
      var n := |s| - 1;
      var last := s[n];
      InsertSorted(s[..n], x);
      var t := Insert(s[..n], x);
      InsertPermutes(s[..n], x);
      var r := t + [last];
      InOrderTotal(last, x);
      forall i, j | 0 <= i < j < |r|
        ensures InOrder(r[i], r[j])
      {
        if j == n + 1 {
          // Every element of `t` is `x` or an element of `s` before `last`.
          assert r[i] in multiset(t);
          if r[i] == x {
          } else {
            assert r[i] in multiset(s[..n]);
            var k :| 0 <= k < n && s[..n][k] == r[i];
            assert InOrder(s[k], s[n]);
          }
        }
      }
    }
  }

  /** The sort yields a sorted list. */
  lemma {:induction false} SortSorted(s: seq<NewsItem>)
    ensures Sorted(Sort(s))
    ensures |Sort(s)| == |s|
    decreases |s|
  {
    if s != [] {
      var n := |s| - 1;
      SortSorted(s[..n]);
      InsertSorted(Sort(s[..n]), s[n]);
    }
  }

  /** The sort neither loses nor duplicates an item: its result is a permutation of the input. */
  lemma {:induction false} SortPermutes(s: seq<NewsItem>)
    ensures multiset(Sort(s)) == multiset(s)
    decreases |s|
  {
    if s != [] {
      var n := |s| - 1;
      SortPermutes(s[..n]);
      InsertPermutes(Sort(s[..n]), s[n]);
      assert s == s[..n] + [s[n]];
    }
  }

  /** Every prefix of a sorted list is sorted. */
  lemma SortedPrefix(s: seq<NewsItem>, n: int)
    requires Sorted(s) && 0 <= n <= |s|
    ensures Sorted(s[..n])
  {
    forall i, j | 0 <= i < j < n
      ensures InOrder(s[..n][i], s[..n][j])
    {
      assert InOrder(s[i], s[j]);
    }
  }

  /** Any sorted list is its own sort: the sort moves nothing that is already in place. */
  lemma {:induction false} SortOfSorted(s: seq<NewsItem>)
    requires Sorted(s)
    ensures Sort(s) == s
    decreases |s|
  {
    if s != [] {
      var n := |s| - 1;
      var init, x := s[..n], s[n];
      SortedPrefix(s, n);
      SortOfSorted(init);
      InsertAt(init, x, n);
      assert init[..n] == init && init + [x] == s;
    }
  }

  /** Sorting a sorted list again changes nothing. */
  lemma SortIdempotent(s: seq<NewsItem>)
    ensures Sort(Sort(s)) == Sort(s)
  {
    SortSorted(s);
    SortOfSorted(Sort(s));
  }

  /** The items of `s` with date `d` and priority `p`, in their order in `s`: a class of items the comparator ties. */
  function Tied(s: seq<NewsItem>, d: int, p: Priority): seq<NewsItem>
    decreases |s|
  {
    if s == [] then []
    else Tied(s[..|s| - 1], d, p) + (if s[|s| - 1].date == d && s[|s| - 1].priority == p then [s[|s| - 1]] else [])
  }

  /** Appending one item extends the tied items by it exactly when it ties. */
  lemma TiedSnoc(s: seq<NewsItem>, y: NewsItem, d: int, p: Priority)
    ensures Tied(s + [y], d, p) == Tied(s, d, p) + (if y.date == d && y.priority == p then [y] else [])
  {
    assert (s + [y])[..|s|] == s;
  }

  /** Inserting `x` puts it behind every item it ties with; the tied items of `s` keep their order. */
  lemma {:induction false} InsertTied(s: seq<NewsItem>, x: NewsItem, d: int, p: Priority)
    ensures Tied(Insert(s, x), d, p) == Tied(s, d, p) + (if x.date == d && x.priority == p then [x] else [])
    decreases |s|
  {
    if s == [] || InOrder(s[|s| - 1], x) {
      TiedSnoc(s, x, d, p);
    } else {
      var init, last := s[..|s| - 1], s[|s| - 1];
      assert s == init + [last];
      InsertTied(init, x, d, p);
      TiedSnoc(Insert(init, x), last, d, p);
      TiedSnoc(init, last, d, p);
      // `last` must follow `x`, so the two cannot tie.
      assert !(last.date == d && last.priority == p && x.date == d && x.priority == p);
    }
  }

  /** The sort is stable: items that compare equal appear in the result in their input order. */
  lemma {:induction false} SortStable(s: seq<NewsItem>, d: int, p: Priority)
    ensures Tied(Sort(s), d, p) == Tied(s, d, p)
    decreases |s|
  {
    if s != [] {
      SortStable(s[..|s| - 1], d, p);
      InsertTied(Sort(s[..|s| - 1]), s[|s| - 1], d, p);
    }
  }

  /**
   * Where `Insert` puts `x`: right after position `j` when the item before
   * `j` may precede `x` and every item from `j` on must follow it.
   */
  lemma {:induction false} InsertAt(p: seq<NewsItem>, x: NewsItem, j: int)
    requires 0 <= j <= |p|
    requires j == 0 || InOrder(p[j - 1], x)
    requires forall k | j <= k < |p| :: !InOrder(p[k], x)
    ensures Insert(p, x) == p[..j] + [x] + p[j..]
    decreases |p|
  {
    if j == |p| {
      assert p[..j] == p && p[j..] == [];
    } else {
      var n := |p| - 1;
      assert !InOrder(p[n], x);
      var q := p[..n];
      assert j == 0 || q[j - 1] == p[j - 1];
      InsertAt(q, x, j);
      assert q[..j] == p[..j];
      assert q[j..] + [p[n]] == p[j..];
    }
  }

  /**
   * Moves the items at the end of `a[..i]` that must follow `x` one place to
   * the right, stopping at the first that may precede it, and returns the
   * slot this frees.
   */
  method ShiftPast(a: array<NewsItem>, i: int, x: NewsItem) returns (j: int)
    requires 0 <= i < a.Length
    modifies a
    ensures 0 <= j <= i
    ensures forall k | 0 <= k < j :: a[k] == old(a[k])
    ensures forall k | j < k <= i :: a[k] == old(a[k - 1])
    ensures forall k | i < k < a.Length :: a[k] == old(a[k])
    ensures j == 0 || InOrder(old(a[j - 1]), x)
    ensures forall k | j <= k < i :: !InOrder(old(a[k]), x)
  {
    j := i;
    while j > 0 && Compare(a[j - 1], x) > 0
      invariant 0 <= j <= i
      invariant forall k | 0 <= k < j :: a[k] == old(a[k])
      invariant forall k | j < k <= i :: a[k] == old(a[k - 1])
      invariant forall k | i < k < a.Length :: a[k] == old(a[k])
      invariant forall k | j <= k < i :: !InOrder(old(a[k]), x)
    {
      InOrderIff(a[j - 1], x);
      a[j] := a[j - 1];
      j := j - 1;
    }
    if j > 0 {
      InOrderIff(a[j - 1], x);
    }
  }

  /**
   * Shifts `a[i]` left into the sorted prefix `a[..i]`, past every item that
   * must follow it and no further, and leaves the rest of the array alone.
   */
  method InsertLast(a: array<NewsItem>, i: int)
    requires 0 <= i < a.Length
    modifies a
    ensures a[..i + 1] == Insert(old(a[..i]), old(a[i]))
    ensures forall k | i < k < a.Length :: a[k] == old(a[k])
  {
    var x := a[i];
    ghost var p := a[..i];
    var j := ShiftPast(a, i, x);
    InsertAt(p, x, j);
    a[j] := x;
    assert a[..i + 1] == p[..j] + [x] + p[j..];
  }

  /** Sorting one more item of `s` inserts it into the sorted shorter prefix. */
  lemma SortStep(s: seq<NewsItem>, i: int)
    requires 0 <= i < |s|
    ensures Sort(s[..i + 1]) == Insert(Sort(s[..i]), s[i])
  {
    assert s[..i + 1][..i] == s[..i];
  }

  /**
   * `newsItems.sort(comparator)`: an insertion sort of the array in place.
   * An item is shifted left only past items that must follow it, so the
   * sort is stable, as JavaScript's `Array.prototype.sort` is.
   */
  method SortNews(a: array<NewsItem>)
    modifies a
    ensures a[..] == Sort(old(a[..]))
  {
    ghost var input := a[..];
    var i := 0;
    while i < a.Length
      invariant 0 <= i <= a.Length
      invariant a[..i] == Sort(input[..i])
      invariant forall k | i <= k < a.Length :: a[k] == input[k]
    {
      InsertLast(a, i);
      SortStep(input, i);
      i := i + 1;
    }
    assert input[..a.Length] == input;
  }

  const TechFest := NewsItem("1", "Annual Tech Fest 2024",
    "Join us for the biggest technical festival featuring coding competitions, robotics exhibitions, and guest lectures from industry experts.",
    20072 /* 2024-12-15 */, Some("9:00 AM"), Some("Main Auditorium"), Event, High)
  const WinterBreak := NewsItem("2", "Winter Break Notice",
    "Classes will remain suspended from December 25, 2024 to January 5, 2025 for winter holidays.",
    20082 /* 2024-12-25 */, None, None, News, High)
  const IndustrialVisit := NewsItem("3", "Industrial Visit - Maruti Suzuki",
    "Mechanical Engineering students will visit Maruti Suzuki plant in Gurgaon for practical exposure.",
    20067 /* 2024-12-10 */, Some("6:00 AM"), Some("Campus Bus Stop"), Event, Medium)
  const LibraryBooks := NewsItem("4", "New Library Books Arrival",
    "Latest editions of engineering textbooks and technical journals have been added to the library collection.",
    20055 /* 2024-11-28 */, None, None, News, Low)
  const PlacementDrive := NewsItem("5", "Campus Placement Drive",
    "Leading IT companies will be visiting campus for final year student placements. Register at placement cell.",
    20077 /* 2024-12-20 */, Some("10:00 AM"), Some("Seminar Hall"), Event, High)
  const SportsWeek := NewsItem("6", "Sports Week 2024",
    "Inter-department sports competitions including cricket, football, badminton, and table tennis tournaments.",
    20065 /* 2024-12-08 */, Some("2:00 PM"), Some("Sports Ground"), Event, Medium)

  /** The module-level list, in source order. */
  const Seed: seq<NewsItem> :=
    [TechFest, WinterBreak, IndustrialVisit, LibraryBooks, PlacementDrive, SportsWeek]

  function Ids(s: seq<NewsItem>): seq<string> {
    seq(|s|, i requires 0 <= i < |s| => s[i].id)
  }

  /** The dates and priorities of the seed list, position by position. */
  predicate SeedKeys(s: seq<NewsItem>) {
    && |s| == 6
    && s[0].date == 20072 && s[0].priority == High
    && s[1].date == 20082 && s[1].priority == High
    && s[2].date == 20067 && s[2].priority == Medium
    && s[3].date == 20055 && s[3].priority == Low
    && s[4].date == 20077 && s[4].priority == High
    && s[5].date == 20065 && s[5].priority == Medium
  }

  // The seed list sorted one prefix at a time, each step in its own lemma.

  lemma SeedPrefix2(s: seq<NewsItem>)
    requires SeedKeys(s)
    ensures Sort(s[..2]) == [s[1], s[0]]
  {
    assert s[..0] == [];
    SortStep(s, 0);
    SortStep(s, 1);
    assert [s[0]][..0] == [];
  }

  lemma SeedPrefix3(s: seq<NewsItem>)
    requires SeedKeys(s)
    ensures Sort(s[..3]) == [s[1], s[0], s[2]]
  {
    SeedPrefix2(s);
    SortStep(s, 2);
  }

  lemma SeedPrefix4(s: seq<NewsItem>)
    requires SeedKeys(s)
    ensures Sort(s[..4]) == [s[1], s[0], s[2], s[3]]
  {
    SeedPrefix3(s);
    SortStep(s, 3);
  }

  /** An item that must follow the last three of four items but not the first goes second. */
  lemma InsertSecond(a: NewsItem, b: NewsItem, c: NewsItem, d: NewsItem, x: NewsItem)
    requires InOrder(a, x) && !InOrder(b, x) && !InOrder(c, x) && !InOrder(d, x)
    ensures Insert([a, b, c, d], x) == [a, x, b, c, d]
  {
    assert [a, b, c, d][..3] == [a, b, c];
    assert [a, b, c][..2] == [a, b];
    assert [a, b][..1] == [a];
    assert Insert([a], x) == [a, x];
    assert Insert([a, b], x) == [a, x, b];
    assert Insert([a, b, c], x) == [a, x, b, c];
  }

  /** An item that may follow the fourth of five items but must precede the fifth goes fifth. */
  lemma InsertFifth(a: NewsItem, b: NewsItem, c: NewsItem, d: NewsItem, e: NewsItem, x: NewsItem)
    requires InOrder(d, x) && !InOrder(e, x)
    ensures Insert([a, b, c, d, e], x) == [a, b, c, d, x, e]
  {
    assert [a, b, c, d, e][..4] == [a, b, c, d];
  }

  lemma SeedPrefix5(s: seq<NewsItem>)
    requires SeedKeys(s)
    ensures Sort(s[..5]) == [s[1], s[4], s[0], s[2], s[3]]
  {
    SeedPrefix4(s);
    SortStep(s, 4);
    InsertSecond(s[1], s[0], s[2], s[3], s[4]);
  }

  /** Six items dated and ranked as the seed list is sort into positions 1, 4, 0, 2, 5, 3. */
  lemma SortSeedShape(s: seq<NewsItem>)
    requires SeedKeys(s)
    ensures Sort(s) == [s[1], s[4], s[0], s[2], s[5], s[3]]
  {
    SeedPrefix5(s);
    SortStep(s, 5);
    InsertFifth(s[1], s[4], s[0], s[2], s[3], s[5]);
    assert s[..6] == s;
  }

  /** The seed list, once sorted, reads 2, 5, 1, 3, 6, 4. */
  lemma SeedOrder()
    ensures Ids(Sort(Seed)) == ["2", "5", "1", "3", "6", "4"]
  {
    SortSeedShape(Seed);
  }

  /** Sorting the module-level list in place, as the component does on each render. */
  method RankSeed() returns (ranked: seq<NewsItem>)
    ensures Ids(ranked) == ["2", "5", "1", "3", "6", "4"]
    ensures Sorted(ranked) && multiset(ranked) == multiset(Seed)
  {
    var a := new NewsItem[|Seed|](i requires 0 <= i < |Seed| => Seed[i]);
    assert a[..] == Seed;
    SortNews(a);
    ranked := a[..];
    SeedOrder();
    SortSorted(Seed);
    SortPermutes(Seed);
  }

  /**
   * `new Date(item.date) >= new Date()`: the start of the item's day against
   * the current instant `now`, in milliseconds since the epoch.
   */
  predicate IsUpcoming(item: NewsItem, now: int) {
    StartInstant(item.date) >= now
  }

  /** If an item is upcoming, so is every item with the same or a later date. */
  lemma UpcomingMonotone(a: NewsItem, b: NewsItem, now: int)
    requires IsUpcoming(a, now) && a.date <= b.date
    ensures IsUpcoming(b, now)
  {
  }

  /**
   * In calendar terms, against the current UTC day `now / MsPerDay`: items
   * dated after it are upcoming, items dated before it are not, and an item
   * dated on it is upcoming only at that day's UTC midnight, because its
   * instant is the day's first millisecond.
   */
  lemma UpcomingByDay(item: NewsItem, now: int)
    ensures item.date > now / MsPerDay ==> IsUpcoming(item, now)
    ensures item.date < now / MsPerDay ==> !IsUpcoming(item, now)
    ensures item.date == now / MsPerDay ==> (IsUpcoming(item, now) <==> now % MsPerDay == 0)
  {
    var today := now / MsPerDay;
    var ms := now % MsPerDay;
    assert now == today * MsPerDay + ms && 0 <= ms < MsPerDay;
    if item.date > today {
      assert StartInstant(item.date) >= (today + 1) * MsPerDay;
    } else if item.date < today {
      assert StartInstant(item.date) <= (today - 1) * MsPerDay;
    }
  }

  /** `getPriorityColor`: a badge class for a priority string. */
  function PriorityColor(priority: string): (r: string)
    ensures r == "bg-muted" <==> priority !in ["high", "medium", "low"]
  {
    if priority == "high" then "bg-destructive"
    else if priority == "medium" then "bg-accent"
    else if priority == "low" then "bg-secondary"
    else "bg-muted"
  }

  /** The three priorities get three different colours, none of them the default. */
  lemma PriorityColorsDistinct(p: Priority, q: Priority)
    ensures PriorityColor(PriorityName(p)) != "bg-muted"
    ensures PriorityColor(PriorityName(p)) == PriorityColor(PriorityName(q)) <==> p == q
  {
  }
}
