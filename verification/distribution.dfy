/**
 * The skill distribution shown under the search results: how many times each
 * skill appears across the stored records, in a dictionary kept in the order
 * skills are first met, then sorted by count, most frequent first, with ties
 * in dictionary order, and split into the chart's labels and values.
 */
module Distribution {
  import opened Wrappers
  import opened Records
  import Skills

  /** One dictionary item: a skill and its count. */
  datatype Entry = Entry(skill: string, count: nat)

  /** The two parallel lists the chart is drawn from. */
  datatype Series = Series(labels: seq<string>, values: seq<nat>)

  /** Every skill entry of every record, in order. */
  function AllSkills(records: seq<Resume>): seq<string> {
    if |records| == 0 then []
    else AllSkills(records[..|records| - 1]) + records[|records| - 1].skills
  }

  /** The dictionary's keys, in order. */
  function Keys(d: seq<Entry>): (r: seq<string>)
    ensures |r| == |d|
    ensures forall i :: 0 <= i < |d| ==> r[i] == d[i].skill
  {
    seq(|d|, i requires 0 <= i < |d| => d[i].skill)
  }

  /** The dictionary's values, in order. */
  function Counts(d: seq<Entry>): (r: seq<nat>)
    ensures |r| == |d|
    ensures forall i :: 0 <= i < |d| ==> r[i] == d[i].count
  {
    seq(|d|, i requires 0 <= i < |d| => d[i].count)
  }

  /** No key appears twice. */
  predicate DistinctKeys(d: seq<Entry>) {
    forall i, j :: 0 <= i < j < |d| ==> d[i].skill != d[j].skill
  }

  predicate AllPositive(d: seq<Entry>) {
    forall i :: 0 <= i < |d| ==> d[i].count >= 1
  }

  /** `d.get(s, 0)`: the count of the first entry for `s`, or 0. */
  function CountOf(d: seq<Entry>, s: string): nat {
    if |d| == 0 then 0
    else if d[0].skill == s then d[0].count
    else CountOf(d[1..], s)
  }

  /** The sum of all counts. */
  function Total(d: seq<Entry>): nat {
    if |d| == 0 then 0 else d[0].count + Total(d[1..])
  }

  /** The distinct elements of `xs` in the order they first appear. */
  function FirstSeen(xs: seq<string>): seq<string> {
    if |xs| == 0 then []
    else
      var init := FirstSeen(xs[..|xs| - 1]);
      if xs[|xs| - 1] in init then init else init + [xs[|xs| - 1]]
  }

  // ---------------------------------------------------------------------------
  // Counting
  // ---------------------------------------------------------------------------

  /**
   * `skill_counts[s] = skill_counts.get(s, 0) + 1`: an existing key is
   * incremented in place, a new one is appended (stated by BumpKeys and
   * BumpCount).
   */
  function Bump(d: seq<Entry>, s: string): (r: seq<Entry>)
    ensures |r| == |d| || |r| == |d| + 1
  {
    if |d| == 0 then [Entry(s, 1)]
    else if d[0].skill == s then [Entry(s, d[0].count + 1)] + d[1..]
    else [d[0]] + Bump(d[1..], s)
  }

  /** The dictionary built by counting `xs` from an empty one. */
  function Tally(xs: seq<string>): seq<Entry> {
    if |xs| == 0 then [] else Bump(Tally(xs[..|xs| - 1]), xs[|xs| - 1])
  }

  lemma {:induction false} BumpKeys(d: seq<Entry>, s: string)
    ensures Keys(Bump(d, s)) == if s in Keys(d) then Keys(d) else Keys(d) + [s]
  {
    if |d| > 0 && d[0].skill != s {
      BumpKeys(d[1..], s);
      assert Keys(d) == [d[0].skill] + Keys(d[1..]);
      assert s in Keys(d) <==> s in Keys(d[1..]);
    } else if |d| > 0 {
      assert Keys(d) == [d[0].skill] + Keys(d[1..]);
    }
  }

  lemma {:induction false} BumpCount(d: seq<Entry>, s: string, t: string)
    ensures CountOf(Bump(d, s), t) == CountOf(d, t) + (if t == s then 1 else 0)
  {
    if |d| > 0 && d[0].skill != s {
      BumpCount(d[1..], s, t);
      assert Bump(d, s)[1..] == Bump(d[1..], s);
    } else if |d| > 0 {
      assert Bump(d, s)[1..] == d[1..];
    }
  }

  lemma {:induction false} BumpTotal(d: seq<Entry>, s: string)
    ensures Total(Bump(d, s)) == Total(d) + 1
  {
    if |d| > 0 && d[0].skill != s {
      BumpTotal(d[1..], s);
      assert Bump(d, s)[1..] == Bump(d[1..], s);
    } else if |d| > 0 {
      assert Bump(d, s)[1..] == d[1..];
    }
  }

  lemma {:induction false} BumpPositive(d: seq<Entry>, s: string)
    requires AllPositive(d)
    ensures AllPositive(Bump(d, s))
  {
    if |d| > 0 && d[0].skill != s {
      BumpPositive(d[1..], s);
    }
  }

  /** Keys are distinct exactly when the key list has no repetition. */
  lemma DistinctKeysFromKeys(d: seq<Entry>, keys: seq<string>)
    requires keys == Keys(d)
    ensures DistinctKeys(d) <==> forall i, j :: 0 <= i < j < |keys| ==> keys[i] != keys[j]
  {
  }

  /** Counting `xs` yields one entry per distinct skill, in the order skills are first met. */
  lemma {:induction false} TallyKeys(xs: seq<string>)
    ensures Keys(Tally(xs)) == FirstSeen(xs)
    ensures DistinctKeys(Tally(xs))
  {
    if |xs| > 0 {
      var init, last := xs[..|xs| - 1], xs[|xs| - 1];
      TallyKeys(init);
      BumpKeys(Tally(init), last);
      DistinctKeysFromKeys(Tally(init), Keys(Tally(init)));
      DistinctKeysFromKeys(Tally(xs), Keys(Tally(xs)));
    }
  }

  /** Each skill's count is the number of times it occurs in `xs`. */
  lemma {:induction false} TallyCountOf(xs: seq<string>, s: string)
    ensures CountOf(Tally(xs), s) == multiset(xs)[s]
  {
    if |xs| > 0 {
      var init, last := xs[..|xs| - 1], xs[|xs| - 1];
      TallyCountOf(init, s);
      BumpCount(Tally(init), last, s);
      assert xs == init + [last];
    }
  }

  /** Every count is at least one, and the counts add up to the length of `xs`. */
  lemma {:induction false} TallyTotal(xs: seq<string>)
    ensures AllPositive(Tally(xs))
    ensures Total(Tally(xs)) == |xs|
  {
    if |xs| > 0 {
      var init, last := xs[..|xs| - 1], xs[|xs| - 1];
      TallyTotal(init);
      BumpTotal(Tally(init), last);
      BumpPositive(Tally(init), last);
    }
  }

  /** Every skill met has a key, and only those. */
  lemma {:induction false} FirstSeenMembers(xs: seq<string>, s: string)
    ensures s in FirstSeen(xs) <==> s in xs
  {
    if |xs| > 0 {
      FirstSeenMembers(xs[..|xs| - 1], s);
      assert xs == xs[..|xs| - 1] + [xs[|xs| - 1]];
    }
  }

  /**
   * `get_skill_distribution`: an empty dictionary when the query fails;
   * otherwise each record's skills are counted in turn, records without
   * skills contributing nothing.
   */
  method GetSkillDistribution(store: Option<seq<Resume>>) returns (d: seq<Entry>)
    ensures store.None? ==> d == []
    ensures store.Some? ==> d == Tally(AllSkills(store.value))
    ensures store.Some? ==> forall s :: CountOf(d, s) == multiset(AllSkills(store.value))[s]
    ensures DistinctKeys(d) && AllPositive(d)
    ensures store.Some? ==> Total(d) == |AllSkills(store.value)|
  {
    d := [];
    if store.None? {
      return;
    }
    var records := store.value;
    var i := 0;
    while i < |records|
      invariant 0 <= i <= |records|
      invariant d == Tally(AllSkills(records[..i]))
    {
      var skills := records[i].skills;
      assert records[..i + 1][..i] == records[..i];
      assert AllSkills(records[..i]) + skills[..0] == AllSkills(records[..i]);
      var j := 0;
      while j < |skills|
        invariant 0 <= j <= |skills|
        invariant d == Tally(AllSkills(records[..i]) + skills[..j])
      {
        assert (AllSkills(records[..i]) + skills[..j + 1])[..|AllSkills(records[..i])| + j]
          == AllSkills(records[..i]) + skills[..j];
        d := Bump(d, skills[j]);
        j := j + 1;
      }
      assert skills[..j] == skills;
      i := i + 1;
    }
    assert records[..i] == records;
    var xs := AllSkills(records);
    TallyKeys(xs);
    TallyTotal(xs);
    forall s ensures CountOf(d, s) == multiset(xs)[s] {
      TallyCountOf(xs, s);
    }
  }

  /** The number of records whose skill list holds `s`. */
  function RecordsHaving(records: seq<Resume>, s: string): nat {
    if |records| == 0 then 0
    else RecordsHaving(records[..|records| - 1], s) + (if s in records[|records| - 1].skills then 1 else 0)
  }

  /** In a list without repetition an element occurs once or not at all. */
  lemma {:induction false} NoDuplicatesOccurOnce(xs: seq<string>, s: string)
    requires Skills.NoDuplicates(xs)
    ensures multiset(xs)[s] == if s in xs then 1 else 0
  {
    if |xs| > 0 {
      NoDuplicatesOccurOnce(xs[1..], s);
      assert xs == [xs[0]] + xs[1..];
      assert xs[0] !in xs[1..];
    }
  }

  /**
   * Skill lists hold each skill once, so a skill's count is the number of
   * records that list it: the chart's "Number of CVs".
   */
  lemma {:induction false} CountIsNumberOfRecords(records: seq<Resume>, s: string)
    requires forall x :: x in records ==> Skills.NoDuplicates(x.skills)
    ensures multiset(AllSkills(records))[s] == RecordsHaving(records, s)
  {
    if |records| > 0 {
      var init := records[..|records| - 1];
      var last := records[|records| - 1];
      CountIsNumberOfRecords(init, s);
      NoDuplicatesOccurOnce(last.skills, s);
    }
  }

  // ---------------------------------------------------------------------------
  // Ordering
  // ---------------------------------------------------------------------------

  predicate SortedByCount(s: seq<Entry>) {
    forall i, j :: 0 <= i < j < |s| ==> s[i].count >= s[j].count
  }

  /** The entries with count `c`, in order. */
  function WithCount(s: seq<Entry>, c: nat): seq<Entry> {
    if |s| == 0 then []
    else (if s[0].count == c then [s[0]] else []) + WithCount(s[1..], c)
  }

  /**
   * Places `e` after every entry whose count is at least its own (stated by
   * InsertMultiset, InsertSorted and InsertWithCount).
   */
  function Insert(s: seq<Entry>, e: Entry): (r: seq<Entry>)
    ensures |r| == |s| + 1
  {
    if |s| == 0 then [e]
    else if s[0].count >= e.count then [s[0]] + Insert(s[1..], e)
    else [e] + s
  }

  /**
   * `sorted(items, key=count, reverse=True)`: by count, largest first; the
   * sort is stable, so entries with equal counts keep their order (stated by
   * SortByCountCorrect).
   */
  function SortByCount(d: seq<Entry>): (r: seq<Entry>)
    ensures |r| == |d|
  {
    if |d| == 0 then [] else Insert(SortByCount(d[..|d| - 1]), d[|d| - 1])
  }

  /** Insertion adds exactly the new entry. */
  lemma {:induction false} InsertMultiset(s: seq<Entry>, e: Entry)
    ensures multiset(Insert(s, e)) == multiset(s) + multiset{e}
  {
    if |s| > 0 && s[0].count >= e.count {
      InsertMultiset(s[1..], e);
      assert s == [s[0]] + s[1..];
    } else if |s| > 0 {
      assert Insert(s, e) == [e] + s;
    }
  }

  /** Insertion keeps a list sorted by count. */
  lemma {:induction false} InsertSorted(s: seq<Entry>, e: Entry)
    requires SortedByCount(s)
    ensures SortedByCount(Insert(s, e))
  {
    if |s| > 0 && s[0].count >= e.count {
      InsertSorted(s[1..], e);
      InsertMultiset(s[1..], e);
      assert s == [s[0]] + s[1..];
      var r := Insert(s, e);
      assert r[1..] == Insert(s[1..], e);
      forall j | 0 < j < |r| ensures r[0].count >= r[j].count {
        assert r[j] in multiset(Insert(s[1..], e));
      }
    } else if |s| > 0 {
      assert Insert(s, e) == [e] + s;
    }
  }

  lemma {:induction false} WithCountAppend(a: seq<Entry>, b: seq<Entry>, c: nat)
    ensures WithCount(a + b, c) == WithCount(a, c) + WithCount(b, c)
  {
    if |a| > 0 {
      assert (a + b)[1..] == a[1..] + b;
      WithCountAppend(a[1..], b, c);
    } else {
      assert a + b == b;
    }
  }

  /** A sorted sequence whose first count is below `c` has no entry with count `c`. */
  lemma {:induction false} WithCountBelow(s: seq<Entry>, c: nat)
    requires SortedByCount(s) && (|s| == 0 || s[0].count < c)
    ensures WithCount(s, c) == []
  {
    if |s| > 0 {
      WithCountBelow(s[1..], c);
    }
  }

  lemma {:induction false} InsertWithCount(s: seq<Entry>, e: Entry, c: nat)
    requires SortedByCount(s)
    ensures WithCount(Insert(s, e), c) == WithCount(s, c) + (if e.count == c then [e] else [])
  {
    if |s| > 0 && s[0].count >= e.count {
      InsertWithCount(s[1..], e, c);
      assert Insert(s, e)[1..] == Insert(s[1..], e);
    } else if |s| > 0 {
      WithCountBelow(s, e.count);
      assert Insert(s, e)[1..] == s;
    }
  }

  /**
   * The ordering the chart uses: counts never increase along it, it holds
   * the same entries, and entries with equal counts keep their order.
   */
  lemma SortByCountCorrect(d: seq<Entry>)
    ensures SortedByCount(SortByCount(d))
    ensures multiset(SortByCount(d)) == multiset(d)
    ensures forall c :: WithCount(SortByCount(d), c) == WithCount(d, c)
  {
    SortByCountSorted(d);
    SortByCountPermutes(d);
    forall c ensures WithCount(SortByCount(d), c) == WithCount(d, c) {
      SortByCountStable(d, c);
    }
  }

  /** The sort orders by count. */
  lemma {:induction false} SortByCountSorted(d: seq<Entry>)
    ensures SortedByCount(SortByCount(d))
  {
    if |d| > 0 {
      var init, last := d[..|d| - 1], d[|d| - 1];
      SortByCountSorted(init);
      InsertSorted(SortByCount(init), last);
    }
  }

  /** The sort holds the same entries. */
  lemma {:induction false} SortByCountPermutes(d: seq<Entry>)
    ensures multiset(SortByCount(d)) == multiset(d)
  {
    if |d| > 0 {
      var init, last := d[..|d| - 1], d[|d| - 1];
      var sorted := SortByCount(init);
      calc {
        multiset(SortByCount(d));
        multiset(Insert(sorted, last));
        { InsertMultiset(sorted, last); }
        multiset(sorted) + multiset{last};
        { SortByCountPermutes(init); }
        multiset(init) + multiset{last};
        { assert d == init + [last]; }
        multiset(d);
      }
    }
  }

  /** The sort is stable: the entries with any one count keep their order. */
  lemma {:induction false} SortByCountStable(d: seq<Entry>, c: nat)
    ensures WithCount(SortByCount(d), c) == WithCount(d, c)
  {
    if |d| > 0 {
      var init, last := d[..|d| - 1], d[|d| - 1];
      var sorted := SortByCount(init);
      var tail := if last.count == c then [last] else [];
      assert SortByCount(d) == Insert(sorted, last);
      assert WithCount(SortByCount(d), c) == WithCount(init, c) + tail by {
        SortByCountStable(init, c);
        SortByCountSorted(init);
        InsertWithCount(sorted, last, c);
      }
      assert WithCount(d, c) == WithCount(init, c) + tail by {
        assert d == init + [last];
        WithCountAppend(init, [last], c);
        WithCountSingle(last, c);
      }
    }
  }

  lemma WithCountSingle(e: Entry, c: nat)
    ensures WithCount([e], c) == if e.count == c then [e] else []
  {
    assert [e][1..] == [];
  }

  /** The chart's bars: skills and counts of the sorted dictionary, as parallel lists. */
  function Chart(d: seq<Entry>): (r: Series)
    ensures |r.labels| == |r.values| == |d|
  {
    var s := SortByCount(d);
    Series(Keys(s), Counts(s))
  }

  /** The sorted entries are the dictionary's entries, so their keys are distinct too. */
  lemma SortedKeysDistinct(d: seq<Entry>)
    requires DistinctKeys(d)
    ensures DistinctKeys(SortByCount(d))
  {
    SortByCountCorrect(d);
    var s := SortByCount(d);
    forall i, j | 0 <= i < j < |s| ensures s[i].skill != s[j].skill {
      SortedEntriesDistinct(d, s, i, j);
    }
  }

  /** Each sorted entry carries its skill's number of occurrences. */
  lemma SortedCountsAreOccurrences(xs: seq<string>, i: nat)
    requires i < |SortByCount(Tally(xs))|
    ensures var e := SortByCount(Tally(xs))[i]; e.count == multiset(xs)[e.skill] >= 1
  {
    var d := Tally(xs);
    var s := SortByCount(d);
    SortByCountCorrect(d);
    TallyKeys(xs);
    TallyTotal(xs);
    assert s[i] in multiset(d);
    var k :| 0 <= k < |d| && d[k] == s[i];
    DistinctCountOf(d, k);
    TallyCountOf(xs, s[i].skill);
  }

  /** The sorted entries name exactly the skills that occur. */
  lemma SortedKeysAreOccurring(xs: seq<string>, x: string)
    ensures x in Keys(SortByCount(Tally(xs))) <==> x in xs
  {
    var d := Tally(xs);
    var s := SortByCount(d);
    SortByCountCorrect(d);
    TallyKeys(xs);
    FirstSeenMembers(xs, x);
    if x in Keys(d) {
      var k :| 0 <= k < |d| && d[k].skill == x;
      assert d[k] in multiset(s);
    }
    if x in Keys(s) {
      var k :| 0 <= k < |s| && s[k].skill == x;
      assert s[k] in multiset(d);
    }
  }

  /**
   * The chart drawn from the records: one bar per distinct skill, bars by
   * count, largest first, each bar's value the number of times its skill
   * occurs across the records' skill lists, and every value at least one.
   */
  lemma ChartOfRecords(records: seq<Resume>)
    ensures var xs := AllSkills(records);
      var ch := Chart(Tally(xs));
      && (forall i, j :: 0 <= i < j < |ch.labels| ==> ch.labels[i] != ch.labels[j])
      && (forall i, j :: 0 <= i < j < |ch.values| ==> ch.values[i] >= ch.values[j])
      && (forall i :: 0 <= i < |ch.labels| ==> ch.values[i] == multiset(xs)[ch.labels[i]] >= 1)
      && (forall s :: s in ch.labels <==> s in xs)
  {
    var xs := AllSkills(records);
    var d := Tally(xs);
    TallyKeys(xs);
    SortByCountCorrect(d);
    SortedKeysDistinct(d);
    forall i | 0 <= i < |SortByCount(d)|
      ensures SortByCount(d)[i].count == multiset(xs)[SortByCount(d)[i].skill] >= 1
    {
      SortedCountsAreOccurrences(xs, i);
    }
    forall x ensures x in Keys(SortByCount(d)) <==> x in xs {
      SortedKeysAreOccurring(xs, x);
    }
  }

  /** In a dictionary with distinct keys, the count of a key is its entry's count. */
  lemma {:induction false} DistinctCountOf(d: seq<Entry>, k: nat)
    requires DistinctKeys(d) && k < |d|
    ensures CountOf(d, d[k].skill) == d[k].count
  {
    if k > 0 {
      DistinctCountOf(d[1..], k - 1);
    }
  }

  /** A permutation of entries with distinct keys has distinct keys. */
  lemma SortedEntriesDistinct(d: seq<Entry>, s: seq<Entry>, i: nat, j: nat)
    requires DistinctKeys(d) && multiset(s) == multiset(d)
    requires i < j < |s|
    ensures s[i].skill != s[j].skill
  {
    assert s[i] in multiset(d) && s[j] in multiset(d);
    var a :| 0 <= a < |d| && d[a] == s[i];
    var b :| 0 <= b < |d| && d[b] == s[j];
    if s[i].skill == s[j].skill {
      assert a == b;
      MultisetTwoPositions(s, i, j);
      assert multiset(d)[d[a]] >= 2;
      DistinctEntryOnce(d, a);
    }
  }

  /** An element at two positions occurs at least twice. */
  lemma MultisetTwoPositions(s: seq<Entry>, i: nat, j: nat)
    requires i < j < |s| && s[i] == s[j]
    ensures multiset(s)[s[i]] >= 2
  {
    assert s == s[..j] + [s[j]] + s[j + 1..];
    assert s[i] in s[..j];
  }

  /** In a dictionary with distinct keys, each entry occurs once. */
  lemma {:induction false} DistinctEntryOnce(d: seq<Entry>, a: nat)
    requires DistinctKeys(d) && a < |d|
    ensures multiset(d)[d[a]] == 1
  {
    assert d == d[..a] + [d[a]] + d[a + 1..];
    assert d[a] !in d[..a];
    assert d[a] !in d[a + 1..];
  }
}
