/**
 * The derived figures of the analytics screen for the current month: the
 * entries sorted by date, the count per mood, the average mood and the
 * day streak, plus the private `Mood` extension that maps moods to scores
 * 1..5 and an average back to a mood.
 */
module Analytics {
  import opened Wrappers
  import opened Seqs
  import opened Calendar
  import opened Models
  import opened MoodViewModel

  /** `Mood.numericValue`: happy 5, love 4, neutral 3, sad 2, angry 1. */
  function NumericValue(m: Mood): (v: int)
    ensures 1 <= v <= 5
  {
    match m
    case Happy => 5
    case Love => 4
    case Neutral => 3
    case Sad => 2
    case Angry => 1
  }

  /** The scores are a bijection between the five moods and 1..5. */
  lemma NumericValueBijective(a: Mood, b: Mood, v: int)
    ensures NumericValue(a) == NumericValue(b) <==> a == b
    ensures 1 <= v <= 5 ==> exists m: Mood :: NumericValue(m) == v
  {
    if v == 1 { assert NumericValue(Angry) == v; }
    else if v == 2 { assert NumericValue(Sad) == v; }
    else if v == 3 { assert NumericValue(Neutral) == v; }
    else if v == 4 { assert NumericValue(Love) == v; }
    else if v == 5 { assert NumericValue(Happy) == v; }
  }

  function Clamp(x: int, lo: int, hi: int): int
    requires lo <= hi
  {
    if x < lo then lo else if x > hi then hi else x
  }

  /**
   * `Mood.fromNumeric`: an average rounds to the mood whose score is
   * `v + 0.3` rounded down, clamped to 1..5 (the cut-offs 1.7, 2.7, 3.7,
   * 4.7 of the switch). Averages are exact reals here, not `Double`s.
   */
  function FromNumeric(v: real): (m: Mood)
    ensures NumericValue(m) == Clamp((v + 0.3).Floor, 1, 5)
  {
    if v >= 4.7 then Happy
    else if 3.7 <= v < 4.7 then Love
    else if 2.7 <= v < 3.7 then Neutral
    else if 1.7 <= v < 2.7 then Sad
    else Angry
  }

  /**
   * The ranges of the switch are disjoint and cover every real: each mood
   * owns the band from 0.3 below its score to 0.7 above it, with the
   * bottom band open downwards and the top band open upwards.
   */
  lemma FromNumericBands(v: real, m: Mood)
    ensures FromNumeric(v) == m <==>
      var k := NumericValue(m) as real;
      && (NumericValue(m) == 1 || k - 0.3 <= v)
      && (NumericValue(m) == 5 || v < k + 0.7)
  {
  }

  /** A mood's own score maps back to it. */
  lemma FromNumericRoundTrip(m: Mood)
    ensures FromNumeric(NumericValue(m) as real) == m
  {
  }

  /** A higher average never shows a lower mood. */
  lemma FromNumericMonotone(v: real, w: real)
    requires v <= w
    ensures NumericValue(FromNumeric(v)) <= NumericValue(FromNumeric(w))
  {
  }

  function DateKey(e: MoodEntry): int
  {
    e.date.seconds
  }

  /**
   * `monthEntries`: the entries of `now`'s month sorted by date, oldest
   * first. Swift does not fix the order of entries with equal dates, so
   * only sortedness and the permutation are stated.
   */
  function MonthEntries(entries: seq<MoodEntry>, now: Date): (r: seq<MoodEntry>)
    ensures forall i, j :: 0 <= i < j < |r| ==> r[i].date.seconds <= r[j].date.seconds
    ensures multiset(r) == multiset(EntriesForMonth(entries, now))
    ensures forall e :: e in r <==> e in entries && SameMonth(e.date, now)
  {
    var r := SortByKey(EntriesForMonth(entries, now), DateKey);
    assert forall e :: e in r <==> e in multiset(EntriesForMonth(entries, now));
    r
  }

  function HasMood(m: Mood): MoodEntry -> bool
  {
    (e: MoodEntry) => e.mood == m
  }

  /** How many of `s` have mood `m`. */
  function Occurrences(s: seq<MoodEntry>, m: Mood): nat
  {
    Count(s, HasMood(m))
  }

  /** `moodCounts[m, default: 0]` */
  function CountOf(counts: map<Mood, int>, m: Mood): int
  {
    if m in counts then counts[m] else 0
  }

  /**
   * `moodCounts`: `Dictionary(grouping:by:)` then `count`. A mood is a key
   * exactly when some entry has it, and maps to how many entries do.
   */
  function MoodCounts(s: seq<MoodEntry>): (counts: map<Mood, int>)
    ensures forall m :: m in counts <==> Occurrences(s, m) > 0
    ensures forall m :: CountOf(counts, m) == Occurrences(s, m)
  {
    if |s| == 0 then map[]
    else
      var c := MoodCounts(s[1..]);
      var m := s[0].mood;
      c[m := CountOf(c, m) + 1]
  }

  function SumCounts(counts: map<Mood, int>, moods: seq<Mood>): int
  {
    if |moods| == 0 then 0 else CountOf(counts, moods[0]) + SumCounts(counts, moods[1..])
  }

  lemma OccurrencesCons(s: seq<MoodEntry>, m: Mood)
    requires |s| > 0
    ensures Occurrences(s, m) == (if s[0].mood == m then 1 else 0) + Occurrences(s[1..], m)
  {
  }

  /** Every entry has exactly one of the five moods. */
  lemma {:induction false} OccurrencesPartition(s: seq<MoodEntry>)
    ensures Occurrences(s, Happy) + Occurrences(s, Neutral) + Occurrences(s, Sad)
      + Occurrences(s, Angry) + Occurrences(s, Love) == |s|
    decreases |s|
  {
    if |s| > 0 {
      OccurrencesPartition(s[1..]);
      OccurrencesCons(s, Happy);
      OccurrencesCons(s, Neutral);
      OccurrencesCons(s, Sad);
      OccurrencesCons(s, Angry);
      OccurrencesCons(s, Love);
    }
  }

  lemma SumCountsOverAllMoods(c: map<Mood, int>)
    ensures SumCounts(c, AllMoods) ==
      CountOf(c, Happy) + CountOf(c, Neutral) + CountOf(c, Sad) + CountOf(c, Angry) + CountOf(c, Love)
  {
    assert AllMoods[1..] == [Neutral, Sad, Angry, Love];
    assert AllMoods[2..] == [Sad, Angry, Love];
    assert AllMoods[3..] == [Angry, Love];
    assert AllMoods[4..] == [Love];
    assert AllMoods[5..] == [];
    assert SumCounts(c, AllMoods[4..]) == CountOf(c, Love);
    assert SumCounts(c, AllMoods[3..]) == CountOf(c, Angry) + CountOf(c, Love);
    assert SumCounts(c, AllMoods[2..]) == CountOf(c, Sad) + CountOf(c, Angry) + CountOf(c, Love);
  }

  /** The five counts of the "Mood Breakdown" card add up to the number of entries. */
  lemma MoodCountsSumToTotal(s: seq<MoodEntry>)
    ensures SumCounts(MoodCounts(s), AllMoods) == |s|
  {
    SumCountsOverAllMoods(MoodCounts(s));
    OccurrencesPartition(s);
  }

  /** The `reduce` of the scores. */
  function TotalValue(s: seq<MoodEntry>): (t: int)
    ensures |s| <= t <= 5 * |s|
  {
    if |s| == 0 then 0 else NumericValue(s[0].mood) + TotalValue(s[1..])
  }

  /** A total between `n` and `5n` gives a mean between 1 and 5. */
  lemma MeanBounds(t: real, n: real)
    requires 0.0 < n && n <= t <= 5.0 * n
    ensures 1.0 <= t / n <= 5.0
  {
  }

  /** `averageMood`: 0 for no entries, otherwise the mean score, which lies in 1..5. */
  function AverageMood(s: seq<MoodEntry>): (avg: real)
    ensures |s| == 0 ==> avg == 0.0
    ensures |s| > 0 ==> avg * |s| as real == TotalValue(s) as real
    ensures |s| > 0 ==> 1.0 <= avg <= 5.0
  {
    if |s| == 0 then 0.0
    else
      var n := |s| as real;
      var t := TotalValue(s) as real;
      MeanBounds(t, n);
      t / n
  }

  /**
   * The value of the "Avg Mood" card: the emoji of the average mood, or
   * "-" exactly when there are no entries.
   */
  function AverageMoodCard(s: seq<MoodEntry>): (text: string)
    ensures text == "-" <==> |s| == 0
    ensures |s| > 0 ==> FromRawValue(text) == Some(FromNumeric(AverageMood(s)))
  {
    var avg := AverageMood(s);
    if avg > 0.0 then
      RawValueRoundTrip(FromNumeric(avg));
      RawValue(FromNumeric(avg))
    else "-"
  }

  function NegatedDateKey(e: MoodEntry): int
  {
    -e.date.seconds
  }

  /** `sorted { $0.date > $1.date }`: newest first. */
  function NewestFirst(s: seq<MoodEntry>): (r: seq<MoodEntry>)
    ensures |r| == |s| && multiset(r) == multiset(s)
    ensures forall i, j :: 0 <= i < j < |r| ==> r[i].date.seconds >= r[j].date.seconds
  {
    SortByKey(s, NegatedDateKey)
  }

  /**
   * `streak`: walking from the newest entry backwards, how many entries
   * fall on consecutive calendar days; it stops at the first entry that is
   * not exactly one day before the previous one (a second entry on the same
   * day also stops it).
   */
  method Streak(month: seq<MoodEntry>) returns (streak: nat)
    ensures streak == 0 <==> |month| == 0
    ensures streak <= |month|
    ensures StreakIs(NewestFirst(month), streak)
  {
    var sorted := NewestFirst(month);
    if |sorted| == 0 {
      return 0;
    }
    streak := 1;
    var prev := sorted[0].date;
    var i := 1;
    while i < |sorted|
      invariant 1 <= i <= |sorted|
      invariant streak == i
      invariant prev == sorted[i - 1].date
      invariant forall k :: 0 <= k < i ==> sorted[k].date.Day() == sorted[0].date.Day() - k
    {
      if SameDay(sorted[i].date, AddDays(prev, -1)) {
        streak := streak + 1;
        prev := sorted[i].date;
        i := i + 1;
      } else {
        break;
      }
    }
  }

  /**
   * The `k` newest entries of `sorted` fall on days L, L-1, ..., L-k+1,
   * where L is the newest entry's day, and the next one (if any) does not
   * fall on day L-k.
   */
  ghost predicate StreakIs(sorted: seq<MoodEntry>, k: nat)
  {
    && k <= |sorted|
    && (forall i :: 0 <= i < k ==> sorted[i].date.Day() == sorted[0].date.Day() - i)
    && (0 < k < |sorted| ==> sorted[k].date.Day() != sorted[0].date.Day() - k)
    && (0 < |sorted| ==> 0 < k)
  }

  /** At most one streak length fits a given newest-first list. */
  lemma StreakIsUnique(sorted: seq<MoodEntry>, k: nat, k': nat)
    requires StreakIs(sorted, k) && StreakIs(sorted, k')
    ensures k == k'
  {
  }

  /** The streak counts back from the latest day of the month. */
  lemma NewestFirstStartsAtLatestDay(s: seq<MoodEntry>, e: MoodEntry)
    requires e in s
    ensures e.date.Day() <= NewestFirst(s)[0].date.Day()
  {
    var r := NewestFirst(s);
    assert e in multiset(r);
    var k :| 0 <= k < |r| && r[k] == e;
    if k > 0 {
      DayMonotone(e.date, r[0].date);
    }
  }

  /** After `clearAllData` every monthly figure is empty or zero. */
  lemma ClearedMonthIsEmpty(s: State, now: Date, m: Mood)
    ensures var month := MonthEntries(ClearAllData(s).entries, now);
      && month == []
      && CountOf(MoodCounts(month), m) == 0
      && AverageMood(month) == 0.0
      && AverageMoodCard(month) == "-"
  {
  }
}
