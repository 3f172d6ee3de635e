/**
 * `MoodViewModel`: the entry store (a list of entries with at most one per
 * calendar day) and the form fields of the "today" screen, with the
 * operations `saveEntry`, `clearAllData` and `entriesForMonth`.
 *
 * The view model is a mutable observable object in the app; here it is a
 * value, and each operation maps the old state to the new one.
 */
module MoodViewModel {
  import opened Wrappers
  import opened Seqs
  import opened Calendar
  import opened Models

  datatype State = State(
    entries: seq<MoodEntry>,
    selectedMood: Option<Mood>,
    comment: string,
    selectedDate: Date)

  /**
   * The state after `init()`: the form fields at their declared defaults,
   * the date picker at `now`, and the entries that `loadEntries` decoded
   * (`stored`), or none when nothing was stored or decoding failed.
   */
  function Init(stored: Option<seq<MoodEntry>>, now: Date): (s: State)
    ensures s.selectedMood == None && s.comment == "" && s.selectedDate == now
    ensures s.entries == stored.GetOr([])
  {
    State(stored.GetOr([]), None, "", now)
  }

  function OnDay(day: int): MoodEntry -> bool
  {
    (e: MoodEntry) => e.date.Day() == day
  }

  function NotOnDay(day: int): MoodEntry -> bool
  {
    (e: MoodEntry) => e.date.Day() != day
  }

  /** How many entries lie on calendar day `day`. */
  function CountOnDay(entries: seq<MoodEntry>, day: int): nat
  {
    Count(entries, OnDay(day))
  }

  /** The store invariant: no two entries share a calendar day. */
  ghost predicate OnePerDay(entries: seq<MoodEntry>)
  {
    forall i, j :: 0 <= i < j < |entries| ==> entries[i].date.Day() != entries[j].date.Day()
  }

  /** `comment.isEmpty ? nil : comment` */
  function StoredComment(comment: string): (c: Option<string>)
    ensures c == None <==> |comment| == 0
    ensures c.Some? ==> c.value == comment
  {
    if |comment| == 0 then None else Some(comment)
  }

  /** The entry `saveEntry` builds from the form, with `id` as its fresh UUID. */
  function PendingEntry(s: State, id: EntryId): MoodEntry
    requires s.selectedMood.Some?
  {
    MoodEntry(id, s.selectedDate, s.selectedMood.value, StoredComment(s.comment))
  }

  /**
   * `saveEntry()`. Without a selected mood nothing happens. Otherwise every
   * entry on the selected calendar day is removed, the new entry is
   * appended, and the form is reset (`now` is the `Date()` it is reset to).
   * Persisting the list is left out.
   */
  function SaveEntry(s: State, id: EntryId, now: Date): (r: State)
    ensures s.selectedMood.None? ==> r == s
    ensures s.selectedMood.Some? ==>
      && |r.entries| > 0
      && r.entries[|r.entries| - 1] == PendingEntry(s, id)
      && r.selectedMood == None && r.comment == "" && r.selectedDate == now
    ensures s.selectedMood.Some? ==>
      CountOnDay(r.entries, s.selectedDate.Day()) == 1
    ensures s.selectedMood.Some? ==>
      |r.entries| == |s.entries| - CountOnDay(s.entries, s.selectedDate.Day()) + 1
    ensures s.selectedMood.Some? ==>
      var kept := r.entries[..|r.entries| - 1];
      && IsSubsequence(kept, s.entries)
      && (forall e :: e in kept <==> e in s.entries && e.date.Day() != s.selectedDate.Day())
      && (forall e :: e in s.entries && e.date.Day() != s.selectedDate.Day() ==>
            multiset(kept)[e] == multiset(s.entries)[e])
  {
    match s.selectedMood
    case None => s
    case Some(mood) =>
      var day := s.selectedDate.Day();
      var e := PendingEntry(s, id);
      var kept := Filter(s.entries, NotOnDay(day));
      FilterMultiplicity(s.entries, NotOnDay(day));
      FilterIsSubsequence(s.entries, NotOnDay(day));
      FilterAppend(kept, [e], OnDay(day));
      FilterNone(kept, OnDay(day));
      FilterComplement(s.entries, OnDay(day), NotOnDay(day));
      assert (kept + [e])[..|kept|] == kept;
      State(kept + [e], None, "", now)
  }

  /** Filtering keeps the one-entry-per-day invariant. */
  lemma {:induction false} FilterKeepsOnePerDay(entries: seq<MoodEntry>, p: MoodEntry -> bool)
    requires OnePerDay(entries)
    ensures OnePerDay(Filter(entries, p))
    decreases |entries|
  {
    if |entries| > 0 {
      var head := entries[0];
      var tail := entries[1..];
      assert OnePerDay(tail) by {
        forall i, j | 0 <= i < j < |tail|
          ensures tail[i].date.Day() != tail[j].date.Day()
        {
          assert tail[i] == entries[i + 1] && tail[j] == entries[j + 1];
        }
      }
      FilterKeepsOnePerDay(tail, p);
      var rest := Filter(tail, p);
      if p(head) {
        var r := [head] + rest;
        assert Filter(entries, p) == r;
        forall i, j | 0 <= i < j < |r|
          ensures r[i].date.Day() != r[j].date.Day()
        {
          var y := rest[j - 1];
          assert r[j] == y;
          if i > 0 {
            assert r[i] == rest[i - 1];
          } else {
            assert y in tail;
            var k :| 0 <= k < |tail| && tail[k] == y;
            assert entries[k + 1] == y;
          }
        }
      } else {
        assert Filter(entries, p) == rest;
      }
    }
  }

  /** Saving keeps at most one entry per calendar day. */
  lemma SaveEntryKeepsOnePerDay(s: State, id: EntryId, now: Date)
    requires OnePerDay(s.entries)
    ensures OnePerDay(SaveEntry(s, id, now).entries)
  {
    if s.selectedMood.Some? {
      var day := s.selectedDate.Day();
      var kept := Filter(s.entries, NotOnDay(day));
      FilterKeepsOnePerDay(s.entries, NotOnDay(day));
      var r := SaveEntry(s, id, now).entries;
      assert r == kept + [PendingEntry(s, id)];
      forall i | 0 <= i < |kept|
        ensures r[i].date.Day() != day
      {
        assert r[i] == kept[i] && kept[i] in kept;
      }
    }
  }

  /**
   * `clearAllData()`: the store is emptied and the form left as it is.
   * Removing the persisted copy is left out.
   */
  function ClearAllData(s: State): (r: State)
    ensures |r.entries| == 0
    ensures r.selectedMood == s.selectedMood && r.comment == s.comment && r.selectedDate == s.selectedDate
  {
    s.(entries := [])
  }

  function InMonthOf(d: Date): MoodEntry -> bool
  {
    (e: MoodEntry) => SameMonth(e.date, d)
  }

  /**
   * `entriesForMonth(d)`: the entries whose date lies in the year and month
   * of `d`, in store order and with their multiplicities.
   */
  function EntriesForMonth(entries: seq<MoodEntry>, d: Date): (r: seq<MoodEntry>)
    ensures forall e :: e in r <==> e in entries && SameMonth(e.date, d)
    ensures forall e :: multiset(r)[e] == if SameMonth(e.date, d) then multiset(entries)[e] else 0
    ensures IsSubsequence(r, entries)
  {
    FilterMultiplicity(entries, InMonthOf(d));
    FilterIsSubsequence(entries, InMonthOf(d));
    Filter(entries, InMonthOf(d))
  }

  /** A month's entries inherit the one-entry-per-day invariant. */
  lemma EntriesForMonthKeepsOnePerDay(entries: seq<MoodEntry>, d: Date)
    requires OnePerDay(entries)
    ensures OnePerDay(EntriesForMonth(entries, d))
  {
    FilterKeepsOnePerDay(entries, InMonthOf(d));
  }
}
