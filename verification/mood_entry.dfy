/** The app's data model: the five-case `Mood` enum and the immutable `MoodEntry` record. */
module Models {
  import opened Wrappers
  import opened Calendar

  /** A closed enumeration; its raw values are the emoji shown in the UI. */
  datatype Mood = Happy | Neutral | Sad | Angry | Love

  /** `Mood.allCases`, in declaration order. */
  const AllMoods: seq<Mood> := [Happy, Neutral, Sad, Angry, Love]

  /** `Mood.rawValue`: one emoji per mood. */
  function RawValue(m: Mood): string
  {
    match m
    case Happy => "\U{1F60A}"
    case Neutral => "\U{1F610}"
    case Sad => "\U{1F61E}"
    case Angry => "\U{1F621}"
    case Love => "\U{1F60D}"
  }

  /** `Mood(rawValue:)`, the decoder the `Codable` conformance uses. */
  function FromRawValue(s: string): (r: Option<Mood>)
    ensures r.Some? ==> RawValue(r.value) == s
  {
    if s == "\U{1F60A}" then Some(Happy)
    else if s == "\U{1F610}" then Some(Neutral)
    else if s == "\U{1F61E}" then Some(Sad)
    else if s == "\U{1F621}" then Some(Angry)
    else if s == "\U{1F60D}" then Some(Love)
    else None
  }

  /** Decoding an encoded mood gives it back, so the raw values are pairwise distinct. */
  lemma RawValueRoundTrip(m: Mood)
    ensures FromRawValue(RawValue(m)) == Some(m)
  {
  }

  /** A string decodes to a mood exactly when it is one of the five raw values. */
  lemma FromRawValueExact(s: string)
    ensures FromRawValue(s).Some? <==> exists m: Mood :: RawValue(m) == s
  {
  }

  /** `allCases` lists every mood exactly once. */
  lemma AllMoodsEnumerates(m: Mood)
    ensures |AllMoods| == 5
    ensures m in AllMoods
    ensures forall i, j :: 0 <= i < j < |AllMoods| ==> AllMoods[i] != AllMoods[j]
  {
  }

  /** `Mood.color`: the name of the asset-catalogue colour for each mood. */
  function Color(m: Mood): string
  {
    match m
    case Happy => "moodHappy"
    case Neutral => "moodNeutral"
    case Sad => "moodSad"
    case Angry => "moodAngry"
    case Love => "moodLove"
  }

  lemma ColorInjective(a: Mood, b: Mood)
    ensures Color(a) == Color(b) <==> a == b
  {
  }

  /** Swift's `UUID`; generating a fresh one is left to the caller. */
  type EntryId = nat

  /** `MoodEntry`: all fields are `let`, so an entry never changes after construction. */
  datatype MoodEntry = MoodEntry(id: EntryId, date: Date, mood: Mood, comment: Option<string>)

  /** `MoodEntry.init`; the fresh `UUID()` and the current `Date()` defaults are parameters. */
  function MakeEntry(id: EntryId, date: Date, mood: Mood, comment: Option<string> := None): (e: MoodEntry)
    ensures e.id == id && e.date == date && e.mood == mood && e.comment == comment
  {
    MoodEntry(id, date, mood, comment)
  }

  /** An entry built without a comment has none. */
  lemma DefaultCommentIsNil(id: EntryId, date: Date, mood: Mood)
    ensures MakeEntry(id, date, mood).comment == None
  {
  }
}
