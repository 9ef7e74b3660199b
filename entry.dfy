/** One recorded day, the sizes of its text buffers, and the normalisation applied when a day is added. */
module Entry {

  /** Capacity of the store (MAX_ENTRIES). */
  const MaxEntries: nat := 100
  /** Size of the date buffer, terminator included (DATE_LEN); a date holds at most DateLen - 1 characters. */
  const DateLen: nat := 12
  /** Size of the note buffer, terminator included (NOTE_LEN); a note holds at most NoteLen - 1 characters. */
  const NoteLen: nat := 64

  /** Stored in place of an empty date. */
  const UnknownDate: string := "unknown"

  /** hours and screen are doubles in the source; here they are exact reals. */
  datatype SleepEntry = SleepEntry(
    date: string,
    hours: real,
    quality: int,
    screen: real,
    caffeine: int,
    note: string)

  /** The entry fits the fixed-size text buffers of the source, and its date is not empty. */
  predicate Fits(e: SleepEntry) {
    1 <= |e.date| <= DateLen - 1 && |e.note| <= NoteLen - 1
  }

  function Dist(a: int, b: int): nat {
    if a <= b then b - a else a - b
  }

  /** The entry add_entry builds from already-parsed input: an empty date becomes "unknown",
      and quality is moved to the nearest value in [1, 10]. */
  function NewEntry(date: string, hours: real, quality: int, screen: real, caffeine: int, note: string): (e: SleepEntry)
    ensures e.date != [] && (date != [] ==> e.date == date) && (date == [] ==> e.date == UnknownDate)
    ensures 1 <= e.quality <= 10
    ensures forall q :: 1 <= q <= 10 ==> Dist(e.quality, quality) <= Dist(q, quality)
    ensures e.hours == hours && e.screen == screen && e.caffeine == caffeine && e.note == note
    ensures |date| <= DateLen - 1 && |note| <= NoteLen - 1 ==> Fits(e)
  {
    var q := if quality < 1 then 1 else if quality > 10 then 10 else quality;
    SleepEntry(if date == [] then UnknownDate else date, hours, q, screen, caffeine, note)
  }
}
