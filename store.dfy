/** The fixed-capacity store (SleepDB) and the operations of the program that read or change it. */
module Store {
  import opened Optional
  import opened Entry
  import opened Scoring
  import opened Codec

  class SleepDB {
    var arr: array<SleepEntry>
    var count: nat

    /** The array has room for MaxEntries entries, count never exceeds it, and every stored
        entry fits the source's text buffers. */
    ghost predicate Valid()
      reads this, arr
    {
      arr.Length == MaxEntries && count <= MaxEntries
      && forall i :: 0 <= i < count ==> Fits(arr[i])
    }

    /** The stored entries, in the order they were added or loaded. */
    ghost function Entries(): seq<SleepEntry>
      reads this, arr
      requires Valid()
    {
      arr[..count]
    }

    /** An empty store, as main sets it up before loading. */
    constructor ()
      ensures Valid() && fresh(arr) && Entries() == []
    {
      arr := new SleepEntry[MaxEntries];
      count := 0;
    }

    /** add_entry with its prompts already answered: refused when the store is full, otherwise
        the normalised entry is written at index count and count grows by one. */
    method Append(date: string, hours: real, quality: int, screen: real, caffeine: int, note: string)
      returns (added: bool)
      requires Valid()
      requires |date| <= DateLen - 1 && |note| <= NoteLen - 1
      modifies this`count, arr
      ensures Valid()
      ensures added <==> old(count) < MaxEntries
      ensures added ==>
                count == old(count) + 1
                && arr[..] == old(arr[..])[old(count) := NewEntry(date, hours, quality, screen, caffeine, note)]
      ensures !added ==> count == old(count) && arr[..] == old(arr[..])
      ensures Entries() == if added then old(Entries()) + [NewEntry(date, hours, quality, screen, caffeine, note)]
                           else old(Entries())
    {
      if count >= MaxEntries {
        return false;
      }
      var e := NewEntry(date, hours, quality, screen, caffeine, note);
      arr[count] := e;
      count := count + 1;
      added := true;
    }

    /** save_db given whether the file could be opened for writing: the header, then one line
        per stored entry in order; nothing is written when it could not be opened. */
    method Save(writable: bool) returns (ok: bool, lines: seq<string>)
      requires Valid()
      ensures ok == writable
      ensures lines == if ok then SaveLines(Entries()) else []
    {
      if !writable {
        return false, [];
      }
      lines := [Header];
      assert arr[..0] == [];
      var i := 0;
      while i < count
        invariant 0 <= i <= count
        invariant lines == SaveLines(arr[..i])
      {
        var e := arr[i];
        var safe := SanitiseNote(e.note);
        SaveLinesSnoc(arr[..i], e);
        assert arr[..i + 1] == arr[..i] + [e];
        lines := lines + [FormatLine(e, safe)];
        i := i + 1;
      }
      ok := true;
    }

    /** load_db given the file's lines (None when it cannot be opened). Without a file or a
        header line nothing changes and 0 is returned. Otherwise the store is emptied and the
        lines after the header are decoded and appended in order, stopping at the first line
        that does not decode or when the store is full; the new count is returned. */
    method Load(file: Option<seq<string>>) returns (loaded: nat)
      requires Valid()
      modifies this`count, arr
      ensures Valid()
      ensures file.None? || file.value == [] ==> loaded == 0 && count == old(count) && arr[..] == old(arr[..])
      ensures file.Some? && file.value != [] ==>
                Entries() == LoadResult(file.value[1..]) && loaded == count
                && forall i :: count <= i < MaxEntries ==> arr[i] == old(arr[i])
    {
      if file.None? || file.value == [] {
        return 0;
      }
      count := 0;
      ReadLines(file.value[1..], DecodeLine);
      loaded := count;
    }

    /**
     * The read loop of load_db, over a line decoder: decode lines in order
     * into the slots from 0, stopping at the first line that does not decode
     * or when the store is full.
     */
    method ReadLines(body: seq<string>, decode: string -> Option<SleepEntry>)
      requires Valid() && count == 0
      requires forall line :: decode(line).Some? ==> Fits(decode(line).value)
      modifies this`count, arr
      ensures Valid()
      ensures Entries() == Take(PrefixResults(body, decode), MaxEntries)
      ensures forall i :: count <= i < MaxEntries ==> arr[i] == old(arr[i])
    {
      while count < MaxEntries && count < |body|
        invariant count <= MaxEntries && count <= |body|
        invariant Valid()
        invariant forall k :: 0 <= k < count ==> decode(body[k]) == Some(arr[k])
        invariant forall i :: count <= i < MaxEntries ==> arr[i] == old(arr[i])
      {
        var r := decode(body[count]);
        if r.None? {
          break;
        }
        arr[count] := r.value;
        count := count + 1;
      }
      PrefixResultsTake(arr[..count], body, decode, MaxEntries);
    }

    /** avg_recent_score: the mean score of the last min(n, count) entries, 0 for an empty store. */
    method AvgRecentScore(n: int) returns (avg: real)
      requires Valid() && n >= 1
      ensures avg == RecentMean(Entries(), n)
      ensures 0.0 <= avg <= 100.0
    {
      if count == 0 {
        return 0.0;
      }
      var used := if n < count then n else count;
      ghost var es := Entries();
      var sum := 0.0;
      var i := count - used;
      while i < count
        invariant count - used <= i <= count
        invariant sum == SumScores(es[count - used..i])
      {
        SumScoresStep(es, count - used, i);
        sum := sum + Score(arr[i]);
        i := i + 1;
      }
      assert es[count - used..count] == es[|es| - used..];
      RecentMeanOfSum(es, n, used, sum);
      avg := sum / used as real;
    }

    /** predict_risk: the mean score of the last three entries and its risk band. */
    method PredictRisk() returns (risk: Risk, avg: real)
      requires Valid()
      ensures avg == RecentMean(Entries(), 3)
      ensures risk == RiskOf(avg)
      ensures risk == Low <==> avg <= 30.0
      ensures risk == High <==> avg > 60.0
    {
      avg := AvgRecentScore(3);
      risk := RiskOf(avg);
    }
  }
}
