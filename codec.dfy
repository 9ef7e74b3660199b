/** The flat-file format of the store: one header line, then one comma-separated line per entry.
    Lines are handled without their terminating newline. */
module Codec {
  import opened Optional
  import opened Entry
  import opened Text

  /** The header line: "date,hours,quality,screen,caffeine,note". */
  const Header: string := "date" + ("," + HeaderTail)
  const HeaderTail: string := "hours,quality,screen,caffeine,note"

  // ---------------------------------------------------------------- writing

  function SafeChar(c: char): char {
    if c == ',' then ';' else c
  }

  /** s with every comma replaced by a semicolon. */
  function Sanitised(s: string): string {
    if s == [] then [] else Sanitised(s[..|s| - 1]) + [SafeChar(s[|s| - 1])]
  }

  lemma {:induction false} SanitisedAt(s: string, i: nat)
    requires i < |s|
    ensures |Sanitised(s)| == |s|
    ensures Sanitised(s)[i] == SafeChar(s[i])
  {
    if i < |s| - 1 {
      SanitisedAt(s[..|s| - 1], i);
    } else if |s| > 1 {
      SanitisedAt(s[..|s| - 1], 0);
    }
  }

  lemma SanitisedStep(t: string, p: nat)
    requires p < |t|
    ensures Sanitised(t[..p + 1]) == Sanitised(t[..p]) + [SafeChar(t[p])]
  {
    assert t[..p + 1][..p] == t[..p];
  }

  /** The first NoteLen - 1 characters of a note. */
  function Truncated(note: string): string {
    if |note| <= NoteLen - 1 then note else note[..NoteLen - 1]
  }

  /** The note as the file holds it: at most NoteLen - 1 characters, no comma, every other
      character as it was. */
  function NoteForFile(note: string): string {
    Sanitised(Truncated(note))
  }

  lemma NoteForFileSpec(note: string)
    ensures |NoteForFile(note)| == if |note| <= NoteLen - 1 then |note| else NoteLen - 1
    ensures ',' !in NoteForFile(note)
    ensures forall i :: 0 <= i < |NoteForFile(note)| ==>
              (note[i] == ',' ==> NoteForFile(note)[i] == ';') && (note[i] != ',' ==> NoteForFile(note)[i] == note[i])
  {
    var t := Truncated(note);
    if t == [] {
    } else {
      SanitisedAt(t, 0);
      forall i | 0 <= i < |t|
        ensures NoteForFile(note)[i] == SafeChar(note[i])
      {
        SanitisedAt(t, i);
      }
    }
  }

  /** save_db's note_safe: the note copied into a buffer of NoteLen - 1 characters and
      rewritten in place, comma by comma. */
  method SanitiseNote(note: string) returns (safe: string)
    ensures safe == NoteForFile(note)
  {
    var len := if |note| <= NoteLen - 1 then |note| else NoteLen - 1;
    var buf := new char[len](i requires 0 <= i < len => note[i]);
    ghost var t := Truncated(note);
    assert buf[..] == t;
    var p := 0;
    while p < len
      invariant 0 <= p <= len
      invariant buf[..p] == Sanitised(t[..p])
      invariant forall j :: p <= j < len ==> buf[j] == t[j]
    {
      SanitisedStep(t, p);
      if buf[p] == ',' {
        buf[p] := ';';
      }
      assert buf[..p + 1] == buf[..p] + [buf[p]];
      p := p + 1;
    }
    assert t[..len] == t;
    safe := buf[..];
  }

  /** The line save_db prints for e, given the note text it prints. */
  function FormatLine(e: SleepEntry, note: string): string {
    e.date + "," + FixedText(RoundHundredths(e.hours)) + "," + IntText(e.quality) + ","
    + FixedText(RoundHundredths(e.screen)) + "," + IntText(e.caffeine) + "," + note
  }

  function EncodeLine(e: SleepEntry): string {
    FormatLine(e, NoteForFile(e.note))
  }

  /** f applied to every element of xs, in order. */
  function Map<A, B>(xs: seq<A>, f: A -> B): (ys: seq<B>)
    ensures |ys| == |xs| && forall i :: 0 <= i < |xs| ==> ys[i] == f(xs[i])
  {
    seq(|xs|, i requires 0 <= i < |xs| => f(xs[i]))
  }

  /** Everything save_db writes for the given entries. */
  function SaveLines(es: seq<SleepEntry>): (lines: seq<string>)
    ensures |lines| == |es| + 1 && lines[0] == Header
    ensures forall i :: 0 <= i < |es| ==> lines[i + 1] == EncodeLine(es[i])
  {
    var body := Map(es, EncodeLine);
    assert forall i :: 0 <= i < |es| ==> ([Header] + body)[i + 1] == body[i];
    [Header] + body
  }

  lemma SaveLinesSnoc(es: seq<SleepEntry>, e: SleepEntry)
    ensures SaveLines(es + [e]) == SaveLines(es) + [EncodeLine(e)]
  {
    var a, b := SaveLines(es + [e]), SaveLines(es) + [EncodeLine(e)];
    assert |a| == |b|;
    forall i | 0 <= i < |a|
      ensures a[i] == b[i]
    {
      if 0 < i <= |es| {
        assert (es + [e])[i - 1] == es[i - 1];
      }
    }
  }

  // ---------------------------------------------------------------- reading

  /** sscanf's %N[^c]: the longest prefix of s, of at most max characters, without the stop character. */
  function Span(s: string, stop: char, max: nat): (r: string)
    ensures |r| <= max && |r| <= |s| && r == s[..|r|] && stop !in r
    ensures |r| < max && |r| < |s| ==> s[|r|] == stop
  {
    if max == 0 || s == [] || s[0] == stop then [] else [s[0]] + Span(s[1..], stop, max - 1)
  }

  lemma {:induction false} SpanOf(p: string, rest: string, stop: char, max: nat)
    requires stop !in p && |p| <= max
    requires rest == [] || rest[0] == stop
    ensures Span(p + rest, stop, max) == p
  {
    if p == [] {
      assert p + rest == rest;
    } else {
      assert (p + rest)[1..] == p[1..] + rest;
      SpanOf(p[1..], rest, stop, max - 1);
    }
  }

  /** A literal character of the format. */
  function Literal(c: char, s: string): Option<string> {
    if s != [] && s[0] == c then Some(s[1..]) else None
  }

  /** %11[^,]: one to DateLen - 1 characters up to the first comma. */
  function ScanDate(s: string): Option<Scan<string>> {
    var d := Span(s, ',', DateLen - 1);
    if d == [] then None else Some(Scan(d, s[|d|..]))
  }

  /** The note after the caffeine field: empty when the comma or the text after it is missing
      (sscanf matched five fields), otherwise up to NoteLen - 1 characters before the end of line. */
  function ScanNote(s: string): string {
    if s != [] && s[0] == ',' then Span(s[1..], '\n', NoteLen - 1) else []
  }

  /** load_db's sscanf of one line: an entry when at least the first five fields match. */
  function DecodeLine(line: string): (r: Option<SleepEntry>)
    ensures r.Some? ==> Fits(r.value)
  {
    var date :- ScanDate(line);
    var s1 :- Literal(',', date.rest);
    var hours :- ScanReal(s1);
    var s2 :- Literal(',', hours.rest);
    var quality :- ScanInt(s2);
    var s3 :- Literal(',', quality.rest);
    var screen :- ScanReal(s3);
    var s4 :- Literal(',', screen.rest);
    var caffeine :- ScanInt(s4);
    Some(SleepEntry(date.value, hours.value, quality.value, screen.value, caffeine.value, ScanNote(caffeine.rest)))
  }

  /** The results of f on the longest prefix of xs on which f succeeds. */
  function PrefixResults<A, B>(xs: seq<A>, f: A -> Option<B>): (ys: seq<B>)
    ensures |ys| <= |xs|
  {
    if xs == [] then []
    else match f(xs[0])
      case None => []
      case Some(y) => [y] + PrefixResults(xs[1..], f)
  }

  /** The entries of the longest prefix of lines that all decode. */
  function DecodedPrefix(lines: seq<string>): seq<SleepEntry> {
    PrefixResults(lines, DecodeLine)
  }

  function Take<T>(s: seq<T>, n: nat): (r: seq<T>)
    ensures |r| <= n && r <= s
    ensures |s| <= n ==> r == s
  {
    if |s| <= n then s else s[..n]
  }

  /** What load_db stores for the lines after the header: decoded lines in file order, up to
      the first line that does not decode, and at most MaxEntries of them. */
  function LoadResult(body: seq<string>): (es: seq<SleepEntry>)
    ensures |es| <= MaxEntries
  {
    Take(DecodedPrefix(body), MaxEntries)
  }

  // ---------------------------------------------------------------- properties

  /** PrefixResults is exactly the successful prefix: f succeeds on every element of it with
      the result recorded, and fails on the element right after it, if any. */
  lemma {:induction false} PrefixResultsSpec<A, B>(xs: seq<A>, f: A -> Option<B>)
    ensures forall i :: 0 <= i < |PrefixResults(xs, f)| ==> f(xs[i]) == Some(PrefixResults(xs, f)[i])
    ensures |PrefixResults(xs, f)| < |xs| ==> f(xs[|PrefixResults(xs, f)|]).None?
  {
    if xs != [] && f(xs[0]).Some? {
      PrefixResultsSpec(xs[1..], f);
    }
  }

  /** An entry whose saved line reads back: its date is one to DateLen - 1 characters with no
      comma, and neither its date nor its note holds a line break. */
  predicate Saveable(e: SleepEntry) {
    1 <= |e.date| <= DateLen - 1 && ',' !in e.date && '\n' !in e.date && '\n' !in e.note
  }

  /** The entry that load_db reads back from the line save_db writes for e: hours and screen
      rounded to hundredths, the note truncated and its commas turned into semicolons. */
  function Saved(e: SleepEntry): SleepEntry {
    e.(hours := Hundredths(e.hours), screen := Hundredths(e.screen), note := NoteForFile(e.note))
  }

  lemma NoteForFileHasNoBreak(note: string)
    requires '\n' !in note
    ensures '\n' !in NoteForFile(note) && |NoteForFile(note)| <= NoteLen - 1
  {
    NoteForFileSpec(note);
  }

  lemma ScanDateOf(date: string, rest: string)
    requires 1 <= |date| <= DateLen - 1 && ',' !in date
    ensures ScanDate(date + ("," + rest)) == Some(Scan(date, "," + rest))
  {
    SpanOf(date, "," + rest, ',', DateLen - 1);
    assert (date + ("," + rest))[|date|..] == "," + rest;
  }

  lemma ScanNoteOf(note: string)
    requires '\n' !in note && |note| <= NoteLen - 1
    ensures ScanNote("," + note) == note
  {
    assert ("," + note)[1..] == note;
    SpanOf(note, [], '\n', NoteLen - 1);
    assert note + [] == note;
  }

  /** DecodeLine succeeds when its nine scanning steps do, one after another. */
  lemma DecodeLineOf(line: string, date: Scan<string>, t2: string, hours: Scan<real>, t3: string,
                     quality: Scan<int>, t4: string, screen: Scan<real>, t5: string, caffeine: Scan<int>)
    requires ScanDate(line) == Some(date) && Literal(',', date.rest) == Some(t2)
    requires ScanReal(t2) == Some(hours) && Literal(',', hours.rest) == Some(t3)
    requires ScanInt(t3) == Some(quality) && Literal(',', quality.rest) == Some(t4)
    requires ScanReal(t4) == Some(screen) && Literal(',', screen.rest) == Some(t5)
    requires ScanInt(t5) == Some(caffeine)
    ensures DecodeLine(line)
      == Some(SleepEntry(date.value, hours.value, quality.value, screen.value, caffeine.value, ScanNote(caffeine.rest)))
  {
  }

  lemma Regroup(a: string, b: string, c: string, d: string, e: string, f: string, sep: string)
    ensures a + sep + b + sep + c + sep + d + sep + e + sep + f
         == a + (sep + (b + (sep + (c + (sep + (d + (sep + (e + (sep + f)))))))))
  {
  }

  lemma EncodeLineShape(e: SleepEntry, note: string)
    ensures FormatLine(e, note)
      == e.date + ("," + (FixedText(RoundHundredths(e.hours)) + ("," + (IntText(e.quality) + ("," +
         (FixedText(RoundHundredths(e.screen)) + ("," + (IntText(e.caffeine) + ("," + note)))))))))
  {
    Regroup(e.date, FixedText(RoundHundredths(e.hours)), IntText(e.quality),
            FixedText(RoundHundredths(e.screen)), IntText(e.caffeine), note, ",");
  }

  /** Decoding the line save_db writes for a saveable entry gives back the entry with hours and
      screen rounded to hundredths and the note as written; an empty note reads back empty. */
  lemma LineRoundTrip(e: SleepEntry)
    requires Saveable(e)
    ensures DecodeLine(EncodeLine(e)) == Some(Saved(e))
  {
    var note := NoteForFile(e.note);
    NoteForFileHasNoBreak(e.note);
    var kh, ks := RoundHundredths(e.hours), RoundHundredths(e.screen);
    var r5 := "," + note;
    var t5 := IntText(e.caffeine) + r5;
    var r4 := "," + t5;
    var t4 := FixedText(ks) + r4;
    var r3 := "," + t4;
    var t3 := IntText(e.quality) + r3;
    var r2 := "," + t3;
    var t2 := FixedText(kh) + r2;
    var r1 := "," + t2;
    EncodeLineShape(e, note);
    assert EncodeLine(e) == e.date + r1;
    ScanDateOf(e.date, t2);
    assert r1[1..] == t2 && r2[1..] == t3 && r3[1..] == t4 && r4[1..] == t5;
    FixedRoundTrip(kh, r2);
    IntRoundTrip(e.quality, r3);
    FixedRoundTrip(ks, r4);
    IntRoundTrip(e.caffeine, r5);
    ScanNoteOf(note);
    DecodeLineOf(e.date + r1, Scan(e.date, r1), t2, Scan(Cents(kh), r2), t3, Scan(e.quality, r3), t4,
                 Scan(Cents(ks), r4), t5, Scan(e.caffeine, r5));
  }

  /** One step of PrefixResults from position j. */
  lemma PrefixResultsFrom<A, B>(xs: seq<A>, f: A -> Option<B>, j: nat)
    requires j < |xs|
    ensures f(xs[j]).None? ==> PrefixResults(xs[j..], f) == []
    ensures f(xs[j]).Some? ==> PrefixResults(xs[j..], f) == [f(xs[j]).value] + PrefixResults(xs[j + 1..], f)
  {
    assert xs[j..][1..] == xs[j + 1..];
  }

  /** When f succeeds on the first |done| elements of xs with the results done, PrefixResults
      continues from there. */
  lemma {:induction false} PrefixResultsOf<A, B>(done: seq<B>, xs: seq<A>, f: A -> Option<B>)
    requires |done| <= |xs|
    requires forall k :: 0 <= k < |done| ==> f(xs[k]) == Some(done[k])
    ensures PrefixResults(xs, f) == done + PrefixResults(xs[|done|..], f)
  {
    if done == [] {
      assert xs[0..] == xs;
    } else {
      assert f(xs[0]) == Some(done[0]);
      PrefixResultsOf(done[1..], xs[1..], f);
      assert xs[1..][|done| - 1..] == xs[|done|..];
      assert done == [done[0]] + done[1..];
    }
  }

  /** Results collected while f succeeded, stopped at a failure, at the end of xs, or after n
      results, are the successful prefix cut to n. */
  lemma PrefixResultsTake<A, B>(done: seq<B>, xs: seq<A>, f: A -> Option<B>, n: nat)
    requires |done| <= n && |done| <= |xs|
    requires forall k :: 0 <= k < |done| ==> f(xs[k]) == Some(done[k])
    requires |done| == n || |done| == |xs| || f(xs[|done|]).None?
    ensures done == Take(PrefixResults(xs, f), n)
  {
    PrefixResultsOf(done, xs, f);
    if |done| < n {
      if |done| == |xs| {
        assert xs[|done|..] == [];
      } else {
        PrefixResultsFrom(xs, f, |done|);
      }
      assert done + [] == done;
    }
  }

  lemma {:induction false} PrefixResultsAll<A, B>(xs: seq<A>, f: A -> Option<B>, ys: seq<B>)
    requires |xs| == |ys|
    requires forall i :: 0 <= i < |xs| ==> f(xs[i]) == Some(ys[i])
    ensures PrefixResults(xs, f) == ys
  {
    if xs != [] {
      assert f(xs[0]) == Some(ys[0]);
      PrefixResultsAll(xs[1..], f, ys[1..]);
      assert ys == [ys[0]] + ys[1..];
    }
  }

  /** Saving a store of saveable entries and loading the file back restores every entry, in
      order, with hours and screen rounded to hundredths and notes as written to the file. */
  lemma SaveLoadRoundTrip(es: seq<SleepEntry>)
    requires |es| <= MaxEntries
    requires forall i :: 0 <= i < |es| ==> Saveable(es[i])
    ensures LoadResult(SaveLines(es)[1..]) == seq(|es|, i requires 0 <= i < |es| => Saved(es[i]))
  {
    var body := SaveLines(es)[1..];
    var back := seq(|es|, i requires 0 <= i < |es| => Saved(es[i]));
    forall i | 0 <= i < |es|
      ensures DecodeLine(body[i]) == Some(back[i])
    {
      LineRoundTrip(es[i]);
    }
    PrefixResultsAll(body, DecodeLine, back);
  }

  /** Loading stops at the first line that does not decode: no entry at or after it is loaded,
      however many well-formed lines follow. */
  lemma LoadStopsAtMalformed(body: seq<string>, j: nat)
    requires j < |body| && DecodeLine(body[j]).None?
    ensures |LoadResult(body)| <= j
  {
    PrefixResultsSpec(body, DecodeLine);
  }

  /** Every loaded entry is the decoding of the line at its position; when fewer than
      MaxEntries were loaded and lines remain, the next line does not decode. */
  lemma LoadResultSpec(body: seq<string>)
    ensures forall i :: 0 <= i < |LoadResult(body)| ==> DecodeLine(body[i]) == Some(LoadResult(body)[i])
    ensures |LoadResult(body)| < MaxEntries && |LoadResult(body)| < |body| ==> DecodeLine(body[|LoadResult(body)|]).None?
  {
    PrefixResultsSpec(body, DecodeLine);
  }

  lemma HoursMissing(line: string, date: Scan<string>, t2: string)
    requires ScanDate(line) == Some(date) && Literal(',', date.rest) == Some(t2)
    requires ScanReal(t2).None?
    ensures DecodeLine(line).None?
  {
  }

  /**
   * save_db writes the date as typed, so a date holding a comma splits its field: the scan of
   * the date stops at the comma, and when the text after it is not a number the hours field
   * fails and the line does not decode.
   */
  lemma CommaInDateSpoilsLine(e: SleepEntry, p: string, q: string)
    requires e.date == p + [','] + q && p != [] && ',' !in p && |e.date| <= DateLen - 1
    requires q != [] && !IsSpace(q[0]) && !IsDigit(q[0]) && q[0] != '+' && q[0] != '-' && q[0] != '.'
    requires q[0] !in "iInN" && ',' !in q
    ensures DecodeLine(EncodeLine(e)).None?
  {
    var note := NoteForFile(e.note);
    EncodeLineShape(e, note);
    var t2 := FixedText(RoundHundredths(e.hours)) + ("," + (IntText(e.quality) + ("," +
              (FixedText(RoundHundredths(e.screen)) + ("," + (IntText(e.caffeine) + ("," + note)))))));
    CommaSplit(p, q, t2);
    HoursNotANumber(EncodeLine(e), p, q + ("," + t2));
  }

  lemma CommaSplit(p: string, q: string, t: string)
    ensures p + [','] + q + ("," + t) == p + ("," + (q + ("," + t)))
  {
  }

  /** A line whose date field ends at a comma followed by text that is not a number does not decode. */
  lemma HoursNotANumber(line: string, p: string, u: string)
    requires line == p + ("," + u) && p != [] && ',' !in p && |p| <= DateLen - 1
    requires u != [] && !IsSpace(u[0]) && !IsDigit(u[0]) && u[0] != '+' && u[0] != '-' && u[0] != '.'
    requires u[0] !in "iInN"
    ensures DecodeLine(line).None?
  {
    ScanDateOf(p, u);
    assert ("," + u)[1..] == u;
    NotANumber(u);
    HoursMissing(line, Scan(p, "," + u), u);
  }

  lemma CommasSplit(p: string, x: string, y: string, t: string)
    ensures p + [','] + x + [','] + y + t == p + ("," + (x + ("," + (y + t))))
  {
  }

  /**
   * With two commas in the date, the line can decode as a different entry: for a date
   * "p,k,m" with whole numbers k and m, the date reads as p, the hours as k and the quality
   * as m, then the saved hours land in the screen field, the saved quality in the caffeine
   * field, and the rest of the line in the note.
   */
  lemma CommasInDateShiftFields(e: SleepEntry, p: string, k: nat, m: int)
    requires e.date == p + [','] + NatText(k) + [','] + IntText(m)
    requires p != [] && ',' !in p && |e.date| <= DateLen - 1
    ensures DecodeLine(EncodeLine(e))
      == Some(SleepEntry(p, k as real, m, Hundredths(e.hours), e.quality,
                         Span(FixedText(RoundHundredths(e.screen)) + ("," + (IntText(e.caffeine) + ("," + NoteForFile(e.note)))),
                              '\n', NoteLen - 1)))
  {
    var note := NoteForFile(e.note);
    var t4 := FixedText(RoundHundredths(e.screen)) + ("," + (IntText(e.caffeine) + ("," + note)));
    var r1 := "," + (FixedText(RoundHundredths(e.hours)) + ("," + (IntText(e.quality) + ("," + t4))));
    EncodeLineShape(e, note);
    CommasSplit(p, NatText(k), IntText(m), r1);
    ShiftedLine(p, k, m, RoundHundredths(e.hours), e.quality, t4);
  }

  /** The line "p,k,m,h,q,t" decodes with date p, hours k, quality m, screen h, caffeine q and
      the start of t as note. */
  lemma ShiftedLine(p: string, k: nat, m: int, h: int, q: int, t: string)
    requires p != [] && ',' !in p && |p| <= DateLen - 1
    ensures DecodeLine(p + ("," + (NatText(k) + ("," + (IntText(m) + ("," + (FixedText(h) + ("," + (IntText(q) + ("," + t))))))))))
         == Some(SleepEntry(p, k as real, m, Cents(h), q, Span(t, '\n', NoteLen - 1)))
  {
    var r3 := "," + t;
    var t3 := IntText(q) + r3;
    var r2 := "," + t3;
    var t2 := FixedText(h) + r2;
    var r1 := "," + t2;
    var a := IntText(m) + r1;
    var b := NatText(k) + ("," + a);
    var line := p + ("," + b);
    ScanDateOf(p, b);
    assert ("," + b)[1..] == b && ("," + a)[1..] == a;
    assert r1[1..] == t2 && r2[1..] == t3 && r3[1..] == t;
    WholeRoundTrip(k, "," + a);
    IntRoundTrip(m, r1);
    FixedRoundTrip(h, r2);
    IntRoundTrip(q, r3);
    DecodeLineOf(line, Scan(p, "," + b), b, Scan(k as real, "," + a), a, Scan(m, r1), t2,
                 Scan(Cents(h), r2), t3, Scan(q, r3));
  }

  /** The date "1,2,3" reads back as date "1", hours 2 and quality 3. */
  lemma DateOneTwoThree(e: SleepEntry)
    requires e.date == "1,2,3"
    ensures DecodeLine(EncodeLine(e)).Some?
    ensures DecodeLine(EncodeLine(e)).value.date == "1"
    ensures DecodeLine(EncodeLine(e)).value.hours == 2.0
    ensures DecodeLine(EncodeLine(e)).value.quality == 3
  {
    assert NatText(2) == "2" && IntText(3) == "3";
    CommasInDateShiftFields(e, "1", 2, 3);
  }

  /** Saving a store where entry j has such a date and loading the file back keeps at most the
      j entries before it: that entry and every later one are lost. */
  lemma CommaInDateCutsLoad(es: seq<SleepEntry>, j: nat, p: string, q: string)
    requires j < |es|
    requires es[j].date == p + [','] + q && p != [] && ',' !in p && |es[j].date| <= DateLen - 1
    requires q != [] && !IsSpace(q[0]) && !IsDigit(q[0]) && q[0] != '+' && q[0] != '-' && q[0] != '.'
    requires q[0] !in "iInN" && ',' !in q
    ensures |LoadResult(SaveLines(es)[1..])| <= j
  {
    var body := SaveLines(es)[1..];
    assert body[j] == EncodeLine(es[j]);
    CommaInDateSpoilsLine(es[j], p, q);
    LoadStopsAtMalformed(body, j);
  }

  /** The header line save_db writes is not a record line: read as one, its hours field fails.
      load_db skips the first line without scanning it. */
  lemma HeaderDoesNotDecode()
    ensures DecodeLine(Header).None?
  {
    HoursNotANumber(Header, "date", HeaderTail);
  }
}
