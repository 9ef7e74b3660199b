# Sleep quality recorder — a Dafny model of its store, file format and fatigue score

The program keeps up to 100 daily sleep records in memory. Each record holds a date, the hours
slept, a 1–10 quality rating, screen hours, caffeine in mg and a short note. The program:

- appends records typed at prompts;
- saves them to and loads them from a small CSV file;
- derives a fatigue score per day, the mean score of the most recent days, and a three-level
  next-day risk.

This project models that core in Dafny and proves what it promises.

- `optional.dfy`, module `Optional`: an `Option` type usable with `:-`, and `Scan`, a scanned
  value paired with the text that follows it.
- `entry.dfy`, module `Entry`: the record (`SleepEntry`), the buffer sizes of the source
  (`MaxEntries`, `DateLen`, `NoteLen`), and `NewEntry`. `NewEntry` normalises a new day as
  `add_entry` does: an empty date becomes `"unknown"` and quality is clamped to [1, 10].
- `scoring.dfy`, module `Scoring`: `compute_score` (`Score`), the mean of the last *n* scores
  (`RecentMean`), and `predict_risk`'s banding (`RiskOf`).
- `text.dfy`, module `Text`: the numeric text the file uses.
  - Writing: `%d` (`IntText`) and `%.2f` (`FixedText` of the value rounded to hundredths).
  - Reading: `sscanf`'s `%d` (`ScanInt`) and `%lf` (`ScanReal`), including their skipping of
    leading white space.
  - Round trips: reading back what was written gives the same integer, or the value rounded to
    hundredths.
- `codec.dfy`, module `Codec`: the CSV format.
  - Writing: the header line, the note made safe for the file (truncated to 63 characters,
    commas turned into semicolons), and the line written per record.
  - Reading: the line scanner of `load_db` (`DecodeLine`, the format
    `%11[^,],%lf,%d,%lf,%d,%63[^\n]` accepted when at least five fields match).
  - `LoadResult`: what a load keeps. Lines are decoded in order up to the first one that does
    not decode, and at most 100 are kept.
  - Round trip: saving and then loading gives the records back.
- `store.dfy`, module `Store`: class `SleepDB`, with the array of 100 records and `count` as
  fields.
  - Methods that change the store: `Append` (`add_entry`) and `Load` (`load_db`). `Load`
    writes decoded records into the array one by one, as the source does.
  - Methods that only read it: `Save` (`save_db`), `AvgRecentScore` (`avg_recent_score`) and
    `PredictRisk` (`predict_risk`).

Hours, screen time and the scores are exact `real`s rather than doubles. File access is a
parameter:

- `Load` receives `None` when the file cannot be opened, and otherwise the file's lines
  without their line breaks.
- `Save` receives whether the file could be opened for writing, and returns the lines it
  writes.

`Append` receives the answers to the prompts already parsed.

## Model

| member | source | states |
|---|---|---|
| Entry.NewEntry | code.c:105-112 | The date is never empty. A non-empty date is kept, and an empty one becomes "unknown". Quality lies in [1, 10] and is the value in that range nearest to the input. The other fields are unchanged. The entry fits the buffers when the inputs do. |
| Scoring.Score | code.c:72-82 | The score lies in [0, 100]. It equals the raw sum of the four penalties, or it is 0 when that sum is negative, or 100 when the sum is above 100. |
| Scoring.RestedDayScoresZero | code.c:74-78 | Eight hours, quality 10, no screen time and no caffeine score 0. |
| Scoring.WorkedExampleScore | code.c:74-78 | Five hours, quality 4, three screen hours and 200 mg caffeine score 50. |
| Scoring.UndersleepWeighsFiveTimesOversleep | code.c:74-75 | Each hour below eight adds 10 to the raw score, and each hour above eight adds 2. |
| Scoring.SumScores | code.c:88-89 | The sum of the scores of k entries lies in [0, 100·k]. |
| Scoring.SumScoresStep | code.c:89 | Adding the next entry's score extends the running sum over a window by one entry. |
| Scoring.RecentMean | code.c:85-91 | The mean of the last min(n, count) scores, and 0 for no entries, lies in [0, 100]. |
| Scoring.RecentMeanOfOne | code.c:86-90 | With one entry, the mean is that entry's score for every n ≥ 1. |
| Scoring.RecentMeanOfLastThree | code.c:94-95 | With at least three entries, the mean for n = 3 is the average of the last three scores. |
| Scoring.RiskOf | code.c:96-98 | Low exactly when the mean is ≤ 30. Moderate exactly when 30 < mean ≤ 60. High exactly when the mean is > 60. |
| Scoring.RiskMonotone | code.c:96-98 | A higher mean never gives a lower risk level. |
| Text.NatText | code.c:43-44 | The digits `%d` writes for a natural number: at least one, all decimal. |
| Text.NatTextValue | code.c:43-44 | The digits written for a natural number read back as that number. |
| Text.IntRoundTrip | code.c:43-60 | `%d` followed by a non-digit reads back, through the `%d` scanner, as the same integer. The following text is left unread. |
| Text.Hundredths | code.c:43-44 | A value rounded to hundredths lies within half a hundredth of the original. |
| Text.FixedRoundTrip | code.c:43-60 | `%.2f` output followed by neither a digit, a point nor an exponent letter `e`/`E` reads back, through the `%lf` scanner, as the value rounded to hundredths. The following text is left unread. |
| Codec.NoteForFileSpec | code.c:40-42 | The note as written has min(length, 63) characters and no comma. Each comma becomes a semicolon, and every other character is unchanged. |
| Codec.SanitiseNote | code.c:40-42 | Copying into the 63-character buffer and rewriting it in place gives exactly that note. |
| Codec.SaveLines | code.c:36-45 | A file has one line more than there are entries. The first line is the header, and line i + 1 encodes entry i. |
| Codec.SaveLinesSnoc | code.c:37-45 | Saving one more entry appends exactly its encoded line. |
| Codec.Span | code.c:60 | `%N[^c]` takes at most N characters. The result is a prefix of the input without the stop character, and it ends at the stop character or at the limit. |
| Codec.SpanOf | code.c:60 | A field free of the stop character and followed by that character is scanned whole. |
| Codec.DecodeLine | code.c:60-64 | A decoded entry has a date of 1..11 characters and a note of at most 63 characters. |
| Codec.LoadResult | code.c:57-67 | A load keeps at most 100 entries. |
| Codec.LoadResultSpec | code.c:57-66 | Every loaded entry is the decoding of the line at its position. When fewer than 100 were loaded and lines remain, the next line does not decode. |
| Codec.LoadStopsAtMalformed | code.c:62-66 | Nothing at or after the first line that does not decode is loaded. |
| Codec.LineRoundTrip | code.c:43-64 | For an entry whose date is 1..11 characters with no comma and no line break, and whose note has no line break, the saved line decodes. It gives the entry with hours and screen rounded to hundredths and the note as written. |
| Codec.SaveLoadRoundTrip | code.c:33-70 | Loading what was saved restores every such entry in order, up to that rounding and the note as written. |
| Codec.HeaderDoesNotDecode | code.c:36 | The header line save_db writes is not a record line: its hours field fails to scan. |
| Text.NotANumber | code.c:60 | `%lf` fails on text starting with anything other than white space, a sign, a digit, a point or a letter `i`, `I`, `n`, `N` that may begin `inf`, `infinity` or `nan`. |
| Codec.HoursNotANumber | code.c:60-62 | A line whose date field ends at a comma followed by text that cannot begin a number (nor `inf` or `nan`) scans fewer than five fields and does not decode. |
| Codec.CommaInDateSpoilsLine | code.c:43-62 | When a date holds exactly one comma, with at least one character before it and after it text that cannot begin a number (nor `inf` or `nan`), the line written for that entry does not decode. |
| Codec.CommasInDateShiftFields | code.c:43-64 | When the date is "p,k,m" with whole numbers k and m, the saved line decodes as a different entry. Its date is p, its hours k and its quality m. Its screen is the saved hours, its caffeine the saved quality, and its note the rest of the line cut at 63 characters. |
| Codec.ShiftedLine | code.c:60-64 | The line "p,k,m,h,q,t" decodes with date p, hours k, quality m, screen h / 100, caffeine q and the start of t as note. |
| Codec.DateOneTwoThree | code.c:43-64 | The date "1,2,3" reads back as date "1", hours 2 and quality 3. |
| Text.WholeRoundTrip | code.c:60 | `%lf` reads a whole number written without a point as that number, leaving the following text unread, when that text starts with neither a digit, a point, an exponent letter `e`/`E` nor a hexadecimal `x`/`X`. |
| Codec.CommaInDateCutsLoad | code.c:33-70 | Saving entries where entry j has such a date and loading the file back keeps at most j entries, so that entry and every later one are lost. |
| Codec.PrefixResultsTake | code.c:57-66 | Results collected while decoding succeeds, stopped at a failure, at the end of the lines or at the capacity, are exactly the loaded prefix. |
| Store.SleepDB.constructor | code.c:166-168 | A new store is empty and valid. |
| Store.SleepDB.Append | code.c:101-115 | A full store is refused and left unchanged. Otherwise the normalised entry is written at index count and count grows by one: the entries are the old ones plus the new one, and every other slot is unchanged. |
| Store.SleepDB.Save | code.c:33-48 | Writing fails exactly when the file cannot be opened. Otherwise the lines written are the header and then each entry's encoded line, with the note passed through the in-place rewrite. |
| Store.SleepDB.Load | code.c:50-70 | Without a file, or with an empty one, the store is unchanged and 0 is returned. Otherwise the entries become exactly the load result of the lines after the header. The count is returned, and slots beyond it are untouched. |
| Store.SleepDB.ReadLines | code.c:56-67 | The read loop, for any line decoder whose results fit the buffers. The entries become the successfully decoded prefix of the lines, cut at 100, and the store stays valid. |
| Store.SleepDB.AvgRecentScore | code.c:85-91 | Returns exactly the mean of the last min(n, count) scores, or 0 for an empty store. The result lies in [0, 100]. |
| Store.SleepDB.PredictRisk | code.c:94-99 | Returns the mean of the last three scores and its band: Low exactly when it is ≤ 30, High exactly when it is > 60. |

## Left out

- File and console I/O are not modelled (fopen, fgets, fprintf, perror, printf and the
  prompts of `read_line`). `Load` and `Save` take the file as a parameter instead.
- `atof` and `atoi` are not modelled. `Append` receives the prompts' answers already parsed.
- Typed input longer than a buffer is not modelled: what `fgets` leaves for the next prompt is
  out of scope. `Append` requires a date of at most 11 and a note of at most 63 characters,
  the most `read_line` can store.
- The menu, `list_entries` and `show_summary` are not modelled: they only print.
- `fgets` reads at most 255 characters into its 256-byte buffer, so it splits a file line of
  255 characters or more, not counting the line break, into several lines. The model receives
  whole lines.
- `%lf` is modelled only for an optional sign, digits and an optional fraction. Exponents,
  `inf`, `infinity`, `nan` and hexadecimal floats are not modelled: `Codec.DecodeLine` rejects a
  line whose hours or screen field is written that way, where C reads it. The lemmas about `%lf`
  (`Text.NotANumber`, `Text.WholeRoundTrip`, `Text.FixedRoundTrip` and the comma lemmas) are
  stated only for text on which the two readings agree.
- Codec.SaveLoadRoundTrip: holds in C only while every saved line is shorter than 255
  characters, not counting the line break. A longer line, for example one whose hours were typed
  as `1e250` and are written by `%.2f` as a 251-digit number, is split by `fgets` (code.c:57), and
  the load stops at the piece that does not decode.
- Text.FixedRoundTrip: doubles are exact reals here. `%.2f` rounds halves upward and writes
  "0.00" for small negative values, where C would round the binary value and may write "-0.00".
- Scoring.Score: `10 - quality` is computed exactly. In C it is `int` arithmetic, and a quality
  loaded through `%d` at or below INT_MIN + 10 overflows it, which is undefined behaviour. In
  practice it wraps, giving a large negative raw score and a score of 0, where the model gives
  a large positive raw score and 100.
- Codec.LineRoundTrip: holds only for dates without a comma. `save_db` writes the date as typed,
  so a comma in it splits the date field on reading.
  - With exactly one comma the line never decodes. `Codec.CommaInDateSpoilsLine` and
    `Codec.CommaInDateCutsLoad` prove this when the comma is followed by text that cannot begin a
    number, `inf` or `nan`: loading drops that entry and every later one.
  - When a number follows the one comma (as in "Jan 5, 2024"), the line also fails, at the
    quality field, because `%d` then meets the point of the saved hours. The model does not
    prove that case.
  - With two or more commas the line can load, with no error, as a different entry.
    `Codec.CommasInDateShiftFields` proves this for a date "p,k,m" with whole numbers k and m,
    and `Codec.DateOneTwoThree` instantiates it with "1,2,3".
- Text.ScanInt: `%d` of a value outside the `int` range is undefined behaviour in C. The model
  reads the unbounded integer.
- `Append` does not model integer overflow of `count` or of the quality. These values cannot
  exceed their buffers in the model.
- Scoring.RecentMean requires n ≥ 1. The source only calls `avg_recent_score` with n = 3, and
  its behaviour for n ≤ 0 is not modelled.
- Each Dafny character models one byte of the C string. The limits of 11 date characters and
  63 note characters are byte counts in C. Multi-byte (for example UTF-8) text, which `fgets`,
  `strncpy` and `%63[^\n]` may cut inside a character, is not modelled.
- An embedded NUL character in a note, which would end the C string early, is not modelled.
- A line break inside a typed date or note is not modelled. `read_line` removes the line break
  that ends the input.
