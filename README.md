# Suminoe race-card extractor, modelled in Dafny

`app.py` is a Streamlit page that looks up one race at the Suminoe boat-racing venue. It:

- fetches the race-card page and the pre-race inspection page;
- turns the race card into up to six competitor records;
- folds the inspection page into those records: exhibition times, approach-course order, weather, stabilizer;
- writes the records as a `|`-delimited table for a prompt to a text-completion service.

This project models the record building, the inspection fold and the table and course text. The input is an
abstract parse of the two pages, not HTML:

- A race-card row (`RaceCard.Row`) holds:
  - its text, with its strings concatenated (`get_text()`);
  - its text with the strings joined by one space (`get_text(separator=" ", strip=True)`);
  - the text of its name element, if the row has one;
  - for each cell, the strings the source gets by joining with `|` and splitting again.
- The inspection page (`Inspection.InfoPage`) holds its text, the text of its weather block if it has one, and
  its `table1` sections.
- Each section holds its text and its rows.
- Each row holds the text of each cell and the first class of its boat-colour image.

A failed fetch is an `Option` input that is `None`.

The regular expressions become string predicates in module `Patterns`, and `re.search` becomes a
leftmost search over them. Module layout:

- `Options`: the optional-value type.
- `Strings`: the Python string operations used (`in`, `replace(p, "")`, `join`, `split`, `str(n)`).
- `Patterns`: the regular expressions of `app.py`.
- `RaceCard`: the time-of-day bucket and building one record per race-card row (`app.py:29-32`, `app.py:46-74`).
- `Inspection`: stabilizer, weather, exhibition times and course order (`app.py:76-99`).
- `Extractor`: `get_full_race_data` as a whole, including its error returns (`app.py:35-100`).
- `Prompt`: the table text and course text of the button handler (`app.py:134-141`).

Behaviours of the code worth noting:

- The start timing is the last matching string of the cell: the loop over the strings has no `break`.
- When the inspection fetch fails, the weather is `-`, the course order is empty, the stabilizer is `-`, and the
  race-card records are returned as they were built.
- When the inspection page has no weather block, the weather is `不明`. When it has one but the block lacks a
  temperature or a wind speed, that part alone is `-`.
- The approach-course order is a list of lane tokens taken from image class names, not integers.

## Model

| member | source | states |
|---|---|---|
| `RaceCard.RaceTimeStatus` | app.py:29-32 | デイレース exactly for race numbers up to 4, 夕方 exactly for 5 to 7, ナイター exactly from 8 on |
| `RaceCard.CleanNameNoWideSpace` | app.py:50-51 | the name has no full-width space left and keeps every other character of the name element, counted with repetition; 不明 stands for a missing name element |
| `RaceCard.DecoratedNameShape` | app.py:52 | the cleaned name comes first, then the marks; ★ is present iff the row mentions 大阪; 【SS】 is present iff a listed top-tier name occurs in the cleaned name; ★ always precedes 【SS】 |
| `RaceCard.ClassGradeMeaning` | app.py:74 | a grade other than B2 has its marker in the row text, and no higher-ranked marker occurs in it (A1 > A2 > B1 > B2) |
| `RaceCard.GradePriority` | app.py:74 | a row mentioning both A1 and B2 is graded A1 |
| `RaceCard.WeightOfMeaning` | app.py:58-60 | the weight is `-` iff the spaced row text has no `ddkg`; otherwise it is the two digits of the leftmost `ddkg` |
| `RaceCard.RateOfMeaning` | app.py:64-67 | a rate is `-` iff the cell has no strings or its first string has no `d.dd`; otherwise it is the leftmost `d.dd` of the first string |
| `RaceCard.StartTimingMeaning` | app.py:61-63 | `-` iff no string of the cell starts with `0.dd`; otherwise it is such a string and no later string starts with `0.dd` (the last match wins) |
| `RaceCard.ScanStartTiming` | app.py:61-63 | the overwriting scan over the cell's strings yields `StartTimingOf` |
| `RaceCard.PercentRoundTrip` | app.py:72-73 | the percentage text written for a `dd.dd` token reads back to the token's exact value in hundredths |
| `RaceCard.MotorTextOf` | app.py:72-73 | the motor-rate text of a qualifying string is never `-` |
| `RaceCard.MotorTextInRange` | app.py:68-73 | the motor-rate text of a qualifying string reads back to a value in [10.00, 99.90] |
| `RaceCard.MotorRateFirst` | app.py:68-73 | the motor rate is `-` iff no string's first `dd.dd` lies in [10.00, 99.90]; otherwise it is the text of the first such string |
| `RaceCard.MotorRateInRange` | app.py:68-73 | a motor rate other than `-` reads back to a value in [10.00, 99.90] |
| `RaceCard.ScanMotor` | app.py:68-73 | the scan that stops at the first in-range string yields `MotorRateOf` |
| `RaceCard.RecordFields` | app.py:48-74 | record `i` has lane `i + 1`; it is absent iff the row text contains 欠場; its exhibition time is `-`; an absent row or one with fewer than 7 cells keeps weight, both rates, motor rate and start timing at `-` |
| `RaceCard.BuildRecord` | app.py:48-74 | the field-by-field construction yields `RecordOf` |
| `RaceCard.RecordsUpTo` | app.py:47 | the first `n` rows give `n` records |
| `RaceCard.RecordAt` | app.py:47-74 | record `i` of the first `n` is the record of row `i`, whatever rows follow |
| `RaceCard.AppendRecord` | app.py:47-74 | one pass of the loop turns the records of the first `i` rows into the records of the first `i + 1` rows |
| `RaceCard.ExtractRecords` | app.py:46-74 | the appending loop over the first six rows yields `CardRecords`: record `i` comes from row `i`, absent rows included |
| `Strings.RemoveAll` | app.py:51 | `replace(p, "")` never lengthens a string; with a one-character pattern no such character remains |
| `Strings.RemoveAllChar` | app.py:51 | deleting a one-character pattern removes every copy of it and keeps every other character, counted with repetition |
| `Strings.RemoveAllCharAppend` | app.py:51 | deleting a one-character pattern works piece by piece over a concatenation, so the kept characters stay in order |
| `Strings.StripPrefix` | app.py:98 | deleting a pattern from `pattern + rest` gives `rest` when `rest` does not contain the pattern |
| `Strings.SplitTerminated` | app.py:138-141 | splitting parts that each end in a separator character they lack gives back the parts, then an empty rest |
| `Strings.SplitJoin` | app.py:135 | joining non-empty lists with a separator character the parts lack, then splitting at that character, gives back the list |
| `Strings.NatToString` | app.py:141 | `str(n)` consists of decimal digits, with no leading zero |
| `Strings.NatToStringRoundTrip` | app.py:141 | the digits `str(n)` writes read back to `n` |
| `Patterns.TemperatureGroupEnd` | app.py:84 | a temperature match's group ends after its first character |
| `Patterns.TemperatureSplitGroup` | app.py:84 | whichever way `(\d+\.?\d*)\s*℃` matches at a position (digits, optional point, digits, spaces, ℃), the greedy reading succeeds there with the same group end |
| `Patterns.TemperatureGreedySplit` | app.py:84 | when the greedy reading succeeds, it is a match of that pattern, with the group it reports |
| `Patterns.LazyWind` | app.py:84 | the lazy wind search finds the first `\d+m` reachable without crossing a newline, and finds none only if there is none |
| `Patterns.Search` | app.py:65 | `re.search` gives the leftmost matching position, and none only when no position matches |
| `Patterns.FirstGroupMeaning` | app.py:59-60 | `re.search(...).group(1)` is None iff no position matches; otherwise it is the group of the leftmost match |
| `Inspection.Stabilizer` | app.py:79 | あり iff the page text contains 安定板使用, otherwise なし |
| `Inspection.TemperatureGroupShape` | app.py:84 | a temperature group begins with a digit and holds only digits and decimal points |
| `Inspection.TemperaturePart` | app.py:84-85 | `-` iff the weather text has no temperature match; otherwise digits and points followed by ℃ |
| `Inspection.TemperaturePartGroup` | app.py:84-85 | the temperature part is `-` iff the temperature search finds nothing; otherwise it is the leftmost match's group followed by ℃ |
| `Inspection.WindGroupShape` | app.py:84 | a wind group is at least one digit followed by `m` |
| `Inspection.WindPart` | app.py:84-85 | `-` iff the weather text has no wind match; otherwise digits followed by `m` |
| `Inspection.WindPartGroup` | app.py:84-85 | the wind part is `-` iff the wind search finds nothing; otherwise it is the leftmost match's group |
| `Inspection.WeatherSummary` | app.py:80-85 | 不明 without a weather block; otherwise the first temperature group with ℃ (or `-` when none), ` / `, then the first wind group (or `-` when none) |
| `Inspection.ExhibitionUpTo` | app.py:90-94 | after the first `n` rows only record `i < n` can change, only its exhibition time, and only when `i` < 6 and `i` < the record count, row `i` has at least 6 cells and its cell 4 starts with `d.dd`; the record count is unchanged |
| `Inspection.ApplyExhibition` | app.py:90-94 | the in-place writing loop over the first six rows yields `ExhibitionUpTo` over every row |
| `Inspection.CourseTokenOfLane` | app.py:98 | the class `is-boatColor` + lane gives the lane token |
| `Inspection.CourseTokens` | app.py:96-98 | never more tokens than rows; when every row has a boat image, token `k` is row `k`'s class with the prefix removed |
| `Inspection.CourseTokensOne` | app.py:97-98 | a row with a boat image gives exactly its class with the prefix removed; a row without one gives no token |
| `Inspection.CourseTokensAppend` | app.py:96-98 | the tokens of consecutive rows are those of the first rows followed by those of the rest, so the tokens of any rows are those of each row with an image, in row order |
| `Inspection.CollectCourse` | app.py:96-98 | the appending loop adds exactly `CourseTokens` to the course list |
| `Inspection.ReadTables` | app.py:86-98 | the loop over the sections yields the exhibition-time fold and the concatenated course tokens of the start-exhibition sections |
| `Inspection.TablesTenjiOnlyTenji` | app.py:88-94 | the fold keeps the record count and every field except the exhibition time; each exhibition time is the old one or a cell text starting with `d.dd` |
| `Inspection.TablesTenjiUnchanged` | app.py:88-89 | without a section mentioning 展示タイム the records are unchanged |
| `Extractor.GetFullRaceData` | app.py:35-100 | a failed race-card fetch gives (None, エラー, [], -); no rows gives (None, データなし, [], -); a failed inspection fetch gives the race-card records unchanged with -, [], -; otherwise the folded records, weather summary, course tokens and stabilizer |
| `Extractor.ExtractedRecords` | app.py:47-98 | the final records number the lesser of 6 and the row count; record `i` is in lane `i + 1` and equals what row `i` gave, apart from an exhibition time that is `-` or a cell text starting with `d.dd`; absent or short rows keep every performance field at `-` |
| `Prompt.BuildTable` | app.py:138-141 | the accumulating loop yields `TableText` |
| `Prompt.Present` | app.py:140 | a record is kept iff it is one of the records and not absent |
| `Prompt.TableTextIsLines` | app.py:138-141 | the table text is the line bodies of the non-absent records, in record order, each followed by a line break |
| `Prompt.TableLines` | app.py:138-141 | when no field of a competitor who starts holds a line break, splitting the table at line breaks gives exactly one line body per non-absent record, in order, then an empty rest |
| `Prompt.PresentInLaneOrder` | app.py:139-141 | dropping absent records keeps increasing lanes increasing |
| `Prompt.ExtractedTableInLaneOrder` | app.py:139-141 | the table records of an extracted race have strictly increasing lanes between 1 and 6 |
| `Prompt.CourseTextTokens` | app.py:135 | no lane tokens give 枠なり; otherwise the course text splits at → back into exactly the tokens |
| `Prompt.PrepareRace` | app.py:134-141 | nothing is prepared iff there are no records; otherwise the course text and the table text |

## Left out

- Page setup, CSS, widgets, status and spinner, result panels and the data table display (`app.py:11-21`, `app.py:105-133`, `app.py:163-187`): user interface.
- The API-key check (`app.py:122-125`): it reads the environment.
- The completion-service call, the model name and the prompt template's wording (`app.py:143-175`): an external service and opaque text. The model does not build the `【条件】` line.
- URL construction, `requests.get`, `apparent_encoding` and the transport `try/except` (`app.py:36-42`, `app.py:76-77`): network I/O. A failed fetch is a `None` input.
- BeautifulSoup's `find_all`, `find` and `get_text`: a foreign library. The abstract rows, cells and strings stand for their results. That includes which image the class filter picks and which element is the weather block.
- `@st.cache_data(ttl=300)` (`app.py:34`): a library decorator and the wall clock.
- An exception raised in the middle of the inspection `try` block, after exhibition times were already written. Only a failed fetch is modelled, and it precedes every write.
- `Strings.IsDigit`: `\d` is modelled as an ASCII digit only, so the model does not capture Python's other Unicode decimal digits, such as full-width digits, which `re` and `float` also accept.
- `RaceCard.PercentText`: writes Python's `repr` of `float(dd.dd)` out by hand, with no general float formatting. For a two-decimal value, that repr is the value without a leading zero and without a trailing second-decimal zero.
- `Strings.RemoveAll`: requires a non-empty pattern. Python's `replace` with an empty pattern inserts text instead, and the source never does that.
