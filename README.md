# Google Maps listing extractor: harvesting core in Dafny

This project models the harvesting logic of `GoogleMapsExtractor` in
`google_maps_scraper.py` and proves what that logic promises. Every browser call
is replaced by the value it returns, so the model takes plain data as input.

- **Scroll controller** (`Scroll.dfy`, `scroll_and_load`). The loop keeps three
  variables: the last `scrollHeight`, a stagnation counter `scroll_attempts` and
  the place-anchor count `loaded_results`. The browser's answers are given as a
  finite sequence of rounds. In each round the height read either raises, or it
  returns a height, an anchor count (which may itself raise) and the outcome of
  the best-effort "Show more results" click. `ScrollAndLoad` is the imperative
  loop. It is proved equal to the function `LoadFeed`, and the lemmas are stated
  about `LoadFeed`.
  - The counter resets to 0 whenever the height changes, and the loop breaks once
    it reaches 3. So the `scroll_attempts < max_scroll_attempts` (20) guard never
    ends the loop (`LoadFeedFacts`).
  - `max_scroll_attempts = 20` looks like a cap on rounds. It caps nothing: the
    counter it bounds is reset on every height change and ends the loop at 3.
    A feed whose height changes every round, with fewer than `max_results`
    anchors counted, is scrolled for as long as it keeps growing
    (`GrowingFeedUnfinished`, `GrowingFeedNeverStops`).
  - If the given rounds run out while the loop would still go on, the outcome is
    `Unfinished`. That outcome means only that the model has seen a prefix of the
    run.
- **Record assembly and the accumulator** (`Records.dfy`, `Extractor.dfy`,
  `extract_business_data`).
  - A listing card is the optional raw texts its lookups found, plus a flag for
    an exception that escapes the per-card `try`.
  - `Assemble` builds the ten-field record. `Harvest` is the sequence of records
    a batch of cards appends.
  - The class `GoogleMapsExtractor` holds `results`, `total`, and the current
    keyword and location. Its methods update them in place.
  - Rating normalisation is Python's `str.replace` written as a left-to-right
    scan that never rescans its own output, followed by `str.strip`.
- **Exporters** (`Export.dfy`, `save_to_excel` / `save_to_pdf`).
  - Both exporters refuse an empty result list.
  - The Excel export builds the DataFrame's sheet. The PDF export builds a
    five-line title and `table_data`.
  - The file writers are not modelled: their failure is an input, and the model
    records the document that would be handed to them.
- **Python string semantics** (`Text.dfy`). `strip` removes exactly the
  characters `str.isspace` accepts. `replace` is proved equal to `join` of
  `split`. `str(int)` is proved to round-trip through a parser.

## Model

| member | source | states |
|---|---|---|
| `Scroll.Loop` | google_maps_scraper.py:112-149 | the loop from one head on: the guard, a raising height read, the counter reset or increment, the break at three before the anchor count, a raising anchor count, and the swallowed "Show more" click; its properties are `LoopFacts` |
| `Scroll.LoadFeed` | google_maps_scraper.py:97-155 | the whole call: False for a missing feed, otherwise the loop from the initial height with counter and anchors at 0; its properties are `LoadFeedFacts` |
| `Scroll.ScrollAndLoad` | google_maps_scraper.py:97-155 | the step-by-step loop returns exactly the outcome `LoadFeed` gives for the same browser answers |
| `Scroll.LoopFacts` | google_maps_scraper.py:112-137 | from any loop head, the counter equals the current streak of unchanged heights. The loop stops for stagnation exactly when that streak reaches 3. A stop at the target has at least `max_results` anchors. Every head passed had fewer anchors and a shorter streak. The 20-attempt guard never fires, and a fault stop comes from a raising round |
| `Scroll.LoadFeedFacts` | google_maps_scraper.py:100-155 | for the whole call: False is returned exactly for a missing feed or a browser call that raised, and once the feed is found a finished run returns True exactly when every round it consumed answered; the round cap is never the reason to stop; the stagnation stop is exactly a streak of three; no earlier loop head met a stop condition |
| `Scroll.PartialLoadStillSucceeds` | google_maps_scraper.py:124-127 | a normal exit returns True with fewer anchors (5) than requested (50) |
| `Scroll.FlatFeedStops` | google_maps_scraper.py:124-127 | if the height does not change in the first three rounds, the run stops within three rounds, for stagnation or at the target |
| `Scroll.GrowingLoop` | google_maps_scraper.py:112-131 | from a head with a zero counter and fewer anchors than the target, a feed whose every round reads a new height and fewer anchors than the target is scrolled through every round given, and the loop is still running |
| `Scroll.GrowingFeedUnfinished` | google_maps_scraper.py:110-131 | for the whole call: any such growing feed is never stopped, however many rounds it has |
| `Scroll.GrowingFeedNeverStops` | google_maps_scraper.py:110-131 | for every n there is a feed (one pixel more per round, no anchors) still scrolling after n rounds: no bound on the number of rounds |
| `Scroll.ButtonIrrelevant` | google_maps_scraper.py:141-149 | a missing, failing or working "Show more" click gives the same run as no button at all |
| `Text.TrimStartSpec` | google_maps_scraper.py:195 | drops exactly the leading whitespace: the result is a suffix, what was dropped is whitespace, the result does not start with whitespace |
| `Text.TrimEndSpec` | google_maps_scraper.py:195 | drops exactly the trailing whitespace: the result is a prefix, what was dropped is whitespace, the result does not end with whitespace |
| `Text.StripSpec` | google_maps_scraper.py:195 | the result is a slice of the input with only whitespace around it, and it neither starts nor ends with whitespace |
| `Text.StripIdempotent` | google_maps_scraper.py:195 | stripping twice is stripping once |
| `Text.StripEmptyIffAllSpace` | google_maps_scraper.py:195-229 | the stripped name is empty exactly when the raw text is all whitespace |
| `Text.JoinSplit` | google_maps_scraper.py:206 | joining the pieces of a split with the separator gives back the input |
| `Text.ReplaceIsJoinSplit` | google_maps_scraper.py:206 | `s.replace(p, r)` equals `r.join(s.split(p))` |
| `Text.SplitPiecesFree` | google_maps_scraper.py:206 | no piece left between the replaced occurrences contains the pattern |
| `Text.HeadPieceFree` | google_maps_scraper.py:206 | a character at which the pattern does not start, followed by a pattern-free prefix of the rest, is free of the pattern |
| `Text.ReplaceAbsent` | google_maps_scraper.py:206 | text without the pattern is unchanged by `replace` |
| `Text.ParseIntOfIntToString` | google_maps_scraper.py:286 | the decimal text `str` writes for an integer reads back as that integer |
| `Text.IntToStringInjective` | google_maps_scraper.py:286 | different numbers get different texts |
| `Records.NormalizeRating` | google_maps_scraper.py:206 | the `replace('stars', '').replace('star', '').strip()` chain; its properties are `RatingWithoutStar`, `RatingOfStars` and `RatingMayStillSayStar` |
| `Records.RatingField` | google_maps_scraper.py:200-208 | the rating is normalised only when the label is a non-empty text; a missing or empty label leaves '' |
| `Records.FieldText` | google_maps_scraper.py:191-226 | a found element gives its stripped text, a lookup that raised leaves '' |
| `Records.Assemble` | google_maps_scraper.py:177-226 | the dictionary built for one card: the number, the stripped name, address and reviews, the rating, empty phone and website, the current keyword and location and the date; its properties are `HarvestRecords` and `SunnyBakeryRecord` |
| `Records.Admitted` | google_maps_scraper.py:229 | a card is stored exactly when nothing raised and its stripped name is non-empty; its properties are `KeptAdmitted` and `StripEmptyIffAllSpace` |
| `Records.Harvest` | google_maps_scraper.py:175-235 | the records a batch appends, each admitted card numbered after the records already held; its properties are `HarvestIsKeptNumbered`, `HarvestRecords`, `HarvestAppend` and `HarvestSnoc` |
| `Records.HarvestIsKeptNumbered` | google_maps_scraper.py:175-231 | a batch yields one record per admitted card, in card order, the k-th numbered `len(results) + 1 + k`. Skipped cards use no number |
| `Records.KeptAdmitted` | google_maps_scraper.py:229 | every kept card has a non-empty stripped name, and no exception |
| `Records.HarvestRecords` | google_maps_scraper.py:177-188 | every appended record has the next consecutive number, a non-empty name, the current keyword and location, the run's date, and empty phone and website |
| `Records.HarvestAppend` | google_maps_scraper.py:175-235 | harvesting a batch in two parts is harvesting it at once, the second part numbered after the first |
| `Records.HarvestSnoc` | google_maps_scraper.py:228-235 | one more card appends its record, numbered after the others, exactly when it is admitted |
| `Records.StepAppends` | google_maps_scraper.py:228-235 | one pass of the per-card loop keeps the list equal to the original records followed by the harvest of the cards seen so far |
| `Records.AppendKeepsInvariant` | google_maps_scraper.py:178-230 | appending a batch to a list numbered 1..n with names keeps it numbered 1..m with names |
| `Records.StripUntrimmed` | google_maps_scraper.py:195 | text without surrounding whitespace is left alone by `strip` |
| `Records.NoStarNoStars` | google_maps_scraper.py:206 | a label free of "star" is free of "stars" |
| `Records.RatingWithoutStar` | google_maps_scraper.py:204-206 | a label that never says "star" is only stripped |
| `Records.RatingOfStars` | google_maps_scraper.py:206 | "4.5 stars" becomes "4.5" |
| `Records.RatingMayStillSayStar` | google_maps_scraper.py:206 | "ststarar" becomes "star": the result can still contain "star" |
| `Records.ReplaceSkip` | google_maps_scraper.py:206 | the scan moves past a character that cannot start the pattern |
| `Records.SunnyBakeryRecord` | google_maps_scraper.py:177-226 | the card named "Sunny Bakery" with label "4.5 stars" gives record 1 rated "4.5" |
| `Records.HarvestOfPair` | google_maps_scraper.py:228-231 | an admitted card followed by a rejected one yields exactly the first card's record |
| `Records.BakeryScenario` | google_maps_scraper.py:175-235 | with one named and one unnamed card, exactly one record is stored: number 1, "Sunny Bakery", rating "4.5" |
| `Extractor.GoogleMapsExtractor.constructor` | google_maps_scraper.py:35-40 | a new extractor has no records, a zero counter and an empty query |
| `Extractor.GoogleMapsExtractor.Search` | google_maps_scraper.py:75-76 | the keyword and location are recorded; results and counter are unchanged |
| `Extractor.GoogleMapsExtractor.ClearResults` | google_maps_scraper.py:505-506 | records and counter are cleared together, so the invariant holds |
| `Extractor.GoogleMapsExtractor.BuildRecord` | google_maps_scraper.py:177-226 | the record built for a card is `Assemble` of it; its name is non-empty exactly when the card's stripped name text is |
| `Extractor.GoogleMapsExtractor.ExtractBusinessData` | google_maps_scraper.py:157-242 | False and no change when the card query raised. Otherwise the new results are the old ones followed by `Harvest` of the cards, earlier entries untouched and in order. The counter grows by exactly the number appended, the query is unchanged, and the invariant (numbers 1..n, names present, counter = length) is preserved |
| `Export.SaveToExcel` | google_maps_scraper.py:244-257 | the empty-results guard, the sheet handed to the writer, and the success and error messages; its properties are `ExportGuards` |
| `Export.Frame` | google_maps_scraper.py:250 | the DataFrame of the records: the ten keys as columns, one row of values per record; its properties are `SheetMatchesTable` |
| `Export.SaveToPdf` | google_maps_scraper.py:259-320 | the empty-results guard, the title and table handed to the writer, and the success and error messages; its properties are `ExportGuards` and `TitleReportsCount` |
| `Export.TitleLines` | google_maps_scraper.py:270-275 | the five title lines, the last one stating the number of records; its properties are `TitleReportsCount` |
| `Export.TableData` | google_maps_scraper.py:282-296 | the first record's keys as the header, then each record's values through `str`; its properties are `TableDataRoundTrip` and `TableNumbering` |
| `Export.ExportGuards` | google_maps_scraper.py:244-320 | both exporters return `(False, "No data to save")` and call no writer when results are empty; they succeed exactly when results are non-empty and the writer succeeds |
| `Export.TableDataRoundTrip` | google_maps_scraper.py:282-296 | the PDF table has `len(results) + 1` rows: the ten keys, then one ten-cell row per record that reads back as that record, in list order |
| `Export.TableNumbering` | google_maps_scraper.py:286 | with records numbered 1..n, data row i starts with the text of i |
| `Export.SheetMatchesTable` | google_maps_scraper.py:250-296 | the spreadsheet and the PDF table have the same columns in the same order, and each PDF cell is `str` of the spreadsheet cell |
| `Export.TitleReportsCount` | google_maps_scraper.py:270-275 | the title has five lines, and the last one states `len(results)` |

## Left out

- Browser set-up, opening Google Maps, the search box interaction and `close_driver` (google_maps_scraper.py:42-95, 322-327): these are Selenium I/O. `Search` models only the two fields it sets.
- XPath evaluation: each lookup is replaced by the text, attribute or count it returns, or by its absence.
- The second card query used when the first finds no cards (google_maps_scraper.py:164-171): it only supplies the card list, which is an input.
- The `time.sleep` settle pauses: they have no effect on the loop state.
- The pandas `to_excel` call, reportlab's `doc.build` and the `TableStyle` colours and fonts: these are foreign file writers and presentation. A writer failure is an input (`writeError`). An exception raised while building the document is folded into that input.
- `datetime.now()`: the date and the PDF time stamp are parameters. `ExtractBusinessData` takes one date for the whole batch. The source reads the clock once per card, so a batch that runs across midnight could carry two dates.
- Logging, `resource_path` and the package check: process plumbing.
- The Tkinter GUI and its background thread (google_maps_scraper.py:329-637). Only the paired reset at lines 505-506 is modelled, as `ClearResults`. The stop button only closes the browser. It gives no cancellation point between rounds or cards, so there is no cancellation to model.
- Scroll heights are modelled as integers. JavaScript may report a non-integral `scrollHeight`; only equality is used.
- Where a card-level exception arises is not modelled (`Card.raises`): a raising card is skipped whole, and nothing of it is stored.
