# simfile_scraper — a verified model of the decision logic

`simfile_scraper.py` keeps a local folder of DDR WORLD simfiles in step
with the zenius-i-vanisher catalogue. It reads the category listing, and
for every simfile on it finds a date in the row's "N units ago" text. It
then compares that date with the modification time of the local chart
file and decides whether that file is up to date.

This project models that decision logic in Dafny and proves what it
promises:

- `RelativeDate` (`relative_date.dfy`) models `parse_relative_date`:
  - the anchored match of `([\d.]+)\s(years?|months?|weeks?|days?)\sago`;
  - `float()` on the captured number, which rejects `1.2.3` or `.`, as an
    explicit `NotANumber` error;
  - the rounded-up day count (366, 31, 7 or 1 days per unit), computed
    exactly on decimals;
  - the instant `now` minus that many days.
- `CategoryPage` (`category_page.dfy`) models `get_simfile_ids_from_category`
  and `get_last_updated_from_category`:
  - the listing is the sequence of its `<a>` elements, each with its `id`,
    `href`, text and enclosing row's cell texts;
  - both functions are methods with loops, proved against recursive
    specification functions;
  - the extraction's loops and lemmas are stated for any way of reading a
    cell's text as a date; `get_last_updated_from_category` instantiates
    it with `parse_relative_date` at the moment `now`;
  - the extraction keeps the source's quirk that `last_updated_dt` is not
    reset between rows (see below).
- `DetailPage` (`detail_page.dfy`) models `get_simfile_name` and
  `get_zip_link`.
- `LocalCharts` (`local_charts.dfy`) models `find_sm_file`. The filesystem
  is the set of existing paths.
- `Sync` (`sync.dfy`) models `scrape_category` on an already fetched
  listing:
  - the three-way freshness decision;
  - the loop over entries that `continue`s past up-to-date charts.
- `Text` (`text.dfy`) holds the shared string helpers: Python's whitespace
  set (for `\s` and `str.strip()`), digit runs and decimal values.
- `Results` (`results.dfy`) holds `Option`, `Result` and the exceptions
  the code raises.

The wall clock (`datetime.now()`) and file modification times are
parameters. An instant is a whole number of microseconds, the resolution
of `datetime`.

Behaviour the model keeps from the code:

- `\s` (between the number and the unit, and before `ago`) is exactly one
  whitespace character. Text after `ago` is ignored.
- The day unit is rounded up like the others: "0.5 days ago" is one day
  back.
- `^sim(\d+)$` also accepts an id with a final newline, because Python's
  `$` matches before a trailing `\n`.
- A listed row with no cells does not touch `last_updated_dt`, so it keeps
  the previous listed row's date. If no listed row has been dated yet, the
  variable is unbound, and the model raises `DateUnbound` (Python's
  NameError).
- A cell the scan reaches (in a listed row, before any cell that gives a
  date) that matches the pattern but whose number `float()` rejects raises
  `NotANumber`, and the whole extraction fails with it. Cells after the
  first dated one are not read.
- An anchor with a simfile element id but no `href` raises `MissingHref`
  (KeyError). A listed one (its `href` is also a simfile link) outside any
  table row raises `NoEnclosingRow` (AttributeError); one whose `href` is
  not a simfile link is skipped, wherever it is.

Further points about the code, which the model follows:

- the code knows only years, months, weeks and days as units (no hours,
  minutes or seconds);
- it has no absolute `YYYY-MM-DD h:mmAM/PM` date parser and no version
  classifier;
- `find_sm_file` prefers `.sm` when both chart files exist, and nothing
  is deleted;
- a row without a date raises a plain `Exception`, not a dedicated error
  type.

## Model

| member | source | states |
|---|---|---|
| `RelativeDate.MatchRelative` | simfile_scraper.py:20 | a match is a well-formed phrase (a non-empty run of digits and dots, one whitespace, a unit word, one whitespace, `ago`) that is a prefix of the text |
| `RelativeDate.MatchComplete` | simfile_scraper.py:20 | every well-formed phrase at the start of a text is matched as exactly that phrase, whatever follows it |
| `RelativeDate.UnitAgoComplete` | simfile_scraper.py:20 | each of the eight unit words, singular or plural, followed by one whitespace and `ago`, is recognised with its unit and plurality |
| `RelativeDate.NoDateIffNoPhrase` | simfile_scraper.py:19-22 | the parser answers `None` if and only if no well-formed phrase starts the text |
| `RelativeDate.ParseDecimalAccepts` | simfile_scraper.py:24 | `float()` accepts the captured `[\d.]+` text exactly when it has at least one digit and at most one dot |
| `RelativeDate.WholeNumberValue` | simfile_scraper.py:24 | a digit run without a dot is read as its integer value |
| `RelativeDate.FractionValue` | simfile_scraper.py:24 | `a.b` is read as the digits of `a` and `b` together, scaled down by the length of `b` |
| `RelativeDate.CeilDiv` | simfile_scraper.py:26-32 | the result is the least whole number whose product with the divisor reaches the dividend (`math.ceil`) |
| `RelativeDate.AgeInDays` | simfile_scraper.py:25-32 | the day count is the ceiling of the magnitude times 366, 31, 7 or 1 for the unit |
| `RelativeDate.ParseRelativeDate` | simfile_scraper.py:19-34 | `None` iff no match; an error iff the match's number is rejected by `float()`, naming that number; otherwise an instant no later than `now` |
| `RelativeDate.PhraseDate` | simfile_scraper.py:24-34 | a text starting with a phrase whose number is `d` parses to exactly `now` minus the rounded-up day count of `d` in that unit |
| `RelativeDate.AgeMonotone` | simfile_scraper.py:25-32 | for a fixed unit, a magnitude that is not larger never gives more days |
| `RelativeDate.LargerMagnitudeNotLater` | simfile_scraper.py:19-34 | for a fixed unit, two texts parse to those exact instants, and the one with the larger magnitude is never the later |
| `RelativeDate.ReadsTwoPointOne` | simfile_scraper.py:24 | `float("2.1")` is read as 21 tenths |
| `RelativeDate.FractionalWeeksRoundUp` | simfile_scraper.py:29-30 | "2.1" is read as 2.1, and 2.1 weeks is 15 days (14.7 rounded up) |
| `RelativeDate.ReadsZeroPointFive` | simfile_scraper.py:24 | `float("0.5")` is read as 5 tenths |
| `RelativeDate.HalfDayRoundsUp` | simfile_scraper.py:31-32 | "0.5" is read as 0.5, and half a day is rounded up to one day |
| `RelativeDate.HoursAreNotADate` | simfile_scraper.py:20-22 | "3 hours ago" gives `None`: hours are not a unit |
| `RelativeDate.ThreeDotsRejected` | simfile_scraper.py:24 | `float()` rejects `1.2.3`, which the pattern's `[\d.]+` captures |
| `RelativeDate.ThreeDottedNumberRaises` | simfile_scraper.py:24 | "1.2.3 days ago" matches the pattern but raises on `float("1.2.3")` |
| `Text.StripPadded` | simfile_scraper.py:42 | `str.strip()` removes exactly the whitespace around a text that neither starts nor ends with whitespace |
| `DetailPage.SimfileName` | simfile_scraper.py:37-43 | a name is found iff the `top-nav` block exists and has a link; the name carries no surrounding whitespace; otherwise `NoSimfileName` |
| `DetailPage.SimfileNameIsLastLink` | simfile_scraper.py:40-42 | the name is the text of the last `top-nav` link with its padding removed, whatever links precede it |
| `DetailPage.ZipLink` | simfile_scraper.py:45-51 | the only failure is `NoZipLink` |
| `DetailPage.ZipLinkIsFirstZip` | simfile_scraper.py:45-51 | it fails iff no link with an `href` has stripped text `ZIP`; otherwise it returns the base URL plus the `href` of the first such link, at the returned index |
| `DetailPage.ZipLinkAfterOther` | simfile_scraper.py:46-47 | a first link that is not a ZIP link is passed over: the same holds with the search continuing in the rest of the page |
| `DetailPage.FirstZipUnique` | simfile_scraper.py:46-50 | there is only one first ZIP link |
| `DetailPage.ZipLinkFound` | simfile_scraper.py:46-50 | a link labelled `ZIP` (padding allowed) after non-ZIP links is the one returned, whatever follows |
| `CategoryPage.ElementIdDigits` | simfile_scraper.py:63-64 | an accepted id is `sim` followed by a non-empty digit run, optionally followed by one newline |
| `CategoryPage.ElementIdForms` | simfile_scraper.py:64 | `sim<digits>` and `sim<digits>` plus a newline are both accepted, with those digits |
| `CategoryPage.SimfileIdOf` | simfile_scraper.py:56 | a link matches iff it starts with `viewsimfile.php?simfileid=` followed by a digit; the id is the whole digit run after the prefix |
| `CategoryPage.SimfileIdOfLink` | simfile_scraper.py:56 | the prefix, a digit run and any text not starting with a digit yield exactly that digit run |
| `CategoryPage.SimfileIds` | simfile_scraper.py:53-59 | at most one id per anchor, each a non-empty digit run |
| `CategoryPage.SimfileIdsOfLinked` | simfile_scraper.py:55-58 | the ids are exactly those of the anchors whose `href` is a simfile link, one per such anchor, in document order |
| `CategoryPage.SimfileIdsMembership` | simfile_scraper.py:55-58 | an id is collected iff some anchor's `href` is a simfile link with that id |
| `CategoryPage.GetSimfileIdsFromCategory` | simfile_scraper.py:53-59 | the loop collects exactly the ids of the matching links, in document order |
| `CategoryPage.FirstHit` | simfile_scraper.py:74-78 | the index of the first cell whose parse is not `None`: every cell before it parses to `None` |
| `CategoryPage.ScanRow` | simfile_scraper.py:74-78 | the inner loop: a row without cells leaves the date variable as it was; otherwise it holds the first cell's date that is not `None`, or `None` when every cell gives `None`; a cell that raises makes the scan raise that error |
| `CategoryPage.ScanListing` | simfile_scraper.py:66-87 | the nested loops, with `break` and the date variable carried across rows, compute exactly the extraction's specification |
| `CategoryPage.GetLastUpdatedFromCategory` | simfile_scraper.py:61-87 | with cells read by `parse_relative_date` at `now`, the result is exactly the extraction's specification |
| `CategoryPage.EntryCount` | simfile_scraper.py:67-86 | a successful extraction has one entry per listed anchor |
| `CategoryPage.EntryDescribes` | simfile_scraper.py:70-86 | entry `i` has the id of listed anchor `i`'s link, its stripped text and the date of its row's first parsing cell, or, for a row without cells, the previous entry's date |
| `CategoryPage.LaterEntryDescribes` | simfile_scraper.py:70-86 | the same for the entries after a listed first anchor's own, read from the rest of the listing |
| `CategoryPage.EntriesFollowListedAnchors` | simfile_scraper.py:67-86 | the same for all entries at once, in document order |
| `CategoryPage.TailErrorPropagates` | simfile_scraper.py:67-86 | the returned date is the first anchor's row date when it is listed, has a row and its date is found, and the incoming date otherwise; an error in the rest of the listing, read with that date, is an error of the whole listing |
| `CategoryPage.UndatedFirstRowRaises` | simfile_scraper.py:74-80 | a first listed row with cells, none of which parses to a date, raises |
| `CategoryPage.UndatedLaterRowRaises` | simfile_scraper.py:67-80 | the same for such a row after the first anchor |
| `CategoryPage.ExtractSucceeds` | simfile_scraper.py:66-87 | conversely, when every anchor with a `sim<digits>` element id has an `href`, and every listed anchor's row has cells whose first cell not reading as "no date" reads as a date, the loop finishes with entries rather than an error, whatever date is carried in |
| `CategoryPage.UndatedRowRaises` | simfile_scraper.py:74-80 | a listed row whose cells all parse to `None` makes the extraction fail instead of being skipped |
| `CategoryPage.RowStampNotInFuture` | simfile_scraper.py:74-79 | a row's date, read by `parse_relative_date`, is no later than `now` when the carried date is not |
| `CategoryPage.EntriesNotInFuture` | simfile_scraper.py:74-86 | every extracted date is no later than `now` |
| `CategoryPage.ListedNotInFuture` | simfile_scraper.py:74-86 | the same when the first anchor is listed |
| `CategoryPage.ListedIdsAreLinkIds` | simfile_scraper.py:67-70 | every anchor the extraction keeps is listed, and its id is among those `get_simfile_ids_from_category` collects |
| `CategoryPage.EntryIdsAreLinkIds` | simfile_scraper.py:68-70 | every extracted entry's id is among those `get_simfile_ids_from_category` collects |
| `LocalCharts.CandidatesDiffer` | simfile_scraper.py:99-103 | the `.sm` and `.ssc` candidates are different paths |
| `LocalCharts.FindSmFile` | simfile_scraper.py:97-104 | the result exists and is one of the two candidates; nothing iff neither exists; the `.sm` file whenever it exists |
| `LocalCharts.OnlyCandidatesMatter` | simfile_scraper.py:97-104 | filesystems that agree on the two candidate paths give the same answer |
| `LocalCharts.AddingFileKeepsChart` | simfile_scraper.py:100-103 | creating a file never loses a found chart, and can only switch the answer to the `.sm` file |
| `LocalCharts.SscOnlyWithoutSm` | simfile_scraper.py:100-103 | the `.ssc` file is returned iff it exists and the `.sm` file does not |
| `Sync.SimfileUrlRoundTrip` | simfile_scraper.py:106 | the detail-page URL for an id, read after the base URL, is a simfile link giving that id back |
| `Sync.Decide` | simfile_scraper.py:137-148 | missing iff there is no local file; up to date iff the local time is at least the remote one (ties included); outdated iff it is earlier |
| `Sync.DecideMonotone` | simfile_scraper.py:142-146 | an earlier remote date or a newer local file never turns up to date into outdated |
| `Sync.LocalMtime` | simfile_scraper.py:137-139 | a time is found iff one of the two candidates exists; it is the `.sm` file's time when that exists, and the `.ssc` file's when only that exists |
| `Sync.Decisions` | simfile_scraper.py:132-148 | one decision per entry: missing iff `find_sm_file` finds no chart for its name; up to date iff the found chart's time is at least the entry's date; outdated iff it is earlier |
| `Sync.ScrapeCategory` | simfile_scraper.py:127-149 | succeeds iff the extraction does, with the extraction's error otherwise; on success, the decisions are exactly one per entry, in order |

## Left out

- HTTP: `requests.get`, `raise_for_status` and timeouts. `ScrapeCategory` takes the anchors of an already fetched listing.
- HTML parsing by BeautifulSoup. A page is given as its anchors and its `top-nav` link texts. Each cell is given as its `get_text(strip=True)` text.
- Zip download and extraction, and directory creation (`extract_zip_to_dir`, `mkdir_simfiles_dir`). These are filesystem and library side effects.
- `scrape_simfile`: only its URL is modelled (`Sync.SimfileUrl`). Its fetches, its logging and its swallowing of exceptions are external effects. The call to it in `scrape_category` is commented out in the source, so it never runs.
- Logging, and the `__main__` entry point with `WORLD_URL`, which is kept as a constant only.
- `datetime.now()`, `os.path.getmtime` and `datetime.fromtimestamp` are parameters: `now`, and a map from existing paths to modification times. The source reads the clock once per date-bearing cell; the model uses one `now` for a whole listing. Time zones and the rounding of float timestamps are not modelled.
- `RelativeDate.ParseRelativeDate`: magnitudes are exact decimals, not doubles. Rounding of `value * 366` before `ceil` is not modelled. Neither is the OverflowError that a huge magnitude, or a date before year 1, raises in the source.
- `\d` is modelled as the ASCII digits. Python's `\d` also accepts other Unicode decimal digits, which `float()` would read.
- `find_sm_file` treats any existing path as a chart file. Whether it is a regular file or a directory is not distinguished, just as `os.path.exists` does not.
